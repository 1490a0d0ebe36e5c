/**
 * Message mode with any mix of in-order and out-of-order messages over the unreliable channel of Arq
 * (internal/core/conn.go, internal/buffer/recv.go): which messages are delivered, and when the cached
 * out-of-order index breaks one apart.
 */
module ArqMessages {
  import opened SeqNum
  import opened Packets
  import opened DataPath
  import opened RecvRing
  import opened MailboxRuns
  import A = Arq
  import R = RecvWindow

  /** The system of Arq, whose receiver also has the cached index. */
  datatype Sys = Sys(core: A.Sys, cache: int)

  function Box(cfg: A.Config, s: Sys): Mailbox {
    Mailbox(s.core.view, s.cache, cfg.recvCap)
  }

  /** The configuration under which Arq takes the steps that do not depend on the order bit. */
  function Plain(cfg: A.Config): A.Config {
    cfg.(messageMode := false)
  }

  // ---- where messages lie ----

  /** Index of the first frame of message k. */
  function Lo(groups: seq<seq<Frame>>, k: nat): nat
    requires k <= |groups|
  {
    |A.Flatten(groups[..k])|
  }

  /** Frame x is frame j of message k. */
  ghost predicate At(groups: seq<seq<Frame>>, x: int, k: nat, j: nat) {
    k < |groups| && j < |groups[k]| && x == Lo(groups, k) + j
  }

  lemma LoNext(groups: seq<seq<Frame>>, k: nat)
    requires k < |groups|
    ensures Lo(groups, k + 1) == Lo(groups, k) + |groups[k]|
  {
    assert groups[..k + 1][..k] == groups[..k];
  }

  lemma {:induction false} LoMono(groups: seq<seq<Frame>>, i: nat, k: nat)
    requires i <= k <= |groups|
    ensures Lo(groups, i) <= Lo(groups, k)
    decreases k - i
  {
    hide Lo;
    if i < k {
      LoMono(groups, i, k - 1);
      LoNext(groups, k - 1);
    }
  }

  lemma AtUnique(groups: seq<seq<Frame>>, x: int, k: nat, j: nat, k': nat, j': nat)
    requires At(groups, x, k, j) && At(groups, x, k', j')
    ensures k == k' && j == j'
  {
    hide Lo;
    LoNext(groups, k);
    LoNext(groups, k');
    if k < k' {
      LoMono(groups, k + 1, k');
    } else if k' < k {
      LoMono(groups, k' + 1, k);
    }
  }

  lemma {:induction false} AtFrame(groups: seq<seq<Frame>>, x: nat, k: nat, j: nat)
    requires At(groups, x, k, j)
    ensures x < |A.Flatten(groups)| && A.Flatten(groups)[x] == groups[k][j]
  {
    A.FlattenAt(groups, k, j);
  }

  lemma AtFind(groups: seq<seq<Frame>>, x: nat) returns (k: nat, j: nat)
    requires x < |A.Flatten(groups)|
    ensures At(groups, x, k, j)
  {
    k, j := A.FlattenFind(groups, x);
  }

  // ---- the invariant ----

  /** The slot i places past the frame n holds frame j of message k. */
  ghost predicate Covers(groups: seq<seq<Frame>>, n: int, i: int, k: nat, j: nat) {
    At(groups, n + i, k, j)
  }

  /** Frame index of the read point. */
  ghost function ReadPoint(cfg: A.Config, s: A.Sys): int {
    s.view.base - cfg.isn
  }

  /** The window with every filled slot holding the packet that was sent. */
  ghost function Filled(cfg: A.Config, s: A.Sys): (v: R.RecvView)
    ensures v.base == s.view.base && |v.win| == |s.view.win|
  {
    var n := s.view.base - cfg.isn;
    s.view.(win := seq(|s.view.win|, i requires 0 <= i < |s.view.win| =>
      if s.view.win[i].state.Empty? || !(0 <= n + i < |s.log|) then s.view.win[i]
      else R.RecvEntry(Some(s.log[n + i]), R.Available, 0)))
  }

  /** The same system in stream mode, having delivered the bytes below the read point. */
  ghost function Bytewise(cfg: A.Config, s: A.Sys): A.Sys {
    var n := s.view.base - cfg.isn;
    s.(view := Filled(cfg, s),
       events := if 0 <= n <= |s.log| then seq(n, i requires 0 <= i < n => EventOf([s.log[i]])) else [])
  }

  /** Filled slots hold the packet sent under their number. */
  ghost predicate HeldInv(cfg: A.Config, s: A.Sys) {
    var n := s.view.base - cfg.isn;
    forall i :: 0 <= i < |s.view.win| && s.view.win[i].Has() ==>
      0 <= n + i < |s.log| && A.Same(s.view.win[i].pkt.value, s.log[n + i])
  }

  ghost predicate CoreInv(cfg: A.Config, s: A.Sys) {
    A.Inv(Plain(cfg), Bytewise(cfg, s)) && HeldInv(cfg, s) && s.view.WellFormed()
  }

  /**
   * How the window and the delivered messages fit together, b being the message at the read point: the
   * messages in d, in this order, have been delivered; everything before b is among them; of the later
   * ones exactly those in d are marked read, and they lie in the window as a whole.
   */
  ghost predicate Fits(cfg: A.Config, s: A.Sys, d: seq<nat>, b: nat) {
    var n := ReadPoint(cfg, s);
    && b <= |s.groups| && n == Lo(s.groups, b)
    && (forall k :: 0 <= k < b ==> k in d)
    && (forall k :: k in d ==> k < |s.groups|)
    && (forall i, k: nat, j: nat :: 0 <= i < |s.view.win| && Covers(s.groups, n, i, k, j) ==>
          (s.view.win[i].state.Read? <==> k in d))
    && (forall k :: k in d && b <= k ==> Lo(s.groups, k + 1) <= n + |s.view.win|)
  }

  /** Event i is the whole payload of write d[i], under its message number, and no write is delivered twice. */
  ghost predicate Whole(s: A.Sys, d: seq<nat>) {
    && |d| == |s.events| && |s.groups| == |s.writes|
    && (forall i :: 0 <= i < |d| ==>
          d[i] < |s.writes| && s.events[i].data == s.writes[d[i]].payload && s.events[i].msgNo == s.writes[d[i]].msgNo)
    && (forall i, j :: 0 <= i < j < |d| ==> d[i] != d[j])
  }

  ghost predicate MsgInv(cfg: A.Config, s: A.Sys, d: seq<nat>, b: nat) {
    Fits(cfg, s, d, b) && Whole(s, d) && (|s.view.win| > 0 ==> !s.view.win[0].state.Read?)
  }

  // ---- consequences ----

  ghost predicate SameGaps(v: R.RecvView, w: R.RecvView) {
    && v.base == w.base && |v.win| == |w.win|
    && forall i :: 0 <= i < |v.win| ==> (v.win[i].state.Empty? <==> w.win[i].state.Empty?)
  }

  lemma SameAck(v: R.RecvView, w: R.RecvView)
    requires SameGaps(v, w)
    ensures R.AckPoint(v) == R.AckPoint(w)
  {
    R.AckOffsetUnique(w.win, R.AckOffset(v.win));
  }

  lemma FilledGaps(cfg: A.Config, s: A.Sys)
    ensures SameGaps(s.view, Filled(cfg, s))
  {
  }

  /** The bounds that the invariant of Arq gives. */
  lemma Bounds(cfg: A.Config, s: A.Sys)
    requires CoreInv(cfg, s)
    ensures var n := s.view.base - cfg.isn;
            0 <= n && n + |s.view.win| <= |s.log| <= |A.Flatten(s.groups)| && |s.groups| == |s.writes|
              && |s.view.win| < cfg.recvCap
  {
    hide A.Flatten, A.Matches, A.SendInv, A.NetInv, A.EventInv, MessageFrames, HeldInv, R.AckPoint;
  }

  lemma FramesOfMessage(cfg: A.Config, s: A.Sys, k: nat)
    requires CoreInv(cfg, s) && k < |s.groups|
    ensures |s.groups| == |s.writes| && MessageFrames(s.groups[k], s.writes[k])
  {
    hide A.Flatten, A.Matches, A.SendInv, A.NetInv, A.EventInv, A.RecvInv, MessageFrames, HeldInv;
  }

  /** A held packet carries the frame of its place. */
  lemma SlotFrame(cfg: A.Config, s: A.Sys, i: nat, k: nat, j: nat)
    requires CoreInv(cfg, s) && i < |s.view.win| && s.view.win[i].Has() && Covers(s.groups, ReadPoint(cfg, s), i, k, j)
    ensures A.FrameOf(s.view.win[i].pkt.value, s.groups[k][j])
  {
    hide A.Flatten, A.SendInv, A.NetInv, A.EventInv, A.RecvInv, MessageFrames;
    Bounds(cfg, s);
    var x := s.view.base - cfg.isn + i;
    AtFrame(s.groups, x, k, j);
    assert A.Matches(s.log[x], A.Flatten(s.groups)[x], cfg.isn + x);
  }

  lemma SlotPlace(cfg: A.Config, s: A.Sys, i: nat) returns (k: nat, j: nat)
    requires CoreInv(cfg, s) && i < |s.view.win|
    ensures Covers(s.groups, ReadPoint(cfg, s), i, k, j)
  {
    hide CoreInv, At;
    Bounds(cfg, s);
    k, j := AtFind(s.groups, s.view.base - cfg.isn + i);
  }

  // ---- the byte-wise invariant under changes of the window ----

  lemma Refill(cfg: A.Config, s: A.Sys, v: R.RecvView)
    requires A.Inv(cfg, s) && SameGaps(s.view, v)
    requires forall i :: 0 <= i < |v.win| && !v.win[i].state.Empty? ==>
               v.win[i].Has() && 0 <= v.base - cfg.isn + i < |s.log|
                 && A.Same(v.win[i].pkt.value, s.log[v.base - cfg.isn + i])
    ensures A.Inv(cfg, s.(view := v))
  {
    hide A.Flatten, A.Matches, MessageFrames, R.AckPoint, A.EventData, Payloads;
    SameAck(s.view, v);
  }

  lemma DropCore(cfg: A.Config, s: A.Sys, m: nat)
    requires CoreInv(cfg, s) && m <= |s.view.win| && forall i :: 0 <= i < m ==> !s.view.win[i].state.Empty?
    ensures CoreInv(cfg, s.(view := R.DropHead(s.view, m)))
  {
    hide A.Inv, EventOf, Filled;
    Bounds(cfg, s);
    var t, p := s.(view := R.DropHead(s.view, m)), Bytewise(cfg, s);
    FilledDrop(cfg, s, m);
    assert Bytewise(cfg, t) == p.(view := R.DropHead(p.view, m), events := Bytewise(cfg, t).events);
    OneEvent(Plain(cfg), Bytewise(cfg, t), s.view.base - cfg.isn + m);
    A.ReadKeeps(Plain(cfg), p, m, Bytewise(cfg, t).events);
  }

  lemma FilledDrop(cfg: A.Config, s: A.Sys, m: nat)
    requires m <= |s.view.win| && 0 <= s.view.base - cfg.isn && s.view.Max() <= cfg.isn + |s.log|
    requires forall i :: 0 <= i < m ==> !s.view.win[i].state.Empty?
    ensures Filled(cfg, s.(view := R.DropHead(s.view, m))) == R.DropHead(Filled(cfg, s), m)
    ensures forall i :: 0 <= i < m ==> Filled(cfg, s).win[i].Has()
  {
    assert Filled(cfg, s.(view := R.DropHead(s.view, m))).win == Filled(cfg, s).win[m..];
  }

  lemma OneEvent(cfg: A.Config, s: A.Sys, n: nat)
    requires !cfg.messageMode && n == s.view.base - cfg.isn && n <= |s.log|
    requires |s.events| == n && forall i :: 0 <= i < n ==> s.events[i] == EventOf([s.log[i]])
    ensures A.EventInv(cfg, s)
  {
  }

  lemma {:induction false} MarkCore(cfg: A.Config, s: A.Sys, f: nat, l: nat)
    requires CoreInv(cfg, s) && f <= l && R.AllHeld(s.view.win, f, l)
    ensures CoreInv(cfg, s.(view := s.view.(win := R.MarkRange(s.view.win, f, l))))
  {
    hide A.Inv, Payloads, R.MarkRange;
    var t := s.(view := s.view.(win := R.MarkRange(s.view.win, f, l)));
    assert Filled(cfg, t).win == Filled(cfg, s).win;
    assert Bytewise(cfg, t) == Bytewise(cfg, s);
  }

  lemma EventsCore(cfg: A.Config, s: A.Sys, es: seq<Event>)
    requires CoreInv(cfg, s)
    ensures CoreInv(cfg, s.(events := es))
  {
    hide A.Inv, Payloads;
    assert Bytewise(cfg, s.(events := es)) == Bytewise(cfg, s);
  }

  lemma StoreCore(cfg: A.Config, s: A.Sys, m: A.Msg, i: nat, now: int)
    requires CoreInv(cfg, s) && m.Data? && m in s.net && i < cfg.recvCap - 1 && s.view.base + i == m.tag
    requires R.Slot(s.view, i).state.Empty?
    ensures CoreInv(cfg, s.(view := R.InsertAt(s.view, i, m.p, now)))
  {
    hide A.Inv, Payloads;
    Bounds(cfg, s);
    var p := Bytewise(cfg, s);
    var t := s.(view := R.InsertAt(s.view, i, m.p, now));
    A.StoreKeeps(Plain(cfg), p, m, i, now);
    NetPacket(cfg, s, m);
    StoredGaps(cfg, s, i, m.p, now);
    Refill(Plain(cfg), p.(view := R.InsertAt(p.view, i, m.p, now)), Filled(cfg, t));
    assert Bytewise(cfg, t) == p.(view := Filled(cfg, t));
  }

  lemma NetPacket(cfg: A.Config, s: A.Sys, m: A.Msg)
    requires CoreInv(cfg, s) && m.Data? && m in s.net
    ensures 0 <= m.tag - cfg.isn < |s.log| && A.Same(m.p, s.log[m.tag - cfg.isn])
  {
    hide A.Flatten, A.Matches, A.SendInv, A.LogInv, A.EventInv, A.RecvInv;
  }

  lemma StoredGaps(cfg: A.Config, s: A.Sys, i: nat, p: Packet, now: int)
    requires CoreInv(cfg, s) && 0 <= s.view.base - cfg.isn + i < |s.log| && A.Same(p, s.log[s.view.base - cfg.isn + i])
    requires R.Slot(s.view, i).state.Empty?
    ensures var t := s.(view := R.InsertAt(s.view, i, p, now));
            && SameGaps(R.InsertAt(Filled(cfg, s), i, p, now), Filled(cfg, t))
            && (forall j :: 0 <= j < |t.view.win| && !t.view.win[j].state.Empty? ==>
                  Filled(cfg, t).win[j].Has() && 0 <= s.view.base - cfg.isn + j < |s.log|
                  && A.Same(Filled(cfg, t).win[j].pkt.value, s.log[s.view.base - cfg.isn + j]))
            && HeldInv(cfg, t) && t.view.WellFormed()
  {
    hide CoreInv, R.InsertAt, A.Same, Filled, SameGaps, HeldInv;
    CoreParts(cfg, s);
    Bounds(cfg, s);
    NotRetransmitted(cfg, s);
    var t := s.(view := R.InsertAt(s.view, i, p, now));
    Inserted(s.view, i, p, now);
    StoredSameGaps(cfg, s, i, p, now);
    StoredHeld(cfg, s, i, p, now);
    forall j | 0 <= j < |t.view.win| && !t.view.win[j].state.Empty?
      ensures Filled(cfg, t).win[j] == R.RecvEntry(Some(s.log[s.view.base - cfg.isn + j]), R.Available, 0)
    {
      FilledSlot(cfg, t, j);
    }
  }

  lemma CoreParts(cfg: A.Config, s: A.Sys)
    requires CoreInv(cfg, s)
    ensures HeldInv(cfg, s) && s.view.WellFormed()
  {
    hide A.Inv, HeldInv;
  }

  lemma FilledSlot(cfg: A.Config, s: A.Sys, j: nat)
    requires j < |s.view.win|
    ensures Filled(cfg, s).base == s.view.base && |Filled(cfg, s).win| == |s.view.win|
    ensures var n := s.view.base - cfg.isn;
            Filled(cfg, s).win[j] == if s.view.win[j].state.Empty? || !(0 <= n + j < |s.log|) then s.view.win[j]
                                     else R.RecvEntry(Some(s.log[n + j]), R.Available, 0)
  {
  }

  lemma StoredSameGaps(cfg: A.Config, s: A.Sys, i: nat, p: Packet, now: int)
    ensures var t := s.(view := R.InsertAt(s.view, i, p, now));
            SameGaps(R.InsertAt(Filled(cfg, s), i, p, now), Filled(cfg, t))
  {
    hide R.InsertAt, Filled;
    var t := s.(view := R.InsertAt(s.view, i, p, now));
    Inserted(s.view, i, p, now);
    Inserted(Filled(cfg, s), i, p, now);
    FilledGaps(cfg, s);
    FilledGaps(cfg, t);
  }

  lemma StoredHeld(cfg: A.Config, s: A.Sys, i: nat, p: Packet, now: int)
    requires HeldInv(cfg, s) && s.view.WellFormed()
    requires 0 <= s.view.base - cfg.isn + i < |s.log| && A.Same(p, s.log[s.view.base - cfg.isn + i])
    ensures var t := s.(view := R.InsertAt(s.view, i, p, now)); HeldInv(cfg, t) && t.view.WellFormed()
  {
    hide R.InsertAt, A.Same;
    Inserted(s.view, i, p, now);
  }

  lemma Inserted(v: R.RecvView, i: nat, p: Packet, now: int)
    ensures var w := R.InsertAt(v, i, p, now);
            && w.base == v.base && |w.win| == (if i < |v.win| then |v.win| else i + 1)
            && forall j :: 0 <= j < |w.win| ==>
                 w.win[j] == if j == i then R.RecvEntry(Some(p), R.Available, now)
                             else if j < |v.win| then v.win[j] else R.NO_PACKET
  {
  }

  lemma NotRetransmitted(cfg: A.Config, s: A.Sys)
    requires CoreInv(cfg, s)
    ensures forall j :: 0 <= j < |s.log| ==> A.Same(s.log[j], s.log[j])
  {
    hide A.Flatten, A.SendInv, A.NetInv, A.EventInv, A.RecvInv, MessageFrames;
    forall j | 0 <= j < |s.log|
      ensures A.Same(s.log[j], s.log[j])
    {
      assert A.Matches(s.log[j], A.Flatten(s.groups)[j], cfg.isn + j);
    }
  }

  // ---- reading keeps messages whole ----

  ghost function WithView(s: A.Sys, v: R.RecvView): A.Sys {
    s.(view := v)
  }

  /** Message b, all of it in the window, leaves the head. */
  lemma DropFits(cfg: A.Config, s: A.Sys, d: seq<nat>, b: nat)
    requires Fits(cfg, s, d, b) && b < |s.groups| && |s.groups[b]| <= |s.view.win| && b in d
    ensures Fits(cfg, WithView(s, R.DropHead(s.view, |s.groups[b]|)), d, b + 1)
  {
    hide Lo, At;
    var g := |s.groups[b]|;
    var t := WithView(s, R.DropHead(s.view, g));
    var n := ReadPoint(cfg, s);
    var n' := ReadPoint(cfg, t);
    LoNext(s.groups, b);
    forall i, k: nat, j: nat | 0 <= i < |t.view.win| && Covers(t.groups, n', i, k, j)
      ensures t.view.win[i].state.Read? <==> k in d
    {
      assert Covers(s.groups, n, g + i, k, j) && t.view.win[i] == s.view.win[g + i];
    }
  }

  lemma {:induction false} ReleaseRun(v: R.RecvView, g: nat)
    requires g <= |v.win| && forall i :: 0 <= i < g ==> v.win[i].state.Read?
    ensures R.ReleaseFillers(v) == R.ReleaseFillers(R.DropHead(v, g))
    decreases g
  {
    if g == 0 {
      assert R.DropHead(v, 0) == v;
    } else {
      ReleaseRun(R.PopHead(v), g - 1);
      assert R.DropHead(R.PopHead(v), g - 1) == R.DropHead(v, g);
    }
  }

  /** Releasing read slots at the head takes whole messages. */
  lemma {:induction false} ReleaseFits(cfg: A.Config, s: A.Sys, d: seq<nat>, b: nat) returns (b': nat)
    requires CoreInv(cfg, s) && Fits(cfg, s, d, b)
    ensures Fits(cfg, WithView(s, R.ReleaseFillers(s.view)), d, b')
    decreases |s.view.win|
  {
    hide CoreInv, At, Lo;
    if |s.view.win| > 0 && s.view.win[0].state.Read? {
      HeadMessage(cfg, s, d, b);
      var g := |s.groups[b]|;
      assert Covers(s.groups, ReadPoint(cfg, s), 0, b, 0);
      forall i | 0 <= i < g
        ensures s.view.win[i].state.Read?
      {
        assert Covers(s.groups, ReadPoint(cfg, s), i, b, i);
      }
      DropFits(cfg, s, d, b);
      DropCore(cfg, s, g);
      ReleaseRun(s.view, g);
      b' := ReleaseFits(cfg, WithView(s, R.DropHead(s.view, g)), d, b + 1);
    } else {
      b' := b;
      assert R.ReleaseFillers(s.view) == s.view;
    }
  }

  /**
   * The head of a nonempty window is the first frame of message b; if that is delivered, all of it is in
   * the window.
   */
  lemma HeadMessage(cfg: A.Config, s: A.Sys, d: seq<nat>, b: nat)
    requires CoreInv(cfg, s) && Fits(cfg, s, d, b) && |s.view.win| > 0
    ensures b < |s.groups| && |s.groups[b]| > 0
    ensures forall i :: 0 <= i < |s.groups[b]| ==> Covers(s.groups, ReadPoint(cfg, s), i, b, i)
    ensures b in d ==> |s.groups[b]| <= |s.view.win|
  {
    hide CoreInv, Lo;
    var k, j := SlotPlace(cfg, s, 0);
    assert At(s.groups, Lo(s.groups, b), k, j);
    LoNext(s.groups, k);
    if b == |s.groups| {
      LoMono(s.groups, k + 1, b);
    }
    FramesOfMessage(cfg, s, b);
    LoNext(s.groups, b);
  }

  /** The in-order read on a head that carries the frames of one message, whatever lies behind it. */
  lemma ReadWhole(v: R.RecvView, fs: seq<Frame>, w: Write)
    requires MessageFrames(fs, w) && R.ReadyHead(v)
    requires forall i :: 0 <= i < |fs| && i < |v.win| && v.win[i].Has() ==> A.FrameOf(v.win[i].pkt.value, fs[i])
    ensures var r := R.ReadInOrder(v);
            || (r.pkts.None? && r.view == v)
            || (&& |fs| <= |v.win| && (forall i :: 0 <= i < |fs| ==> v.win[i].Has())
                && r.pkts == Some(R.PacketsOf(v.win, |fs|)) && r.view == R.ReleaseFillers(R.DropHead(v, |fs|))
                && Payloads(r.pkts.value) == w.payload)
    ensures (|fs| <= |v.win| && forall i :: 0 <= i < |fs| ==> v.win[i].Has()) <==> R.ReadInOrder(v).pkts.Some?
  {
    hide R.ReleaseFillers, R.ReadInOrder;
    R.ReadInOrderExact(v, |fs|);
    A.FramedHead(v.win, fs, w);
    if |fs| <= |v.win| && forall i :: 0 <= i < |fs| ==> v.win[i].Has() {
      A.PayloadsOfFrames(v.win, fs, |fs|);
      assert fs[..|fs|] == fs;
    }
  }

  /** Delivering message k on top of d. */
  lemma WholeSnoc(s: A.Sys, d: seq<nat>, k: nat, e: Event)
    requires Whole(s, d) && k < |s.writes| && k !in d && e.data == s.writes[k].payload && e.msgNo == s.writes[k].msgNo
    ensures Whole(s.(events := s.events + [e]), d + [k])
  {
  }

  /** Adding the message at the head to the delivered ones, before it leaves. */
  lemma HeadDelivered(cfg: A.Config, s: A.Sys, d: seq<nat>, b: nat)
    requires CoreInv(cfg, s) && Fits(cfg, s, d, b) && b < |s.groups| && b !in d && |s.groups[b]| <= |s.view.win|
    ensures Fits(cfg, WithView(s, R.DropHead(s.view, |s.groups[b]|)), d + [b], b + 1)
  {
    hide Lo, At, CoreInv;
    var g := |s.groups[b]|;
    var t := WithView(s, R.DropHead(s.view, g));
    var n := ReadPoint(cfg, s);
    var n' := ReadPoint(cfg, t);
    LoNext(s.groups, b);
    forall i, k: nat, j: nat | 0 <= i < |t.view.win| && Covers(t.groups, n', i, k, j)
      ensures t.view.win[i].state.Read? <==> k in d + [b]
    {
      assert Covers(s.groups, n, g + i, k, j) && t.view.win[i] == s.view.win[g + i];
      NotBefore(s.groups, b + 1, n + g + i, k, j);
    }
  }

  /** A frame at or past the start of message b belongs to b or a later message. */
  lemma NotBefore(groups: seq<seq<Frame>>, b: nat, x: int, k: nat, j: nat)
    requires b <= |groups| && x >= Lo(groups, b) && At(groups, x, k, j)
    ensures k >= b
  {
    hide Lo;
    LoNext(groups, k);
    if k < b {
      LoMono(groups, k + 1, b);
    }
  }

  ghost function Emitted(es: seq<Event>, pkts: Option<seq<Packet>>): seq<Event> {
    if pkts.None? || pkts.value == [] then es else es + [EventOf(pkts.value)]
  }

  lemma InOrderKeeps(cfg: A.Config, s: A.Sys, d: seq<nat>, b: nat) returns (d': seq<nat>, b': nat)
    requires CoreInv(cfg, s) && MsgInv(cfg, s, d, b) && R.ReadyHead(s.view)
    ensures var r := R.ReadInOrder(s.view);
            var t := s.(view := r.view, events := Emitted(s.events, r.pkts));
            CoreInv(cfg, t) && MsgInv(cfg, t, d', b')
  {
    hide CoreInv, At, Lo, R.ReadInOrder, R.ReleaseFillers, R.CountAvailable, R.CountOutOfOrder;
    HeadMessage(cfg, s, d, b);
    FramesOfMessage(cfg, s, b);
    var fs, r := s.groups[b], R.ReadInOrder(s.view);
    forall i | 0 <= i < |fs| && i < |s.view.win| && s.view.win[i].Has()
      ensures A.FrameOf(s.view.win[i].pkt.value, fs[i])
    {
      SlotFrame(cfg, s, i, b, i);
    }
    ReadWhole(s.view, fs, s.writes[b]);
    if r.pkts.None? {
      d', b' := d, b;
      assert s.(view := r.view, events := s.events) == s;
    } else {
      assert Covers(s.groups, ReadPoint(cfg, s), 0, b, 0);
      HeadDelivered(cfg, s, d, b);
      DropCore(cfg, s, |fs|);
      var t := WithView(s, R.DropHead(s.view, |fs|));
      d' := d + [b];
      b' := ReleaseFits(cfg, t, d', b + 1);
      ReleaseCore(cfg, t);
      R.ReleaseFillersExact(t.view);
      var u := WithView(t, R.ReleaseFillers(t.view));
      WholeSnoc(u, d, b, EventOf(r.pkts.value));
      EventsCore(cfg, u, s.events + [EventOf(r.pkts.value)]);
    }
  }

  lemma ReleaseCore(cfg: A.Config, s: A.Sys)
    requires CoreInv(cfg, s)
    ensures CoreInv(cfg, WithView(s, R.ReleaseFillers(s.view)))
  {
    hide CoreInv, R.ReleaseFillers, R.CountAvailable, R.CountOutOfOrder;
    R.ReleaseFillersExact(s.view);
    var m := R.ReleaseFillers(s.view).base - s.view.base;
    assert R.ReleaseFillers(s.view) == R.DropHead(s.view, m);
    DropCore(cfg, s, m);
  }

  // ---- the cached read ----

  /**
   * What the cache may point to for a cached read to be harmless: a slot without a packet, or the start
   * of a message all of whose packets are held.
   */
  ghost predicate ServesAt(win: seq<R.RecvEntry>, f: nat) {
    f >= |win| || !win[f].Has() || (win[f].pkt.value.pos.StartsMessage() && R.Walk(win, f).Ended?)
  }

  ghost predicate Serves(b: Mailbox) {
    R.ReadyHead(b.view) || Cached(b.view, b.cache, b.cap).None?
      || ServesAt(b.view.win, Cached(b.view, b.cache, b.cap).value)
  }

  /** A held packet that starts a message is the first frame of one; the walk from it ends at the last frame. */
  lemma CachedIsMessage(cfg: A.Config, s: A.Sys, f: nat) returns (k: nat)
    requires CoreInv(cfg, s) && f < |s.view.win| && s.view.win[f].Has()
    requires s.view.win[f].pkt.value.pos.StartsMessage() && R.Walk(s.view.win, f).Ended?
    ensures k < |s.groups| && Covers(s.groups, ReadPoint(cfg, s), f, k, 0)
    ensures R.Walk(s.view.win, f).l == f + |s.groups[k]| - 1 && R.AllHeld(s.view.win, f, f + |s.groups[k]|)
  {
    hide CoreInv, Lo, R.Walk;
    var j;
    k, j := SlotPlace(cfg, s, f);
    SlotFrame(cfg, s, f, k, j);
    FramesOfMessage(cfg, s, k);
    var fs, l := s.groups[k], R.Walk(s.view.win, f).l;
    R.WalkExact(s.view.win, f);
    var last := f + |fs| - 1;
    if last <= l {
      assert Covers(s.groups, ReadPoint(cfg, s), last, k, |fs| - 1);
      SlotFrame(cfg, s, last, k, |fs| - 1);
    } else {
      assert Covers(s.groups, ReadPoint(cfg, s), l, k, l - f);
      SlotFrame(cfg, s, l, k, l - f);
    }
  }

  lemma CachedPayload(cfg: A.Config, s: A.Sys, f: nat, k: nat)
    requires CoreInv(cfg, s) && k < |s.groups| && Covers(s.groups, ReadPoint(cfg, s), f, k, 0)
    requires |s.groups[k]| > 0 && R.AllHeld(s.view.win, f, f + |s.groups[k]|)
    ensures |s.groups| == |s.writes|
    ensures var ps := R.PacketsFrom(s.view.win, f, f + |s.groups[k]| - 1);
            Payloads(ps) == s.writes[k].payload && ps[0].msgNo == s.writes[k].msgNo
  {
    hide CoreInv, Lo;
    FramesOfMessage(cfg, s, k);
    var fs, win := s.groups[k], s.view.win[f..];
    forall i | 0 <= i < |fs|
      ensures win[i].Has() && A.FrameOf(win[i].pkt.value, fs[i])
    {
      assert Covers(s.groups, ReadPoint(cfg, s), f + i, k, i);
      SlotFrame(cfg, s, f + i, k, i);
    }
    A.PayloadsOfFrames(win, fs, |fs|);
    assert fs[..|fs|] == fs;
    assert R.PacketsOf(win, |fs|) == R.PacketsFrom(s.view.win, f, f + |fs| - 1);
  }

  /** Marking exactly message k as read delivers it. */
  lemma {:induction false} MarkFits(cfg: A.Config, s: A.Sys, d: seq<nat>, b: nat, f: nat, k: nat)
    requires Fits(cfg, s, d, b) && k < |s.groups| && Covers(s.groups, ReadPoint(cfg, s), f, k, 0) && k !in d
    requires f + |s.groups[k]| <= |s.view.win|
    ensures Fits(cfg, WithView(s, s.view.(win := R.MarkRange(s.view.win, f, f + |s.groups[k]|))), d + [k], b)
  {
    hide Lo, R.MarkRange;
    var g := |s.groups[k]|;
    var t := WithView(s, s.view.(win := R.MarkRange(s.view.win, f, f + g)));
    var n := ReadPoint(cfg, s);
    LoNext(s.groups, k);
    forall i, k': nat, j: nat | 0 <= i < |t.view.win| && Covers(t.groups, n, i, k', j)
      ensures t.view.win[i].state.Read? <==> k' in d + [k]
    {
      assert Covers(s.groups, n, i, k', j);
      if f <= i < f + g {
        assert Covers(s.groups, n, i, k, i - f);
        AtUnique(s.groups, n + i, k, i - f, k', j);
      }
    }
  }

  /** Marking message k as read and releasing what is read at the head keeps the rest. */
  lemma MarkKeeps(cfg: A.Config, s: A.Sys, d: seq<nat>, b: nat, f: nat, k: nat) returns (b': nat)
    requires CoreInv(cfg, s) && Fits(cfg, s, d, b) && k < |s.groups| && Covers(s.groups, ReadPoint(cfg, s), f, k, 0)
             && k !in d
    requires R.AllHeld(s.view.win, f, f + |s.groups[k]|)
    ensures var v := R.ReleaseFillers(s.view.(win := R.MarkRange(s.view.win, f, f + |s.groups[k]|)));
            CoreInv(cfg, WithView(s, v)) && Fits(cfg, WithView(s, v), d + [k], b')
              && (|v.win| > 0 ==> !v.win[0].state.Read?)
  {
    hide CoreInv, Fits, Lo, At, R.ReleaseFillers, R.MarkRange, R.CountAvailable, R.CountOutOfOrder;
    var g := |s.groups[k]|;
    MarkFits(cfg, s, d, b, f, k);
    MarkCore(cfg, s, f, f + g);
    var t := WithView(s, s.view.(win := R.MarkRange(s.view.win, f, f + g)));
    b' := ReleaseFits(cfg, t, d + [k], b);
    ReleaseCore(cfg, t);
    R.ReleaseFillersExact(t.view);
  }

  /** A cached read that serves delivers one whole message that was not delivered before, or nothing. */
  lemma CachedKeeps(cfg: A.Config, s: A.Sys, d: seq<nat>, b: nat, f: nat) returns (d': seq<nat>, b': nat)
    requires CoreInv(cfg, s) && MsgInv(cfg, s, d, b) && ServesAt(s.view.win, f)
    ensures var r := R.ReadCached(s.view, f);
            var t := s.(view := r.view, events := Emitted(s.events, r.pkts));
            CoreInv(cfg, t) && MsgInv(cfg, t, d', b')
  {
    hide CoreInv, Lo, R.ReleaseFillers, R.Walk, R.MarkRange;
    if f >= |s.view.win| || !s.view.win[f].Has() {
      d', b' := d, b;
      NothingThere(s.view, f);
      assert s.(view := s.view, events := s.events) == s;
    } else {
      var k := CachedIsMessage(cfg, s, f);
      NotYet(cfg, s, d, b, f, k);
      d', b' := WholeMessage(cfg, s, d, b, f, k);
    }
  }

  lemma NotYet(cfg: A.Config, s: A.Sys, d: seq<nat>, b: nat, f: nat, k: nat)
    requires Fits(cfg, s, d, b) && f < |s.view.win| && s.view.win[f].Has()
             && Covers(s.groups, ReadPoint(cfg, s), f, k, 0)
    ensures k !in d
  {
  }

  lemma WholeMessage(cfg: A.Config, s: A.Sys, d: seq<nat>, b: nat, f: nat, k: nat) returns (d': seq<nat>, b': nat)
    requires CoreInv(cfg, s) && MsgInv(cfg, s, d, b) && k < |s.groups| && Covers(s.groups, ReadPoint(cfg, s), f, k, 0)
             && k !in d
    requires R.Walk(s.view.win, f) == R.Ended(f + |s.groups[k]| - 1) && R.AllHeld(s.view.win, f, f + |s.groups[k]|)
    ensures var r := R.ReadCached(s.view, f);
            var t := s.(view := r.view, events := Emitted(s.events, r.pkts));
            CoreInv(cfg, t) && MsgInv(cfg, t, d', b')
  {
    hide CoreInv, Fits, Whole, Lo, At, R.ReleaseFillers, R.Walk, R.MarkRange;
    var g := |s.groups[k]|;
    FramesOfMessage(cfg, s, k);
    CachedPayload(cfg, s, f, k);
    b' := MarkKeeps(cfg, s, d, b, f, k);
    d' := d + [k];
    var u := WithView(s, R.ReleaseFillers(s.view.(win := R.MarkRange(s.view.win, f, f + g))));
    var e := EventOf(R.PacketsFrom(s.view.win, f, f + g - 1));
    SameWhole(s, u, d);
    WholeSnoc(u, d, k, e);
    EventsCore(cfg, u, s.events + [e]);
    EventsFits(cfg, u, d', b', s.events + [e]);
  }

  lemma SameWhole(s: A.Sys, t: A.Sys, d: seq<nat>)
    requires Whole(s, d) && t.events == s.events && t.writes == s.writes && t.groups == s.groups
    ensures Whole(t, d)
  {
  }

  lemma EventsFits(cfg: A.Config, s: A.Sys, d: seq<nat>, b: nat, es: seq<Event>)
    requires Fits(cfg, s, d, b)
    ensures Fits(cfg, s.(events := es), d, b)
  {
    hide Lo, At;
  }

  lemma NothingThere(v: R.RecvView, f: nat)
    requires f >= |v.win| || !v.win[f].Has()
    ensures R.ReadCached(v, f) == R.ReadResult(v, None)
  {
  }

  /**
   * The exact condition: without an available head, a cached read leaves every message whole, delivered
   * at most once and not lost, if and only if the cache serves. Otherwise it hands out a message without
   * its beginning, or marks packets as read that it does not hand out.
   */
  lemma ServesExactly(cfg: A.Config, s: A.Sys, d: seq<nat>, b: nat, f: nat)
    requires CoreInv(cfg, s) && MsgInv(cfg, s, d, b) && !R.ReadyHead(s.view)
    ensures var r := R.ReadCached(s.view, f);
            var t := s.(view := r.view, events := Emitted(s.events, r.pkts));
            (exists d': seq<nat>, b': nat :: Fits(cfg, t, d', b') && Whole(t, d')) <==> ServesAt(s.view.win, f)
  {
    hide CoreInv, Fits, Whole, ServesAt, R.ReadCached;
    var r := R.ReadCached(s.view, f);
    var t := s.(view := r.view, events := Emitted(s.events, r.pkts));
    if ServesAt(s.view.win, f) {
      var d', b' := CachedKeeps(cfg, s, d, b, f);
      assert Fits(cfg, t, d', b') && Whole(t, d');
    } else {
      forall d': seq<nat>, b': nat
        ensures !Fits(cfg, t, d', b')
      {
        Unserved(cfg, s, d, b, f, d', b');
      }
    }
  }

  lemma Unserved(cfg: A.Config, s: A.Sys, d: seq<nat>, b: nat, f: nat, d': seq<nat>, b': nat)
    requires CoreInv(cfg, s) && MsgInv(cfg, s, d, b) && !R.ReadyHead(s.view)
    requires !ServesAt(s.view.win, f)
    ensures var r := R.ReadCached(s.view, f);
            !Fits(cfg, s.(view := r.view, events := Emitted(s.events, r.pkts)), d', b')
  {
    hide CoreInv, Lo, R.ReleaseFillers, R.Walk, Whole;
    R.WalkExact(s.view.win, f);
    var e := match R.Walk(s.view.win, f) case Ended(l) => l + 1 case Broken(k) => k;
    var v := s.view.(win := R.MarkRange(s.view.win, f, e));
    HeadUnread(v);
    var r := R.ReadCached(s.view, f);
    assert r.view == v;
    var t := s.(view := r.view, events := Emitted(s.events, r.pkts));
    var k, j := SlotPlace(cfg, s, f);
    SlotFrame(cfg, s, f, k, j);
    FramesOfMessage(cfg, s, k);
    assert k !in d;
    if !s.view.win[f].pkt.value.pos.StartsMessage() {
      SplitBefore(cfg, s, d, b, t, f, k, j, d', b');
    } else {
      SplitAfter(cfg, s, d, b, t, f, e, k, d', b');
    }
  }

  lemma {:induction false} HeadUnread(v: R.RecvView)
    requires |v.win| > 0 ==> !v.win[0].state.Read?
    ensures R.ReleaseFillers(v) == v
  {
  }

  /** A read that begins inside a message leaves its earlier packets unread. */
  lemma SplitBefore(cfg: A.Config, s: A.Sys, d: seq<nat>, b: nat, t: A.Sys, f: nat, k: nat, j: nat, d': seq<nat>,
                    b': nat)
    requires Fits(cfg, s, d, b) && f < |s.view.win| && Covers(s.groups, ReadPoint(cfg, s), f, k, j) && j > 0 && k !in d
    requires t.groups == s.groups && t.view.base == s.view.base && |t.view.win| == |s.view.win|
    requires t.view.win[f].state.Read? && (f > 0 ==> t.view.win[f - 1] == s.view.win[f - 1])
    ensures !Fits(cfg, t, d', b')
  {
    hide Lo;
    NotBefore(s.groups, b, ReadPoint(cfg, s) + f, k, j);
    LoMono(s.groups, b, k);
    assert f >= j;
    assert Covers(s.groups, ReadPoint(cfg, s), f - 1, k, j - 1);
    assert Covers(t.groups, ReadPoint(cfg, t), f - 1, k, j - 1);
    assert Covers(t.groups, ReadPoint(cfg, t), f, k, j);
  }

  /** A read that breaks off inside a message leaves its later packets unread. */
  lemma SplitAfter(cfg: A.Config, s: A.Sys, d: seq<nat>, b: nat, t: A.Sys, f: nat, e: nat, k: nat, d': seq<nat>,
                   b': nat)
    requires CoreInv(cfg, s) && Fits(cfg, s, d, b) && Covers(s.groups, ReadPoint(cfg, s), f, k, 0) && k !in d
    requires f < e && R.AllHeld(s.view.win, f, e) && (e >= |s.view.win| || !s.view.win[e].Has())
    requires forall i :: f <= i < e ==> !s.view.win[i].pkt.value.pos.EndsMessage()
    requires t.groups == s.groups && t.view.base == s.view.base && |t.view.win| == |s.view.win|
    requires t.view.win[f].state.Read? && (e < |s.view.win| ==> t.view.win[e] == s.view.win[e])
    ensures !Fits(cfg, t, d', b')
  {
    hide Lo, CoreInv;
    var g := |s.groups[k]|;
    FramesOfMessage(cfg, s, k);
    LoNext(s.groups, k);
    if f + g <= e {
      assert Covers(s.groups, ReadPoint(cfg, s), f + g - 1, k, g - 1);
      SlotFrame(cfg, s, f + g - 1, k, g - 1);
    } else {
      NotBefore(s.groups, b, ReadPoint(cfg, s) + f, k, 0);
      assert Covers(s.groups, ReadPoint(cfg, s), e, k, e - f);
      assert Covers(t.groups, ReadPoint(cfg, t), e, k, e - f);
      assert Covers(t.groups, ReadPoint(cfg, t), f, k, 0);
      if Fits(cfg, t, d', b') {
        NotBefore(t.groups, b', ReadPoint(cfg, t) + f, k, 0);
      }
    }
  }

  // ---- delivering ----

  /** Every read of the delivery loop that asks the cache finds it serving. */
  ghost predicate AllServe(b: Mailbox)
    requires b.cap > 0
    decreases R.CountAvailable(b.view.win)
  {
    && Serves(b)
    && (ReadBox(b).pkts.Some? ==> (ReadLowers(b); AllServe(ReadBox(b).box)))
  }

  /** One read. */
  lemma ReadKeeps(cfg: A.Config, s: A.Sys, cache: int, d: seq<nat>, b: nat) returns (d': seq<nat>, b': nat)
    requires cfg.recvCap > 0 && CoreInv(cfg, s) && MsgInv(cfg, s, d, b) && Serves(Mailbox(s.view, cache, cfg.recvCap))
    ensures var r := ReadBox(Mailbox(s.view, cache, cfg.recvCap));
            var t := s.(view := r.box.view, events := Emitted(s.events, r.pkts));
            CoreInv(cfg, t) && MsgInv(cfg, t, d', b')
  {
    hide CoreInv, MsgInv, ServesAt, Cached, Rescan, R.ReadCached, R.ReadInOrder;
    var c := Cached(s.view, cache, cfg.recvCap);
    if R.ReadyHead(s.view) {
      d', b' := InOrderKeeps(cfg, s, d, b);
    } else if c.None? {
      d', b' := d, b;
      assert s.(view := s.view, events := s.events) == s;
    } else {
      d', b' := CachedKeeps(cfg, s, d, b, c.value);
    }
  }

  lemma {:induction false} DeliverKeeps(cfg: A.Config, s: A.Sys, cache: int, d: seq<nat>, b: nat)
    returns (d': seq<nat>, b': nat)
    requires cfg.recvCap > 0 && CoreInv(cfg, s) && MsgInv(cfg, s, d, b) && AllServe(Mailbox(s.view, cache, cfg.recvCap))
    ensures var r := DeliverBox(Mailbox(s.view, cache, cfg.recvCap));
            var t := s.(view := r.box.view, events := s.events + r.events);
            CoreInv(cfg, t) && MsgInv(cfg, t, d', b')
    decreases R.CountAvailable(s.view.win)
  {
    hide CoreInv, MsgInv, Serves, ReadBox, DeliverBox, R.CountAvailable;
    var box := Mailbox(s.view, cache, cfg.recvCap);
    DeliverTurn(box);
    d', b' := ReadKeeps(cfg, s, cache, d, b);
    var r := ReadBox(box);
    if r.pkts.Some? {
      var t := s.(view := r.box.view, events := Emitted(s.events, r.pkts));
      d', b' := DeliverKeeps(cfg, t, r.box.cache, d', b');
      var rest := DeliverBox(r.box).events;
      assert s.events + ([EventOf(r.pkts.value)] + rest) == t.events + rest;
    } else {
      assert s.events + [] == s.events;
    }
  }

  // ---- arrivals ----

  lemma StoreFits(cfg: A.Config, s: A.Sys, d: seq<nat>, b: nat, i: nat, p: Packet, now: int)
    requires MsgInv(cfg, s, d, b) && R.Slot(s.view, i).state.Empty?
    ensures MsgInv(cfg, s.(view := R.InsertAt(s.view, i, p, now)), d, b)
  {
    hide R.InsertAt, Lo, At, Whole;
    var t := s.(view := R.InsertAt(s.view, i, p, now));
    Inserted(s.view, i, p, now);
    SameWhole(s, t, d);
    var n := ReadPoint(cfg, s);
    forall x, k: nat, j: nat | 0 <= x < |t.view.win| && Covers(t.groups, n, x, k, j)
      ensures t.view.win[x].state.Read? <==> k in d
    {
      assert Covers(s.groups, n, x, k, j);
      if x >= |s.view.win| && k in d {
        BeyondWindow(s.groups, b, n, x, k, j);
      }
    }
  }

  /** A frame at or past the start of message b ends no later than its message. */
  lemma BeyondWindow(groups: seq<seq<Frame>>, b: nat, n: int, x: nat, k: nat, j: nat)
    requires b <= |groups| && n == Lo(groups, b) && Covers(groups, n, x, k, j)
    ensures b <= k < |groups| && n + x < Lo(groups, k + 1)
  {
    hide Lo;
    NotBefore(groups, b, n + x, k, j);
    LoNext(groups, k);
  }

  lemma PlacedSame(cfg: A.Config, s: A.Sys, seqNo: Num)
    ensures R.Placed(Bytewise(cfg, s).view, seqNo, cfg.recvCap) == R.Placed(s.view, seqNo, cfg.recvCap)
  {
    hide Wrap, Distance, Payloads, Filled;
    FilledGaps(cfg, s);
  }

  lemma ArrivalPlace(cfg: A.Config, s: A.Sys, m: A.Msg, now: int)
    requires cfg.Valid() && CoreInv(cfg, s) && m.Data? && m in s.net && A.Fresh(m.tag, s.view.base)
    ensures var at := R.Placed(s.view, m.p.seqNo, cfg.recvCap); at.Some? ==> s.view.base + at.value == m.tag
  {
    hide A.Inv, R.Placed, Filled, Payloads;
    PlacedSame(cfg, s, m.p.seqNo);
    A.PlacedExact(Plain(cfg), Bytewise(cfg, s), m, now);
  }

  // ---- steps ----

  /** Every arrival is stored and read as in message mode; the other steps are those of Arq. */
  ghost function Do(cfg: A.Config, s: Sys, step: A.Step): Sys
    requires cfg.Valid() && A.Enabled(Plain(cfg), s.core, step)
  {
    if step.GetData? then
      var r := ReceiveBox(Box(cfg, s), step.m.p, step.now, true);
      Sys(s.core.(view := r.box.view, events := s.core.events + r.events), r.box.cache)
    else
      s.(core := A.Do(Plain(cfg), s.core, step))
  }

  /** The delivery that an arrival sets off only asks the cache where it serves. */
  ghost predicate StepServes(cfg: A.Config, s: Sys, step: A.Step)
    requires cfg.Valid()
  {
    step.GetData? && step.m.Data? ==> AllServe(InsertBox(Box(cfg, s), step.m.p, step.now))
  }

  /** Storing the packet, before anything is read. */
  lemma StoredKeeps(cfg: A.Config, s: Sys, m: A.Msg, now: int, d: seq<nat>, b: nat)
    requires cfg.Valid() && CoreInv(cfg, s.core) && MsgInv(cfg, s.core, d, b)
             && A.Enabled(Plain(cfg), s.core, A.GetData(m, now))
    ensures var t := s.core.(view := InsertBox(Box(cfg, s), m.p, now).view); CoreInv(cfg, t) && MsgInv(cfg, t, d, b)
  {
    hide CoreInv, MsgInv, R.Placed, R.InsertAt, R.Completed;
    ArrivalPlace(cfg, s.core, m, now);
    var at := R.Placed(s.core.view, m.p.seqNo, cfg.recvCap);
    if at.None? {
      assert s.core.(view := s.core.view) == s.core;
    } else {
      PlacedInside(s.core.view, m.p.seqNo, cfg.recvCap);
      StoreCore(cfg, s.core, m, at.value, now);
      StoreFits(cfg, s.core, d, b, at.value, m.p, now);
    }
  }

  lemma DataKeeps(cfg: A.Config, s: Sys, m: A.Msg, now: int, d: seq<nat>, b: nat) returns (d': seq<nat>, b': nat)
    requires cfg.Valid() && CoreInv(cfg, s.core) && MsgInv(cfg, s.core, d, b)
    requires A.Enabled(Plain(cfg), s.core, A.GetData(m, now)) && StepServes(cfg, s, A.GetData(m, now))
    ensures var t := Do(cfg, s, A.GetData(m, now)).core; CoreInv(cfg, t) && MsgInv(cfg, t, d', b')
  {
    hide CoreInv, MsgInv, AllServe, DeliverBox, R.Placed, R.InsertAt, R.Completed;
    if R.Placed(s.core.view, m.p.seqNo, cfg.recvCap).None? {
      d', b' := d, b;
      assert s.core.events + [] == s.core.events;
    } else {
      StoredKeeps(cfg, s, m, now, d, b);
      var box := InsertBox(Box(cfg, s), m.p, now);
      d', b' := DeliverKeeps(cfg, s.core.(view := box.view), box.cache, d, b);
    }
  }

  lemma PlacedInside(v: R.RecvView, seqNo: Num, cap: nat)
    ensures var at := R.Placed(v, seqNo, cap); at.Some? ==> at.value < cap - 1 && R.Slot(v, at.value).state.Empty?
  {
    hide Wrap, Distance;
  }

  /** The other steps leave the receiver alone and only add to the history. */
  lemma OnlyAdds(cfg: A.Config, s: A.Sys, step: A.Step)
    requires A.Enabled(cfg, s, step) && !step.GetData?
    ensures var t := A.Do(cfg, s, step);
            && t.view == s.view && t.events == s.events && s.log <= t.log && s.groups <= t.groups
            && s.writes <= t.writes
            && |t.groups| - |s.groups| == |t.writes| - |s.writes|
  {
    hide Wrap, Pump, HandleAck, FramesOf, A.Resent, A.Tagged, R.AckPoint;
  }

  /** They do not depend on what the receiver holds, its gaps aside. */
  lemma Commutes(cfg: A.Config, s: A.Sys, v: R.RecvView, es: seq<Event>, step: A.Step)
    requires A.Enabled(cfg, s, step) && !step.GetData? && R.AckPoint(v) == R.AckPoint(s.view)
    ensures A.Enabled(cfg, s.(view := v, events := es), step)
    ensures A.Do(cfg, s.(view := v, events := es), step) == A.Do(cfg, s, step).(view := v, events := es)
  {
    hide Wrap, Pump, HandleAck, FramesOf, A.Resent, A.Tagged, R.AckPoint;
  }

  lemma OtherCore(cfg: A.Config, s: A.Sys, step: A.Step)
    requires cfg.Valid() && CoreInv(cfg, s) && A.Enabled(Plain(cfg), s, step) && !step.GetData?
    ensures CoreInv(cfg, A.Do(Plain(cfg), s, step))
  {
    hide A.Inv, A.Do, A.Enabled, Payloads, R.AckPoint;
    Bounds(cfg, s);
    var p, t := Bytewise(cfg, s), A.Do(Plain(cfg), s, step);
    FilledGaps(cfg, s);
    SameAck(s.view, p.view);
    Commutes(Plain(cfg), s, p.view, p.events, step);
    OnlyAdds(Plain(cfg), s, step);
    A.StepKeeps(Plain(cfg), p, step);
    var n := s.view.base - cfg.isn;
    assert t.log[..n] == s.log[..n];
    assert Filled(cfg, t).win == Filled(cfg, s).win;
    assert Bytewise(cfg, t) == t.(view := p.view, events := p.events);
  }

  lemma OtherFits(cfg: A.Config, s: A.Sys, t: A.Sys, d: seq<nat>, b: nat)
    requires CoreInv(cfg, s) && MsgInv(cfg, s, d, b)
    requires t.view == s.view && t.events == s.events && s.groups <= t.groups && s.writes <= t.writes
    requires |t.groups| - |s.groups| == |t.writes| - |s.writes|
    ensures MsgInv(cfg, t, d, b)
  {
    hide CoreInv, Lo, At;
    Bounds(cfg, s);
    LoGrows(s.groups, t.groups);
    var n := ReadPoint(cfg, s);
    forall i, k: nat, j: nat | 0 <= i < |t.view.win| && Covers(t.groups, n, i, k, j)
      ensures t.view.win[i].state.Read? <==> k in d
    {
      var k0, j0 := SlotPlace(cfg, s, i);
      AtGrows(s.groups, t.groups, n + i, k0, j0);
      AtUnique(t.groups, n + i, k0, j0, k, j);
    }
  }

  lemma LoGrows(groups: seq<seq<Frame>>, more: seq<seq<Frame>>)
    requires groups <= more
    ensures forall k :: 0 <= k <= |groups| ==> Lo(more, k) == Lo(groups, k)
  {
    forall k | 0 <= k <= |groups|
      ensures Lo(more, k) == Lo(groups, k)
    {
      assert more[..k] == groups[..k];
    }
  }

  lemma AtGrows(groups: seq<seq<Frame>>, more: seq<seq<Frame>>, x: int, k: nat, j: nat)
    requires groups <= more && At(groups, x, k, j)
    ensures At(more, x, k, j)
  {
    hide Lo;
    LoGrows(groups, more);
  }

  lemma StepKeeps(cfg: A.Config, s: Sys, step: A.Step, d: seq<nat>, b: nat) returns (d': seq<nat>, b': nat)
    requires cfg.Valid() && CoreInv(cfg, s.core) && MsgInv(cfg, s.core, d, b)
    requires A.Enabled(Plain(cfg), s.core, step) && StepServes(cfg, s, step)
    ensures var t := Do(cfg, s, step).core; CoreInv(cfg, t) && MsgInv(cfg, t, d', b')
  {
    hide CoreInv, MsgInv, StepServes, A.Do;
    match step
    case GetData(m, now) =>
      d', b' := DataKeeps(cfg, s, m, now, d, b);
    case _ =>
      d', b' := d, b;
      OtherCore(cfg, s.core, step);
      OnlyAdds(Plain(cfg), s.core, step);
      OtherFits(cfg, s.core, A.Do(Plain(cfg), s.core, step), d, b);
  }

  // ---- runs ----

  function Init(cfg: A.Config): Sys {
    Sys(A.Init(cfg), -1)
  }

  ghost predicate IsRun(cfg: A.Config, states: seq<Sys>, steps: seq<A.Step>)
    requires cfg.Valid()
  {
    && |states| == |steps| + 1 && states[0] == Init(cfg)
    && forall i :: 0 <= i < |steps| ==>
         A.Enabled(Plain(cfg), states[i].core, steps[i]) && states[i + 1] == Do(cfg, states[i], steps[i])
  }

  lemma InitKeeps(cfg: A.Config)
    requires cfg.Valid()
    ensures CoreInv(cfg, Init(cfg).core) && MsgInv(cfg, Init(cfg).core, [], 0)
  {
    hide A.Inv, A.EventInv;
    var s := A.Init(cfg);
    var t := Bytewise(cfg, s);
    A.InitInv(Plain(cfg));
    assert Filled(cfg, s).win == [];
    assert R.DropHead(s.view, 0) == s.view == t.view;
    OneEvent(Plain(cfg), t, 0);
    A.ReadKeeps(Plain(cfg), s, 0, t.events);
  }

  lemma {:induction false} RunKeeps(cfg: A.Config, states: seq<Sys>, steps: seq<A.Step>, n: nat)
    returns (d: seq<nat>, b: nat)
    requires cfg.Valid() && IsRun(cfg, states, steps) && n < |states|
    requires forall i :: 0 <= i < n ==> StepServes(cfg, states[i], steps[i])
    ensures CoreInv(cfg, states[n].core) && MsgInv(cfg, states[n].core, d, b)
  {
    hide CoreInv, MsgInv, StepServes, Do, A.Enabled;
    if n == 0 {
      InitKeeps(cfg);
      d, b := [], 0;
    } else {
      d, b := RunKeeps(cfg, states, steps, n - 1);
      d, b := StepKeeps(cfg, states[n - 1], steps[n - 1], d, b);
    }
  }

  /**
   * Message mode with any mix of ordered and unordered messages: in every run whose deliveries ask the
   * cache only where it serves, every event is one written message, whole, and no message is delivered
   * twice.
   */
  lemma MessagesWhole(cfg: A.Config, states: seq<Sys>, steps: seq<A.Step>, n: nat)
    requires cfg.Valid() && IsRun(cfg, states, steps) && n < |states|
    requires forall i :: 0 <= i < n ==> StepServes(cfg, states[i], steps[i])
    ensures exists d: seq<nat> :: Whole(states[n].core, d)
  {
    hide IsRun, CoreInv, Fits, StepServes;
    var d, b := RunKeeps(cfg, states, steps, n);
    assert Whole(states[n].core, d);
  }

  // ---- no complete message waits at the head ----

  ghost predicate Settled(v: R.RecvView) {
    R.ReadyHead(v) ==> R.ReadInOrder(v).pkts.None?
  }

  /** A read that returns nothing leaves no complete message at the head. */
  lemma ReadSettles(cfg: A.Config, s: A.Sys, cache: int, d: seq<nat>, b: nat)
    requires cfg.recvCap > 0 && CoreInv(cfg, s) && MsgInv(cfg, s, d, b)
    ensures var r := ReadBox(Mailbox(s.view, cache, cfg.recvCap)); r.pkts.None? ==> Settled(r.box.view)
  {
    hide CoreInv, At, Lo, R.ReadInOrder, R.ReleaseFillers, Cached, Rescan, R.Walk;
    var c := Cached(s.view, cache, cfg.recvCap);
    if R.ReadyHead(s.view) {
      HeadMessage(cfg, s, d, b);
      FramesOfMessage(cfg, s, b);
      var fs := s.groups[b];
      forall i | 0 <= i < |fs| && i < |s.view.win| && s.view.win[i].Has()
        ensures A.FrameOf(s.view.win[i].pkt.value, fs[i])
      {
        SlotFrame(cfg, s, i, b, i);
      }
      ReadWhole(s.view, fs, s.writes[b]);
    } else if c.Some? {
      R.WalkExact(s.view.win, c.value);
    }
  }

  lemma {:induction false} DeliverSettles(cfg: A.Config, s: A.Sys, cache: int, d: seq<nat>, b: nat)
    requires cfg.recvCap > 0 && CoreInv(cfg, s) && MsgInv(cfg, s, d, b) && AllServe(Mailbox(s.view, cache, cfg.recvCap))
    ensures Settled(DeliverBox(Mailbox(s.view, cache, cfg.recvCap)).box.view)
    decreases R.CountAvailable(s.view.win)
  {
    hide CoreInv, MsgInv, Serves, ReadBox, DeliverBox, R.CountAvailable, Settled;
    var box := Mailbox(s.view, cache, cfg.recvCap);
    DeliverTurn(box);
    ReadSettles(cfg, s, cache, d, b);
    var r := ReadBox(box);
    if r.pkts.Some? {
      var d', b' := ReadKeeps(cfg, s, cache, d, b);
      DeliverSettles(cfg, s.(view := r.box.view, events := Emitted(s.events, r.pkts)), r.box.cache, d', b');
    }
  }

  lemma StepSettles(cfg: A.Config, s: Sys, step: A.Step, d: seq<nat>, b: nat)
    requires cfg.Valid() && CoreInv(cfg, s.core) && MsgInv(cfg, s.core, d, b) && Settled(s.core.view)
    requires A.Enabled(Plain(cfg), s.core, step) && StepServes(cfg, s, step)
    ensures Settled(Do(cfg, s, step).core.view)
  {
    hide CoreInv, MsgInv, AllServe, DeliverBox, R.Placed, R.InsertAt, R.Completed, Settled, A.Do;
    if !step.GetData? {
      OnlyAdds(Plain(cfg), s.core, step);
    } else if R.Placed(s.core.view, step.m.p.seqNo, cfg.recvCap).Some? {
      StoredKeeps(cfg, s, step.m, step.now, d, b);
      var box := InsertBox(Box(cfg, s), step.m.p, step.now);
      DeliverSettles(cfg, s.core.(view := box.view), box.cache, d, b);
    }
  }

  lemma {:induction false} RunSettled(cfg: A.Config, states: seq<Sys>, steps: seq<A.Step>, n: nat)
    requires cfg.Valid() && IsRun(cfg, states, steps) && n < |states|
    requires forall i :: 0 <= i < n ==> StepServes(cfg, states[i], steps[i])
    ensures Settled(states[n].core.view)
  {
    hide CoreInv, MsgInv, StepServes, Do, A.Enabled;
    if n > 0 {
      RunSettled(cfg, states, steps, n - 1);
      var d, b := RunKeeps(cfg, states, steps, n - 1);
      StepSettles(cfg, states[n - 1], steps[n - 1], d, b);
    }
  }

  /** Everything before message b is delivered; b, if there is one, is not, and the receiver lacks a packet of it. */
  ghost predicate WaitsFor(cfg: A.Config, s: A.Sys, d: seq<nat>, b: nat) {
    && b <= |s.groups| && (forall k :: 0 <= k < b ==> k in d)
    && (b < |s.groups| ==> b !in d && exists j: nat :: A.LacksFrame(cfg, s, b, j))
  }

  /**
   * No complete message waits at the read point: in such runs the first message that is not delivered
   * lacks a packet.
   */
  lemma NothingHeldBack(cfg: A.Config, states: seq<Sys>, steps: seq<A.Step>, n: nat)
    requires cfg.Valid() && IsRun(cfg, states, steps) && n < |states|
    requires forall i :: 0 <= i < n ==> StepServes(cfg, states[i], steps[i])
    ensures exists d: seq<nat>, b: nat :: Whole(states[n].core, d) && WaitsFor(cfg, states[n].core, d, b)
  {
    hide IsRun, CoreInv, MsgInv, StepServes, Settled, Whole, WaitsFor;
    var d, b := RunKeeps(cfg, states, steps, n);
    RunSettled(cfg, states, steps, n);
    HeadWaits(cfg, states[n].core, d, b);
    MsgParts(cfg, states[n].core, d, b);
    assert Whole(states[n].core, d) && WaitsFor(cfg, states[n].core, d, b);
  }

  lemma MsgParts(cfg: A.Config, s: A.Sys, d: seq<nat>, b: nat)
    requires MsgInv(cfg, s, d, b)
    ensures Whole(s, d)
  {
  }

  lemma HeadWaits(cfg: A.Config, s: A.Sys, d: seq<nat>, b: nat)
    requires CoreInv(cfg, s) && MsgInv(cfg, s, d, b) && Settled(s.view)
    ensures WaitsFor(cfg, s, d, b)
  {
    hide CoreInv, Lo, R.ReadInOrder, Whole;
    if b < |s.groups| {
      FramesOfMessage(cfg, s, b);
      LoNext(s.groups, b);
      if |s.view.win| == 0 {
        Missing(cfg, s, d, b, 0);
      } else {
        HeadMessage(cfg, s, d, b);
        assert Covers(s.groups, ReadPoint(cfg, s), 0, b, 0);
        var fs := s.groups[b];
        forall i | 0 <= i < |fs| && i < |s.view.win| && s.view.win[i].Has()
          ensures A.FrameOf(s.view.win[i].pkt.value, fs[i])
        {
          SlotFrame(cfg, s, i, b, i);
        }
        if R.ReadyHead(s.view) {
          ReadWhole(s.view, fs, s.writes[b]);
        }
        var j := A.FirstGap(s.view.win, |fs|);
        assert Covers(s.groups, ReadPoint(cfg, s), j, b, j);
        Missing(cfg, s, d, b, j);
      }
    }
  }

  lemma Missing(cfg: A.Config, s: A.Sys, d: seq<nat>, b: nat, j: nat)
    requires CoreInv(cfg, s) && Fits(cfg, s, d, b) && b < |s.groups| && j < |s.groups[b]| && b !in d
    requires Covers(s.groups, ReadPoint(cfg, s), j, b, j) && (j >= |s.view.win| || !s.view.win[j].Has())
    ensures A.LacksFrame(cfg, s, b, j)
  {
    hide CoreInv, A.Flatten;
    CoreParts(cfg, s);
  }

  // ---- messages of one packet ----

  /** Every write of the run fits one packet. */
  predicate Short(cfg: A.Config, step: A.Step) {
    step.DoWrite? ==> cfg.payloadSize <= 0 || |step.w.payload| <= cfg.payloadSize
  }

  ghost predicate Unfragmented(groups: seq<seq<Frame>>) {
    forall k :: 0 <= k < |groups| ==> |groups[k]| == 1
  }

  /** A held packet is then a whole message. */
  lemma SinglesServe(cfg: A.Config, s: A.Sys, cache: int)
    requires CoreInv(cfg, s) && Unfragmented(s.groups)
    ensures Serves(Mailbox(s.view, cache, cfg.recvCap))
  {
    hide CoreInv, Lo, Cached;
    var c := Cached(s.view, cache, cfg.recvCap);
    if c.Some? && c.value < |s.view.win| && s.view.win[c.value].Has() {
      var k, j := SlotPlace(cfg, s, c.value);
      FramesOfMessage(cfg, s, k);
      SlotFrame(cfg, s, c.value, k, j);
    }
  }

  lemma {:induction false} SinglesAllServe(cfg: A.Config, s: A.Sys, cache: int, d: seq<nat>, b: nat)
    requires cfg.recvCap > 0 && CoreInv(cfg, s) && MsgInv(cfg, s, d, b) && Unfragmented(s.groups)
    ensures AllServe(Mailbox(s.view, cache, cfg.recvCap))
    decreases R.CountAvailable(s.view.win)
  {
    hide CoreInv, MsgInv, Serves, ReadBox, R.CountAvailable, Unfragmented;
    var box := Mailbox(s.view, cache, cfg.recvCap);
    SinglesServe(cfg, s, cache);
    DeliverTurn(box);
    var d', b' := ReadKeeps(cfg, s, cache, d, b);
    var r := ReadBox(box);
    if r.pkts.Some? {
      SinglesAllServe(cfg, s.(view := r.box.view, events := Emitted(s.events, r.pkts)), r.box.cache, d', b');
      assert r.box == Mailbox(r.box.view, r.box.cache, cfg.recvCap);
    }
  }

  lemma NoGroups()
    ensures Unfragmented([])
  {
  }

  lemma ShortStep(cfg: A.Config, s: Sys, step: A.Step, d: seq<nat>, b: nat)
    requires cfg.Valid() && CoreInv(cfg, s.core) && MsgInv(cfg, s.core, d, b)
    requires A.Enabled(Plain(cfg), s.core, step) && Unfragmented(s.core.groups) && Short(cfg, step)
    ensures StepServes(cfg, s, step) && Unfragmented(Do(cfg, s, step).core.groups)
  {
    hide CoreInv, MsgInv, AllServe, InsertBox, Pump, HandleAck, A.Resent, A.Tagged, Wrap, R.AckPoint, ReceiveBox;
    if step.GetData? {
      StoredKeeps(cfg, s, step.m, step.now, d, b);
      var box := InsertBox(Box(cfg, s), step.m.p, step.now);
      InsertCap(Box(cfg, s), step.m.p, step.now);
      SinglesAllServe(cfg, s.core.(view := box.view), box.cache, d, b);
      assert box == Mailbox(box.view, box.cache, cfg.recvCap);
    }
  }

  lemma InsertCap(b: Mailbox, p: Packet, now: int)
    requires b.cap > 0
    ensures InsertBox(b, p, now).cap == b.cap
  {
    hide R.Placed, R.InsertAt, R.Completed;
  }

  lemma {:induction false} ShortRunServes(cfg: A.Config, states: seq<Sys>, steps: seq<A.Step>, n: nat)
    requires cfg.Valid() && IsRun(cfg, states, steps) && n < |states|
    requires forall i :: 0 <= i < |steps| ==> Short(cfg, steps[i])
    ensures Unfragmented(states[n].core.groups) && forall i :: 0 <= i < n ==> StepServes(cfg, states[i], steps[i])
  {
    hide CoreInv, MsgInv, StepServes, Do, A.Enabled, Short, Unfragmented;
    if n == 0 {
      NoGroups();
    } else {
      ShortRunServes(cfg, states, steps, n - 1);
      var d, b := RunKeeps(cfg, states, steps, n - 1);
      ShortStep(cfg, states[n - 1], steps[n - 1], d, b);
    }
  }

  /** While every write fits one packet the guarantee has no condition. */
  lemma ShortMessagesWhole(cfg: A.Config, states: seq<Sys>, steps: seq<A.Step>, n: nat)
    requires cfg.Valid() && IsRun(cfg, states, steps) && n < |states|
    requires forall i :: 0 <= i < |steps| ==> Short(cfg, steps[i])
    ensures exists d: seq<nat> :: Whole(states[n].core, d)
  {
    hide IsRun, StepServes, Whole, Short;
    ShortRunServes(cfg, states, steps, n);
    MessagesWhole(cfg, states, steps, n);
  }
}
