/**
 * One sender and one receiver over a channel that loses, duplicates and reorders
 * (internal/core/conn.go). Every step is one of the entry points of Conn.dfy, seen through the
 * value functions of DataPath. A packet may stay in the channel for less than 2^30 sequence numbers.
 */
module Arq {
  import opened SeqNum
  import opened Packets
  import opened SendWindow
  import opened DataPath
  import R = RecvWindow

  datatype Config = Config(isn: int, payloadSize: int, flowWindow: nat, recvCap: nat, messageMode: bool) {
    /** Ring sizes that leave the 31-bit order room for both windows. */
    ghost predicate Valid() {
      0 < flowWindow && 0 < recvCap && flowWindow + recvCap < HALF
    }
  }

  /** A datagram in flight. The tag is the unbounded number behind its wire number; no endpoint reads it. */
  datatype Msg =
    | Data(tag: int, p: Packet)
    | Ack(tag: int, ackSeq: Num, lite: bool, available: nat)
    | NakReport(losses: seq<Num>)

  /**
   * Both endpoints and the channel, with history: the writes, their frames, the packets sent so far and
   * when each was first sent.
   */
  datatype Sys = Sys(
    sender: Sender,
    view: R.RecvView,
    events: seq<Event>,
    net: set<Msg>,
    writes: seq<Write>,
    groups: seq<seq<Frame>>,
    log: seq<Packet>,
    sends: seq<Send>)

  datatype Step =
    | DoWrite(w: Write, now: int, wireTS: nat, ctl: nat -> Control)
    | DoPump(now: int, wireTS: nat, ctl: nat -> Control)
    | DoRetransmitAll
    | GetData(m: Msg, now: int)
    | GetAck(m: Msg, now: int, wireTS: nat, ctl: nat -> Control)
    | GetNak(m: Msg, now: int, timeNak: int)
    | GetFirstNak(m: Msg)
    | PutAck(lite: bool, available: nat)
    | PutNak(losses: seq<Num>)

  function Init(cfg: Config): Sys {
    Sys(Sender([], SendView(cfg.isn, []), 0, 0), R.RecvView(cfg.isn, []), [], {}, [], [], [], [])
  }

  /** Packets entering the channel with consecutive numbers from u on. */
  function Tagged(ps: seq<Packet>, u: int): set<Msg> {
    set i | 0 <= i < |ps| :: Data(u + i, ps[i])
  }

  function Resent(ps: seq<Packet>, v: SendView): set<Msg> {
    set p, i | p in ps && 0 <= i < |v.win| && v.win[i].pkt == Some(p.(retransmitted := false)) :: Data(v.base + i, p)
  }

  /** A write queued in its frames. */
  function Queued(s: Sys, w: Write, fs: seq<Frame>): Sys {
    s.(sender := s.sender.(queue := s.sender.queue + fs), writes := s.writes + [w], groups := s.groups + [fs])
  }

  function Pumping(cfg: Config, s: Sys, now: int, wireTS: nat, ctl: nat -> Control, n: nat): Sys {
    var r := Pump(s.sender, now, wireTS, cfg.flowWindow, ctl, n);
    s.(sender := r.sender, log := s.log + r.sent, net := s.net + Tagged(r.sent, s.sender.snd.Next()),
       sends := s.sends + r.sends)
  }

  /** A packet no older than the 31-bit order can tell. */
  predicate Fresh(tag: int, at: int) {
    at - tag < HALF
  }

  ghost predicate Enabled(cfg: Config, s: Sys, step: Step) {
    match step
    case DoWrite(w, _, _, _) => cfg.messageMode ==> w.order
    case GetData(m, _) => m.Data? && m in s.net && Fresh(m.tag, s.view.base)
    case GetAck(m, _, _, _) => m.Ack? && m in s.net && Fresh(m.tag, s.sender.snd.base)
    case GetNak(m, _, _) => m.NakReport? && m in s.net && s.sender.snd.AllUsed()
    case GetFirstNak(m) => m.NakReport? && m in s.net && s.sender.snd.AllUsed()
    case DoRetransmitAll => s.sender.snd.AllUsed()
    case _ => true
  }

  ghost function Do(cfg: Config, s: Sys, step: Step): Sys
    requires Enabled(cfg, s, step)
  {
    match step
    case DoWrite(w, now, wireTS, ctl) =>
      var fs := FramesOf(w, cfg.payloadSize, false, wireTS);
      Pumping(cfg, Queued(s, w, fs), now, wireTS, ctl, 0)
    case DoPump(now, wireTS, ctl) =>
      Pumping(cfg, s, now, wireTS, ctl, 0)
    case DoRetransmitAll =>
      s.(net := s.net + Resent(Unacked(s.sender.snd), s.sender.snd))
    case GetData(m, now) =>
      var r := Receive(s.view, m.p, now, cfg.recvCap, cfg.messageMode);
      s.(view := r.view, events := s.events + r.events)
    case GetAck(m, now, wireTS, ctl) =>
      Pumping(cfg, s.(sender := HandleAck(s.sender, m.ackSeq, m.lite, m.available)), now, wireTS, ctl, 0)
    case GetNak(m, now, timeNak) =>
      var r := NakTimed(s.sender.snd, m.losses, now, timeNak);
      s.(sender := s.sender.(snd := s.sender.snd.(win := r.win)), net := s.net + Resent(r.out, s.sender.snd))
    case GetFirstNak(m) =>
      s.(net := s.net + Resent(Nak(s.sender.snd, m.losses), s.sender.snd))
    case PutAck(lite, available) =>
      s.(net := s.net + {Ack(R.AckPoint(s.view), Wrap(R.AckPoint(s.view)), lite, available)})
    case PutNak(losses) =>
      s.(net := s.net + {NakReport(losses)})
  }

  // ---- the invariant ----

  function Flatten(groups: seq<seq<Frame>>): seq<Frame> {
    if groups == [] then [] else Flatten(groups[..|groups| - 1]) + groups[|groups| - 1]
  }

  /** p is the packet q that was sent, the retransmission bit aside. */
  predicate Same(p: Packet, q: Packet) {
    p.(retransmitted := false) == q
  }

  ghost predicate Matches(p: Packet, f: Frame, u: int) {
    && p.seqNo == Wrap(u) && !p.retransmitted
    && p.data == f.payload && p.pos == f.pos && p.msgNo == f.msgNo && p.order == f.order
    && (f.srcTime != 0 ==> p.timestamp == f.srcTime)
  }

  /** The log is the framed prefix of what was written; the queue is the rest. */
  ghost predicate LogInv(cfg: Config, s: Sys) {
    var frames := Flatten(s.groups);
    && |s.groups| == |s.writes|
    && (forall k :: 0 <= k < |s.groups| ==> MessageFrames(s.groups[k], s.writes[k]))
    && (forall k :: 0 <= k < |s.writes| ==> (cfg.messageMode ==> s.writes[k].order))
    && |s.log| <= |frames| && s.sender.queue == frames[|s.log|..]
    && (forall i :: 0 <= i < |s.log| ==> Matches(s.log[i], frames[i], cfg.isn + i))
  }

  /** The send buffer holds exactly the tail of the log from its base on. */
  ghost predicate SendInv(cfg: Config, s: Sys) {
    var v := s.sender.snd;
    && cfg.isn <= v.base && v.Next() == cfg.isn + |s.log| && |v.win| <= cfg.flowWindow
    && (forall i :: 0 <= i < |v.win| ==> v.win[i].pkt == Some(s.log[v.base - cfg.isn + i]))
  }

  ghost predicate NetInv(cfg: Config, s: Sys) {
    forall m :: m in s.net ==>
      match m
      case Data(tag, p) => 0 <= tag - cfg.isn < |s.log| && Same(p, s.log[tag - cfg.isn])
      case Ack(tag, ackSeq, _, _) => tag <= R.AckPoint(s.view) && ackSeq == Wrap(tag)
      case NakReport(_) => true
  }

  /** The receive buffer holds sent packets in their places, and the sender releases only what it holds. */
  ghost predicate RecvInv(cfg: Config, s: Sys) {
    var v := s.view;
    && cfg.isn <= v.base && v.Max() <= cfg.isn + |s.log| && |v.win| < cfg.recvCap
    && (forall i :: 0 <= i < |v.win| ==> v.win[i].state.Empty? || v.win[i].Has())
    && (forall i :: 0 <= i < |v.win| && v.win[i].Has() ==> Same(v.win[i].pkt.value, s.log[v.base - cfg.isn + i]))
    && s.sender.snd.base <= R.AckPoint(v)
  }

  function EventData(es: seq<Event>): Bytes {
    if es == [] then [] else EventData(es[..|es| - 1]) + es[|es| - 1].data
  }

  function Written(ws: seq<Write>): Bytes {
    if ws == [] then [] else Written(ws[..|ws| - 1]) + ws[|ws| - 1].payload
  }

  /** Event k reports write k: its payload and message number, its first packet's number and boundary. */
  ghost predicate Reports(isn: int, e: Event, writes: seq<Write>, groups: seq<seq<Frame>>, k: nat) {
    && k < |writes| && k < |groups|
    && e.data == writes[k].payload && e.msgNo == writes[k].msgNo && e.seqNo == Wrap(isn + |Flatten(groups[..k])|)
    && e.boundary == (if |groups[k]| == 1 then Single else First)
  }

  /** What went up is exactly what lies below the read point: packet by packet, or message by message. */
  ghost predicate EventInv(cfg: Config, s: Sys) {
    var n := s.view.base - cfg.isn;
    && 0 <= n <= |s.log|
    && (!cfg.messageMode ==> |s.events| == n && forall i :: 0 <= i < n ==> s.events[i] == EventOf([s.log[i]]))
    && (cfg.messageMode ==> |s.events| <= |s.groups| && n == |Flatten(s.groups[..|s.events|])|
                            && forall k :: 0 <= k < |s.events| ==> Reports(cfg.isn, s.events[k], s.writes, s.groups, k))
  }

  ghost predicate Inv(cfg: Config, s: Sys) {
    LogInv(cfg, s) && SendInv(cfg, s) && NetInv(cfg, s) && RecvInv(cfg, s) && EventInv(cfg, s)
  }

  // ---- framing lemmas ----

  lemma {:induction false} FlattenAt(groups: seq<seq<Frame>>, k: nat, i: nat)
    requires k < |groups| && i < |groups[k]|
    ensures |Flatten(groups[..k])| + i < |Flatten(groups)|
    ensures Flatten(groups)[|Flatten(groups[..k])| + i] == groups[k][i]
  {
    var init := groups[..|groups| - 1];
    if k < |groups| - 1 {
      FlattenAt(init, k, i);
      assert init[..k] == groups[..k];
    }
  }

  /** The group and the place in it of a frame. */
  lemma {:induction false} FlattenFind(groups: seq<seq<Frame>>, i: nat) returns (k: nat, j: nat)
    requires i < |Flatten(groups)|
    ensures k < |groups| && j < |groups[k]| && |Flatten(groups[..k])| + j == i && Flatten(groups)[i] == groups[k][j]
  {
    var n := |groups| - 1;
    var init := groups[..n];
    if i < |Flatten(init)| {
      k, j := FlattenFind(init, i);
      assert init[..k] == groups[..k];
    } else {
      k, j := n, i - |Flatten(init)|;
    }
  }

  /** In message mode every packet in flight carries the order bit its write asked for. */
  lemma PacketsAreOrdered(cfg: Config, s: Sys, m: Msg)
    requires Inv(cfg, s) && cfg.messageMode && m.Data? && m in s.net
    ensures m.p.order
  {
    hide Flatten, Wrap, R.AckPoint, EventData, Payloads;
    var i := m.tag - cfg.isn;
    assert Same(m.p, s.log[i]) && Matches(s.log[i], Flatten(s.groups)[i], cfg.isn + i);
    var k, j := FlattenFind(s.groups, i);
    assert MessageFrames(s.groups[k], s.writes[k]);
  }

  /** A frame lies in the message it was cut from: past the end of k whole messages comes message k. */
  lemma {:induction false} NextMessageExists(groups: seq<seq<Frame>>, k: nat)
    requires k <= |groups| && |Flatten(groups[..k])| < |Flatten(groups)|
    ensures k < |groups|
  {
    assert groups[..|groups|] == groups;
  }

  lemma {:induction false} FramePayloadsSnoc(fs: seq<Frame>, n: nat)
    requires n < |fs|
    ensures FramePayloads(fs[..n + 1]) == FramePayloads(fs[..n]) + fs[n].payload
    decreases n
  {
    if n == 0 {
      assert fs[..1][1..] == [] && fs[..0] == [];
    } else {
      FramePayloadsSnoc(fs[1..], n - 1);
      assert fs[1..][..n] == fs[..n + 1][1..] && fs[1..][..n - 1] == fs[..n][1..];
    }
  }

  lemma {:induction false} FramePayloadsAppend(a: seq<Frame>, b: seq<Frame>)
    ensures FramePayloads(a + b) == FramePayloads(a) + FramePayloads(b)
  {
    if a == [] {
      assert a + b == b;
    } else {
      FramePayloadsAppend(a[1..], b);
      assert (a + b)[1..] == a[1..] + b && (a + b)[0] == a[0];
      assert FramePayloads(a + b) == a[0].payload + FramePayloads(a[1..] + b);
    }
  }

  /** The bytes of the frames are the bytes written. */
  lemma {:induction false} FlattenWritten(groups: seq<seq<Frame>>, ws: seq<Write>)
    requires |groups| == |ws| && forall k :: 0 <= k < |ws| ==> MessageFrames(groups[k], ws[k])
    ensures FramePayloads(Flatten(groups)) == Written(ws)
  {
    if groups != [] {
      var n := |ws| - 1;
      FlattenWritten(groups[..n], ws[..n]);
      FramePayloadsAppend(Flatten(groups[..n]), groups[n]);
    }
  }

  // ---- sending ----

  lemma SendOneKeeps(cfg: Config, s: Sys, now: int, wireTS: nat, c: Control)
    requires Inv(cfg, s) && CanSend(s.sender, now, cfg.flowWindow, c)
    ensures var p := BuildPacket(s.sender.queue[0], s.sender.snd.Next(), wireTS);
            Inv(cfg, s.(sender := SendOne(s.sender, now, wireTS, c), log := s.log + [p],
                        net := s.net + {Data(s.sender.snd.Next(), p)}, sends := s.sends + [Send(now, c.interval)]))
  {
    hide Wrap, R.AckPoint, EventData, Flatten, Payloads, MessageFrames;
    var p := BuildPacket(s.sender.queue[0], s.sender.snd.Next(), wireTS);
    var log := s.log + [p];
    var n := s.view.base - cfg.isn;
    assert log[..n] == s.log[..n];
  }

  lemma {:induction false} PumpKeeps(cfg: Config, s: Sys, now: int, wireTS: nat, ctl: nat -> Control, n: nat)
    requires Inv(cfg, s)
    ensures Inv(cfg, Pumping(cfg, s, now, wireTS, ctl, n))
    decreases |s.sender.queue|
  {
    hide Inv, Wrap, Pump;
    PumpTurn(s.sender, now, wireTS, cfg.flowWindow, ctl, n);
    var u := s.sender.snd.Next();
    if CanSend(s.sender, now, cfg.flowWindow, ctl(n)) {
      var p := BuildPacket(s.sender.queue[0], u, wireTS);
      var s' := s.(sender := SendOne(s.sender, now, wireTS, ctl(n)), log := s.log + [p], net := s.net + {Data(u, p)},
                   sends := s.sends + [Send(now, ctl(n).interval)]);
      SendOneKeeps(cfg, s, now, wireTS, ctl(n));
      PumpKeeps(cfg, s', now, wireTS, ctl, n + 1);
      var rest := Pump(s'.sender, now, wireTS, cfg.flowWindow, ctl, n + 1);
      var sent := rest.sent;
      assert s.sends + ([Send(now, ctl(n).interval)] + rest.sends) == s'.sends + rest.sends;
      TaggedCons(p, sent, u);
      assert s.log + ([p] + sent) == s'.log + sent;
      assert s.net + Tagged([p] + sent, u) == s'.net + Tagged(sent, u + 1);
      assert Pumping(cfg, s, now, wireTS, ctl, n) == Pumping(cfg, s', now, wireTS, ctl, n + 1);
    } else {
      assert s.log + [] == s.log && s.sends + [] == s.sends && s.net + Tagged([], u) == s.net;
      assert Pumping(cfg, s, now, wireTS, ctl, n) == s;
    }
  }

  lemma TaggedCons(p: Packet, ps: seq<Packet>, u: int)
    ensures Tagged([p] + ps, u) == {Data(u, p)} + Tagged(ps, u + 1)
  {
    forall m | m in {Data(u, p)} + Tagged(ps, u + 1)
      ensures m in Tagged([p] + ps, u)
    {
      if m == Data(u, p) {
        assert m == Data(u + 0, ([p] + ps)[0]);
      } else {
        var i :| 0 <= i < |ps| && m == Data(u + 1 + i, ps[i]);
        assert m == Data(u + (i + 1), ([p] + ps)[i + 1]);
      }
    }
    forall m | m in Tagged([p] + ps, u)
      ensures m in {Data(u, p)} + Tagged(ps, u + 1)
    {
      var i :| 0 <= i < |[p] + ps| && m == Data(u + i, ([p] + ps)[i]);
      if i > 0 {
        assert m == Data(u + 1 + (i - 1), ps[i - 1]);
      }
    }
  }

  lemma WriteKeeps(cfg: Config, s: Sys, w: Write, wireTS: nat)
    requires Inv(cfg, s) && (cfg.messageMode ==> w.order)
    ensures var fs := FramesOf(w, cfg.payloadSize, false, wireTS);
            Inv(cfg, Queued(s, w, fs))
  {
    hide Wrap, R.AckPoint, EventData, FramesOf, Payloads, Matches, MessageFrames, Flatten, Reports;
    var fs := FramesOf(w, cfg.payloadSize, false, wireTS);
    FramesExact(w, cfg.payloadSize, false, wireTS);
    FlattenSnoc(s.groups, fs);
    if cfg.messageMode {
      assert (s.groups + [fs])[..|s.events|] == s.groups[..|s.events|];
      forall k | 0 <= k < |s.events|
        ensures Reports(cfg.isn, s.events[k], s.writes + [w], s.groups + [fs], k)
      {
        ReportsGrow(cfg.isn, s.events[k], s.writes, s.groups, k, w, fs);
      }
    }
  }

  lemma {:induction false} FlattenSnoc(groups: seq<seq<Frame>>, fs: seq<Frame>)
    ensures Flatten(groups + [fs]) == Flatten(groups) + fs
  {
    assert (groups + [fs])[..|groups|] == groups;
  }

  lemma ReportsGrow(isn: int, e: Event, writes: seq<Write>, groups: seq<seq<Frame>>, k: nat, w: Write, fs: seq<Frame>)
    requires Reports(isn, e, writes, groups, k)
    ensures Reports(isn, e, writes + [w], groups + [fs], k)
  {
    hide Wrap, Flatten;
    assert (groups + [fs])[..k] == groups[..k];
  }

  lemma AckKeeps(cfg: Config, s: Sys, m: Msg)
    requires cfg.Valid() && Inv(cfg, s) && m.Ack? && m in s.net && Fresh(m.tag, s.sender.snd.base)
    ensures Inv(cfg, s.(sender := HandleAck(s.sender, m.ackSeq, m.lite, m.available)))
  {
    hide Wrap, Distance, EventData, Flatten, Payloads, Matches, MessageFrames, Released;
    AckReleasesBelow(s.sender.snd, m.tag);
  }

  /** Retransmissions put back into the channel only what is in the log. */
  lemma ResendKeeps(cfg: Config, s: Sys, ps: seq<Packet>)
    requires Inv(cfg, s)
    ensures Inv(cfg, s.(net := s.net + Resent(ps, s.sender.snd)))
  {
    hide Wrap, R.AckPoint, EventData, Flatten, Payloads, Matches, MessageFrames;
  }

  lemma {:induction false} NakKeeps(cfg: Config, s: Sys, losses: seq<Num>, now: int, timeNak: int)
    requires Inv(cfg, s) && s.sender.snd.AllUsed()
    ensures var r := NakTimed(s.sender.snd, losses, now, timeNak);
            Inv(cfg, s.(sender := s.sender.(snd := s.sender.snd.(win := r.win))))
  {
    hide Wrap, R.AckPoint, EventData, Flatten, Payloads, Matches, MessageFrames, NakTimed;
    NakTimedKeepsPackets(s.sender.snd, losses, now, timeNak);
  }

  lemma {:induction false} NakTimedKeepsPackets(v: SendView, losses: seq<Num>, now: int, timeNak: int)
    requires v.AllUsed()
    ensures forall i :: 0 <= i < |v.win| ==> NakTimed(v, losses, now, timeNak).win[i].pkt == v.win[i].pkt
  {
    if losses != [] {
      NakTimedKeepsPackets(v, losses[..|losses| - 1], now, timeNak);
    }
  }

  // ---- receiving ----

  /** A packet that is accepted goes to its own place. */
  lemma PlacedExact(cfg: Config, s: Sys, m: Msg, now: int)
    requires cfg.Valid() && Inv(cfg, s) && m.Data? && m in s.net && Fresh(m.tag, s.view.base)
    ensures var at := R.Placed(s.view, m.p.seqNo, cfg.recvCap);
            at.Some? ==> s.view.base + at.value == m.tag
  {
    var i := m.tag - cfg.isn;
    assert Same(m.p, s.log[i]) && Matches(s.log[i], Flatten(s.groups)[i], cfg.isn + i);
    assert m.tag < s.sender.snd.Next() <= s.sender.snd.base + cfg.flowWindow;
    WireOrderIsTrueOrder(s.view.base, m.tag);
  }

  /** Storing an accepted packet keeps everything and never moves the acknowledgement point back. */
  lemma StoreKeeps(cfg: Config, s: Sys, m: Msg, i: nat, now: int)
    requires Inv(cfg, s) && m.Data? && m in s.net
    requires i < cfg.recvCap - 1 && s.view.base + i == m.tag
    ensures Inv(cfg, s.(view := R.InsertAt(s.view, i, m.p, now)))
  {
    hide Wrap, R.AckPoint, EventData, Flatten, Payloads, Matches, MessageFrames;
    R.InsertKeepsAck(s.view, i, m.p, now);
  }

  /** Reading n stored packets off the head, with one more event per what was read, keeps the buffer invariant. */
  lemma ReadKeeps(cfg: Config, s: Sys, n: nat, es: seq<Event>)
    requires Inv(cfg, s) && n <= |s.view.win| && forall i :: 0 <= i < n ==> s.view.win[i].Has()
    requires EventInv(cfg, s.(view := R.DropHead(s.view, n), events := es))
    ensures Inv(cfg, s.(view := R.DropHead(s.view, n), events := es))
  {
    hide Wrap, R.AckPoint, EventData, Flatten;
    DropKeepsAck(s.view, n);
  }

  lemma {:induction false} StreamKeeps(cfg: Config, s: Sys)
    requires Inv(cfg, s) && !cfg.messageMode
    ensures var d := DeliverStream(s.view);
            Inv(cfg, s.(view := d.view, events := s.events + d.events))
    decreases |s.view.win|
  {
    hide Wrap, R.AckPoint, Flatten, EventData, Payloads;
    if R.ReadyHead(s.view) {
      var p := s.view.win[0].pkt.value;
      var e := EventOf([p]);
      StreamEvent(cfg, s);
      ReadKeeps(cfg, s, 1, s.events + [e]);
      var s' := s.(view := R.DropHead(s.view, 1), events := s.events + [e]);
      StreamKeeps(cfg, s');
      var rest := DeliverStream(R.PopHead(s.view)).events;
      assert s.events + ([e] + rest) == s.events + [e] + rest;
    } else {
      assert s.events + [] == s.events;
    }
  }

  lemma StreamEvent(cfg: Config, s: Sys)
    requires Inv(cfg, s) && !cfg.messageMode && R.ReadyHead(s.view)
    ensures EventInv(cfg, s.(view := R.DropHead(s.view, 1), events := s.events + [EventOf([s.view.win[0].pkt.value])]))
  {
    hide Wrap, R.AckPoint, Flatten, Payloads;
    SameEvent(s.view.win[0].pkt.value, s.log[s.view.base - cfg.isn]);
  }

  lemma SameEvent(p: Packet, q: Packet)
    requires Same(p, q)
    ensures EventOf([p]) == EventOf([q]) && EventOf([p]).data == p.data
  {
    assert [p][..0] == [] && [q][..0] == [];
    assert Payloads([p]) == Payloads([p][..0]) + p.data && Payloads([q]) == Payloads([q][..0]) + q.data;
  }

  /** At a message boundary the in-order read yields exactly the next message written, or nothing. */
  lemma MessageRead(cfg: Config, s: Sys)
    requires Inv(cfg, s) && cfg.messageMode && R.ReadyHead(s.view)
    ensures |s.events| < |s.groups|
    ensures var fs := s.groups[|s.events|]; var r := R.ReadInOrder(s.view);
            || (r.pkts.None? && r.view == s.view)
            || (&& |fs| <= |s.view.win| && (forall i :: 0 <= i < |fs| ==> s.view.win[i].Has())
                && r.pkts == Some(R.PacketsOf(s.view.win, |fs|)) && r.view == R.DropHead(s.view, |fs|)
                && Payloads(r.pkts.value) == s.writes[|s.events|].payload
                && FrameOf(s.view.win[0].pkt.value, fs[0]))
    ensures var fs := s.groups[|s.events|];
            (|fs| <= |s.view.win| && forall i :: 0 <= i < |fs| ==> s.view.win[i].Has()) ==>
              R.ReadInOrder(s.view).pkts.Some?
  {
    hide Wrap, R.AckPoint, Flatten;
    var k := |s.events|;
    NextMessageExists(s.groups, k);
    var fs := s.groups[k];
    assert MessageFrames(fs, s.writes[k]);
    forall i | 0 <= i < |fs| && i < |s.view.win| && s.view.win[i].Has()
      ensures FrameOf(s.view.win[i].pkt.value, fs[i])
    {
      FlattenAt(s.groups, k, i);
      assert Same(s.view.win[i].pkt.value, s.log[s.view.base - cfg.isn + i]);
    }
    ReadWholeMessage(s.view, fs, s.writes[k]);
  }

  predicate FrameOf(p: Packet, f: Frame) {
    p.data == f.payload && p.pos == f.pos && p.msgNo == f.msgNo
  }

  /** The in-order read on a head that carries the frames of one message. */
  lemma ReadWholeMessage(v: R.RecvView, fs: seq<Frame>, w: Write)
    requires MessageFrames(fs, w) && R.ReadyHead(v)
    requires forall i :: 0 <= i < |v.win| ==> v.win[i].state.Empty? || v.win[i].Has()
    requires forall i :: 0 <= i < |fs| && i < |v.win| && v.win[i].Has() ==> FrameOf(v.win[i].pkt.value, fs[i])
    ensures var r := R.ReadInOrder(v);
            || (r.pkts.None? && r.view == v)
            || (&& |fs| <= |v.win| && (forall i :: 0 <= i < |fs| ==> v.win[i].Has())
                && r.pkts == Some(R.PacketsOf(v.win, |fs|)) && r.view == R.DropHead(v, |fs|)
                && Payloads(r.pkts.value) == w.payload)
    ensures (|fs| <= |v.win| && forall i :: 0 <= i < |fs| ==> v.win[i].Has()) <==> R.ReadInOrder(v).pkts.Some?
  {
    hide R.ReadInOrder, R.ReleaseFillers;
    R.ReadInOrderExact(v, |fs|);
    FramedHead(v.win, fs, w);
    if |fs| <= |v.win| && forall i :: 0 <= i < |fs| ==> v.win[i].Has() {
      PayloadsOfFrames(v.win, fs, |fs|);
      assert fs[..|fs|] == fs;
      HeadNotRead(R.DropHead(v, |fs|));
    }
  }

  lemma {:induction false} HeadNotRead(v: R.RecvView)
    requires |v.win| > 0 ==> !v.win[0].state.Read?
    ensures R.ReleaseFillers(v) == v
  {
  }

  /** A head that carries the frames of a message, as far as they are held, is that message or waits for it. */
  lemma FramedHead(win: seq<R.RecvEntry>, fs: seq<Frame>, w: Write)
    requires MessageFrames(fs, w) && |win| > 0 && win[0].Has()
    requires forall i :: 0 <= i < |fs| && i < |win| && win[i].Has() ==> FrameOf(win[i].pkt.value, fs[i])
    ensures forall n: nat :: R.HeadMessage(win, n) ==> n == |fs|
    ensures if |fs| <= |win| && forall i :: 0 <= i < |fs| ==> win[i].Has() then R.HeadMessage(win, |fs|)
            else R.HeadWaits(win)
  {
    assert FrameOf(win[0].pkt.value, fs[0]);
    forall n: nat | R.HeadMessage(win, n)
      ensures n == |fs|
    {
      var i := if n < |fs| then n - 1 else |fs| - 1;
      assert win[i].Has() && FrameOf(win[i].pkt.value, fs[i]);
    }
    if !(|fs| <= |win| && forall i :: 0 <= i < |fs| ==> win[i].Has()) {
      var j := FirstGap(win, |fs|);
      assert R.GapAt(win, 0, j, win[0].pkt.value.msgNo);
    }
  }

  lemma {:induction false} FirstGap(win: seq<R.RecvEntry>, n: nat) returns (j: nat)
    requires !(n <= |win| && forall i :: 0 <= i < n ==> win[i].Has())
    ensures j < n && j <= |win| && (forall i :: 0 <= i < j ==> win[i].Has()) && (j == |win| || !win[j].Has())
  {
    if n - 1 <= |win| && forall i :: 0 <= i < n - 1 ==> win[i].Has() {
      j := n - 1;
    } else {
      j := FirstGap(win, n - 1);
    }
  }

  lemma {:induction false} PayloadsOfFrames(win: seq<R.RecvEntry>, fs: seq<Frame>, n: nat)
    requires n <= |win| && n <= |fs| && forall i :: 0 <= i < n ==> win[i].Has()
    requires forall i :: 0 <= i < n ==> win[i].Has() && FrameOf(win[i].pkt.value, fs[i])
    ensures Payloads(R.PacketsOf(win, n)) == FramePayloads(fs[..n])
  {
    if n > 0 {
      PayloadsOfFrames(win, fs, n - 1);
      assert R.PacketsOf(win, n)[..n - 1] == R.PacketsOf(win, n - 1);
      FramePayloadsSnoc(fs, n - 1);
    }
  }

  lemma {:induction false} MessageEvent(cfg: Config, s: Sys, ps: seq<Packet>)
    requires Inv(cfg, s) && cfg.messageMode && |s.events| < |s.groups|
    requires |s.groups[|s.events|]| <= |s.view.win| && R.ReadyHead(s.view)
    requires |ps| > 0 && ps[0] == s.view.win[0].pkt.value
    requires Payloads(ps) == s.writes[|s.events|].payload && FrameOf(ps[0], s.groups[|s.events|][0])
    ensures EventInv(cfg, s.(view := R.DropHead(s.view, |s.groups[|s.events|]|), events := s.events + [EventOf(ps)]))
  {
    hide Wrap, R.AckPoint, Payloads;
    var k := |s.events|;
    var t := s.(view := R.DropHead(s.view, |s.groups[k]|), events := s.events + [EventOf(ps)]);
    assert s.groups[..k + 1][..k] == s.groups[..k];
    var n := s.view.base - cfg.isn;
    assert Same(ps[0], s.log[n]) && Matches(s.log[n], Flatten(s.groups)[n], cfg.isn + n);
    assert MessageFrames(s.groups[k], s.writes[k]);
    assert Reports(cfg.isn, t.events[k], s.writes, s.groups, k);
  }

  lemma {:induction false} MessagesKeep(cfg: Config, s: Sys)
    requires Inv(cfg, s) && cfg.messageMode
    ensures var d := DeliverMessages(s.view);
            Inv(cfg, s.(view := d.view, events := s.events + d.events))
    decreases |s.view.win|
  {
    hide Wrap, R.AckPoint, Flatten, EventData, Payloads, R.ReadInOrder, Matches, MessageFrames, Reports, FrameOf;
    assert s.events + [] == s.events;
    if R.ReadyHead(s.view) {
      MessageRead(cfg, s);
      ReadShrinks(s.view);
      var r := R.ReadInOrder(s.view);
      if r.pkts.Some? {
        var e := EventOf(r.pkts.value);
        var n := |s.groups[|s.events|]|;
        MessageEvent(cfg, s, r.pkts.value);
        ReadKeeps(cfg, s, n, s.events + [e]);
        var s' := s.(view := r.view, events := s.events + [e]);
        MessagesKeep(cfg, s');
        var rest := DeliverMessages(r.view).events;
        assert s.events + ([e] + rest) == s.events + [e] + rest;
      }
    }
  }

  lemma DataKeeps(cfg: Config, s: Sys, m: Msg, now: int)
    requires cfg.Valid() && Inv(cfg, s) && m.Data? && m in s.net && Fresh(m.tag, s.view.base)
    ensures var r := Receive(s.view, m.p, now, cfg.recvCap, cfg.messageMode);
            Inv(cfg, s.(view := r.view, events := s.events + r.events))
  {
    hide Inv, Wrap, Distance, DeliverStream, DeliverMessages;
    PlacedExact(cfg, s, m, now);
    var at := R.Placed(s.view, m.p.seqNo, cfg.recvCap);
    if at.None? {
      assert s.events + [] == s.events;
    } else {
      StoreKeeps(cfg, s, m, at.value, now);
      var s' := s.(view := R.InsertAt(s.view, at.value, m.p, now));
      if cfg.messageMode {
        MessagesKeep(cfg, s');
      } else {
        StreamKeeps(cfg, s');
      }
    }
  }

  // ---- runs ----

  lemma InitInv(cfg: Config)
    requires cfg.Valid()
    ensures Inv(cfg, Init(cfg))
  {
  }

  lemma StepKeeps(cfg: Config, s: Sys, step: Step)
    requires cfg.Valid() && Inv(cfg, s) && Enabled(cfg, s, step)
    ensures Inv(cfg, Do(cfg, s, step))
  {
    hide Inv, Wrap, Pumping, Receive, HandleAck, FramesOf, NakTimed, Nak, Resent, Unacked;
    match step
    case DoWrite(w, now, wireTS, ctl) =>
      WriteKeeps(cfg, s, w, wireTS);
      var fs := FramesOf(w, cfg.payloadSize, false, wireTS);
      PumpKeeps(cfg, Queued(s, w, fs), now, wireTS, ctl, 0);
    case DoPump(now, wireTS, ctl) =>
      PumpKeeps(cfg, s, now, wireTS, ctl, 0);
    case DoRetransmitAll =>
      ResendKeeps(cfg, s, Unacked(s.sender.snd));
    case GetData(m, now) =>
      DataKeeps(cfg, s, m, now);
    case GetAck(m, now, wireTS, ctl) =>
      AckKeeps(cfg, s, m);
      PumpKeeps(cfg, s.(sender := HandleAck(s.sender, m.ackSeq, m.lite, m.available)), now, wireTS, ctl, 0);
    case GetNak(m, now, timeNak) =>
      var r := NakTimed(s.sender.snd, m.losses, now, timeNak);
      ResendKeeps(cfg, s, r.out);
      NakKeeps(cfg, s.(net := s.net + Resent(r.out, s.sender.snd)), m.losses, now, timeNak);
    case GetFirstNak(m) =>
      ResendKeeps(cfg, s, Nak(s.sender.snd, m.losses));
    case PutAck(lite, available) =>
      PutKeeps(cfg, s, Ack(R.AckPoint(s.view), Wrap(R.AckPoint(s.view)), lite, available));
    case PutNak(losses) =>
      PutKeeps(cfg, s, NakReport(losses));
  }

  lemma PutKeeps(cfg: Config, s: Sys, m: Msg)
    requires Inv(cfg, s)
    requires m.NakReport? || (m.Ack? && m.tag == R.AckPoint(s.view) && m.ackSeq == Wrap(m.tag))
    ensures Inv(cfg, s.(net := s.net + {m}))
  {
    hide Wrap, R.AckPoint, EventData, Flatten, Payloads, Matches, MessageFrames;
  }

  ghost predicate IsRun(cfg: Config, states: seq<Sys>, steps: seq<Step>) {
    && |states| == |steps| + 1 && states[0] == Init(cfg)
    && forall i :: 0 <= i < |steps| ==>
         Enabled(cfg, states[i], steps[i]) && states[i + 1] == Do(cfg, states[i], steps[i])
  }

  lemma {:induction false} RunInv(cfg: Config, states: seq<Sys>, steps: seq<Step>, n: nat)
    requires cfg.Valid() && IsRun(cfg, states, steps) && n < |states|
    ensures Inv(cfg, states[n])
  {
    if n == 0 {
      InitInv(cfg);
    } else {
      RunInv(cfg, states, steps, n - 1);
      StepKeeps(cfg, states[n - 1], steps[n - 1]);
    }
  }

  /** The log carries the bytes of the frames it was built from. */
  lemma {:induction false} LogPayloads(cfg: Config, s: Sys, n: nat)
    requires LogInv(cfg, s) && n <= |s.log|
    ensures Payloads(s.log[..n]) == FramePayloads(Flatten(s.groups)[..n])
  {
    if n > 0 {
      LogPayloads(cfg, s, n - 1);
      FramePayloadsSnoc(Flatten(s.groups), n - 1);
      assert s.log[..n][..n - 1] == s.log[..n - 1];
      assert Matches(s.log[n - 1], Flatten(s.groups)[n - 1], cfg.isn + n - 1);
    }
  }

  /** Stream mode: at every point of every run, the bytes delivered are a prefix of the bytes written. */
  lemma StreamDelivery(cfg: Config, states: seq<Sys>, steps: seq<Step>, n: nat)
    requires cfg.Valid() && !cfg.messageMode && IsRun(cfg, states, steps) && n < |states|
    ensures EventData(states[n].events) <= Written(states[n].writes)
  {
    hide Inv, IsRun;
    RunInv(cfg, states, steps, n);
    StreamPrefix(cfg, states[n]);
  }

  lemma {:induction false} EventBytes(cfg: Config, s: Sys, n: nat)
    requires EventInv(cfg, s) && !cfg.messageMode && n <= |s.events| && n <= |s.log|
    ensures EventData(s.events[..n]) == Payloads(s.log[..n])
  {
    if n > 0 {
      EventBytes(cfg, s, n - 1);
      assert s.events[..n][..n - 1] == s.events[..n - 1] && s.log[..n][..n - 1] == s.log[..n - 1];
      var p := s.log[n - 1];
      assert s.events[n - 1] == EventOf([p]) && [p][..0] == [];
      assert Payloads([p]) == Payloads([p][..0]) + p.data;
    }
  }

  lemma StreamPrefix(cfg: Config, s: Sys)
    requires Inv(cfg, s) && !cfg.messageMode
    ensures EventData(s.events) <= Written(s.writes)
  {
    hide Flatten, EventData, Payloads, Written, FramePayloads, Matches, MessageFrames, R.AckPoint;
    var k, frames := s.view.base - cfg.isn, Flatten(s.groups);
    EventBytes(cfg, s, k);
    assert s.events[..k] == s.events;
    LogPayloads(cfg, s, k);
    FramePayloadsAppend(frames[..k], frames[k..]);
    assert frames == frames[..k] + frames[k..];
    FlattenWritten(s.groups, s.writes);
  }

  /** Message mode: the messages delivered are the first messages written, whole and in order. */
  lemma MessageDelivery(cfg: Config, states: seq<Sys>, steps: seq<Step>, n: nat)
    requires cfg.Valid() && cfg.messageMode && IsRun(cfg, states, steps) && n < |states|
    ensures |states[n].events| <= |states[n].writes|
    ensures forall k :: 0 <= k < |states[n].events| ==>
              && states[n].events[k].data == states[n].writes[k].payload
              && states[n].events[k].msgNo == states[n].writes[k].msgNo
  {
    RunInv(cfg, states, steps, n);
    var s := states[n];
    forall k | 0 <= k < |s.events|
      ensures s.events[k].data == s.writes[k].payload && s.events[k].msgNo == s.writes[k].msgNo
    {
      assert Reports(cfg.isn, s.events[k], s.writes, s.groups, k);
    }
  }

  lemma InvReports(cfg: Config, s: Sys)
    requires Inv(cfg, s) && cfg.messageMode
    ensures |s.events| <= |s.groups| == |s.writes|
    ensures forall k :: 0 <= k < |s.events| ==> Reports(cfg.isn, s.events[k], s.writes, s.groups, k)
  {
  }

  // ---- nothing is held back ----

  /** Nothing that could go up is waiting: no available head, or a head whose message lacks a packet. */
  ghost predicate Drained(cfg: Config, v: R.RecvView) {
    R.ReadyHead(v) ==> cfg.messageMode && R.ReadInOrder(v).pkts.None?
  }

  lemma {:induction false} MessagesDrain(cfg: Config, s: Sys)
    requires Inv(cfg, s) && cfg.messageMode
    ensures Drained(cfg, DeliverMessages(s.view).view)
    decreases |s.view.win|
  {
    hide Wrap, R.AckPoint, Flatten, EventData, Payloads, R.ReadInOrder;
    if R.ReadyHead(s.view) {
      MessageRead(cfg, s);
      ReadShrinks(s.view);
      var r := R.ReadInOrder(s.view);
      if r.pkts.Some? {
        var n := |s.groups[|s.events|]|;
        MessageEvent(cfg, s, r.pkts.value);
        ReadKeeps(cfg, s, n, s.events + [EventOf(r.pkts.value)]);
        MessagesDrain(cfg, s.(view := r.view, events := s.events + [EventOf(r.pkts.value)]));
      }
    }
  }

  lemma StepDrains(cfg: Config, s: Sys, step: Step)
    requires cfg.Valid() && Inv(cfg, s) && Enabled(cfg, s, step) && Drained(cfg, s.view)
    ensures Drained(cfg, Do(cfg, s, step).view)
  {
    hide Inv, Drained, Wrap, Pump, HandleAck, FramesOf, NakTimed, Nak, Resent, Unacked, R.AckPoint, Tagged;
    if step.GetData? {
      ArrivalDrains(cfg, s, step.m, step.now);
    }
  }

  lemma ArrivalDrains(cfg: Config, s: Sys, m: Msg, now: int)
    requires cfg.Valid() && Inv(cfg, s) && m.Data? && m in s.net && Fresh(m.tag, s.view.base) && Drained(cfg, s.view)
    ensures Drained(cfg, Receive(s.view, m.p, now, cfg.recvCap, cfg.messageMode).view)
  {
    hide Inv, Wrap, Distance, DeliverStream, DeliverMessages, R.ReadInOrder;
    PlacedExact(cfg, s, m, now);
    var at := R.Placed(s.view, m.p.seqNo, cfg.recvCap);
    if at.Some? {
      StoreKeeps(cfg, s, m, at.value, now);
      var v := R.InsertAt(s.view, at.value, m.p, now);
      if cfg.messageMode {
        MessagesDrain(cfg, s.(view := v));
      } else {
        StreamDrains(v);
      }
    }
  }

  lemma {:induction false} RunDrained(cfg: Config, states: seq<Sys>, steps: seq<Step>, n: nat)
    requires cfg.Valid() && IsRun(cfg, states, steps) && n < |states|
    ensures Drained(cfg, states[n].view)
  {
    hide Inv, Do, Enabled;
    if n == 0 {
      StartsDrained(cfg);
    } else {
      RunInv(cfg, states, steps, n - 1);
      RunDrained(cfg, states, steps, n - 1);
      StepDrains(cfg, states[n - 1], steps[n - 1]);
    }
  }

  lemma StartsDrained(cfg: Config)
    ensures Drained(cfg, Init(cfg).view)
  {
  }

  /** With nothing waiting, exactly the packets below the acknowledgement point have gone up. */
  lemma DrainedStream(cfg: Config, s: Sys)
    requires Inv(cfg, s) && !cfg.messageMode && Drained(cfg, s.view)
    ensures var k := R.AckPoint(s.view) - cfg.isn;
            && 0 <= k <= |s.log| && |s.events| == k && (forall i :: 0 <= i < k ==> s.events[i] == EventOf([s.log[i]]))
            && EventData(s.events) == Payloads(s.log[..k])
  {
    hide Flatten, EventData, Payloads, Matches, MessageFrames;
    R.AckOffsetUnique(s.view.win, 0);
    EventBytes(cfg, s, |s.events|);
    assert s.events[..|s.events|] == s.events;
  }

  lemma DrainedMessages(cfg: Config, s: Sys)
    requires Inv(cfg, s) && cfg.messageMode && Drained(cfg, s.view) && |s.events| < |s.groups|
    ensures exists j: nat :: LacksFrame(cfg, s, |s.events|, j)
  {
    hide Flatten, EventData, Payloads, Matches;
    var k := |s.events|;
    var fs := s.groups[k];
    assert MessageFrames(fs, s.writes[k]);
    if R.ReadyHead(s.view) {
      MessageRead(cfg, s);
      var j := FirstGap(s.view.win, |fs|);
      assert LacksFrame(cfg, s, k, j);
    } else {
      assert LacksFrame(cfg, s, k, 0);
    }
  }

  /**
   * Stream mode: at every point of every run, what is acknowledged has been delivered: one event per
   * packet below the acknowledgement point, with its data, number and framing.
   */
  lemma AckedIsDelivered(cfg: Config, states: seq<Sys>, steps: seq<Step>, n: nat)
    requires cfg.Valid() && !cfg.messageMode && IsRun(cfg, states, steps) && n < |states|
    ensures var s := states[n]; var k := R.AckPoint(s.view) - cfg.isn;
            && 0 <= k <= |s.log| && |s.events| == k && (forall i :: 0 <= i < k ==> s.events[i] == EventOf([s.log[i]]))
            && EventData(s.events) == Payloads(s.log[..k])
  {
    hide IsRun, Inv, Drained, EventData, Payloads;
    RunInv(cfg, states, steps, n);
    RunDrained(cfg, states, steps, n);
    DrainedStream(cfg, states[n]);
  }

  /** The receiver lacks frame j of message k. */
  ghost predicate LacksFrame(cfg: Config, s: Sys, k: nat, j: nat) {
    k < |s.groups| && j < |s.groups[k]| && Lacks(s.view, cfg.isn + |Flatten(s.groups[..k])| + j)
  }

  /** Message mode: of the first message that is not delivered, the receiver lacks a packet. */
  lemma NothingHeldBack(cfg: Config, states: seq<Sys>, steps: seq<Step>, n: nat)
    requires cfg.Valid() && cfg.messageMode && IsRun(cfg, states, steps) && n < |states|
    ensures var s := states[n]; var k := |s.events|;
            k < |s.groups| ==>
              exists j: nat :: LacksFrame(cfg, s, k, j)
  {
    hide IsRun, Inv, Drained, LacksFrame;
    RunInv(cfg, states, steps, n);
    RunDrained(cfg, states, steps, n);
    if |states[n].events| < |states[n].groups| {
      DrainedMessages(cfg, states[n]);
    }
  }

  /** When everything written has been sent and the receiver lacks none of it, everything has been delivered. */
  lemma CompleteDelivers(cfg: Config, s: Sys)
    requires Inv(cfg, s) && Drained(cfg, s.view)
    requires s.sender.queue == [] && R.AckPoint(s.view) == s.sender.snd.Next()
    ensures !cfg.messageMode ==> EventData(s.events) == Written(s.writes)
    ensures cfg.messageMode ==> |s.events| == |s.writes|
  {
    hide Payloads, Matches, MessageFrames, Written, EventData, Drained;
    if cfg.messageMode {
      var k := |s.events|;
      if k < |s.groups| {
        DrainedMessages(cfg, s);
        var j: nat :| LacksFrame(cfg, s, k, j);
        FlattenAt(s.groups, k, j);
      }
    } else {
      DrainedStream(cfg, s);
      LogPayloads(cfg, s, |s.log|);
      assert Flatten(s.groups)[..|s.log|] == Flatten(s.groups);
      FlattenWritten(s.groups, s.writes);
    }
  }

  // ---- flow control ----

  predicate FullAck(step: Step) {
    step.GetAck? && step.m.Ack? && !step.m.lite
  }

  /** What a step leaves of the peer's advertisement, and how far it may send. */
  lemma StepFlow(cfg: Config, s: Sys, step: Step)
    requires Enabled(cfg, s, step)
    ensures var t := Do(cfg, s, step).sender;
            && (FullAck(step) ==> t.rcvFlowWin == step.m.available)
            && (!FullAck(step) && s.sender.rcvFlowWin > 0 ==> Edge(t) == Edge(s.sender))
            && (t.rcvFlowWin > 0 ==> t.snd.Next() <= Max(s.sender.snd.Next(), Edge(t)))
  {
    hide Wrap, Pump, FramesOf, Resent, Tagged, Released, Receive, R.AckPoint;
    match step
    case DoWrite(w, now, wireTS, ctl) =>
      var fs := FramesOf(w, cfg.payloadSize, false, wireTS);
      PumpFlow(Queued(s, w, fs).sender, now, wireTS, cfg.flowWindow, ctl);
    case DoPump(now, wireTS, ctl) =>
      PumpFlow(s.sender, now, wireTS, cfg.flowWindow, ctl);
    case GetAck(m, now, wireTS, ctl) =>
      AckMovesEdge(s.sender, m.ackSeq, m.lite, m.available);
      AckKeepsNext(s.sender, m.ackSeq, m.lite, m.available);
      PumpFlow(HandleAck(s.sender, m.ackSeq, m.lite, m.available), now, wireTS, cfg.flowWindow, ctl);
    case _ =>
  }

  lemma AckKeepsNext(s: Sender, ack: Num, lite: bool, available: nat)
    ensures HandleAck(s, ack, lite, available).snd.Next() == s.snd.Next()
  {
    hide Wrap, Distance;
  }

  lemma {:induction false} PumpFlow(s: Sender, now: int, wireTS: nat, flowWindow: int, ctl: nat -> Control)
    ensures var t := Pump(s, now, wireTS, flowWindow, ctl, 0).sender;
            && t.rcvFlowWin == s.rcvFlowWin && t.snd.base == s.snd.base
            && (s.rcvFlowWin > 0 ==> t.snd.Next() <= Max(s.snd.Next(), Edge(s)))
  {
    hide Wrap, Pump, Carries;
    var r := Pump(s, now, wireTS, flowWindow, ctl, 0);
    PumpExact(s, now, wireTS, flowWindow, ctl, 0);
    if |r.sent| > 0 {
      assert SentAt(s, r, now, wireTS, flowWindow, ctl, 0, |r.sent| - 1);
    }
  }

  /**
   * Flow control over runs: from a full acknowledgement to the next, while fewer packets have been
   * acknowledged than it advertised, no number at or past the advertised edge is sent.
   */
  lemma {:induction false} AdvertisementKept(cfg: Config, states: seq<Sys>, steps: seq<Step>, n: nat, m: nat)
    requires IsRun(cfg, states, steps) && n < m < |states| && FullAck(steps[n]) && steps[n].m.available > 0
    requires forall k :: n < k < m ==> !FullAck(steps[k])
    requires forall k :: n < k <= m ==> states[k].sender.snd.base < Edge(states[n + 1].sender)
    ensures Edge(states[m].sender) == Edge(states[n + 1].sender)
    ensures states[n + 1].sender.rcvFlowWin == steps[n].m.available
    ensures states[m].sender.snd.Next() <= Max(states[n].sender.snd.Next(), Edge(states[n + 1].sender))
  {
    hide Do, Enabled;
    StepFlow(cfg, states[n], steps[n]);
    if n + 1 < m {
      AdvertisementKept(cfg, states, steps, n, m - 1);
      StepFlow(cfg, states[m - 1], steps[m - 1]);
    }
  }

  /**
   * The sender's base, the receiver's acknowledgement point and the sender's next number are in
   * order; the send window fits the flow window; and every packet sent that the receiver lacks is
   * still in the send buffer, unchanged.
   */
  lemma NothingLostIsReleased(cfg: Config, states: seq<Sys>, steps: seq<Step>, n: nat)
    requires cfg.Valid() && IsRun(cfg, states, steps) && n < |states|
    ensures var s := states[n]; var v := s.sender.snd;
            && v.base <= R.AckPoint(s.view) <= v.Next()
            && |v.win| <= cfg.flowWindow
            && forall u: int :: cfg.isn <= u < v.Next() && Lacks(s.view, u) ==>
                 v.base <= u && u - cfg.isn < |s.log| && v.win[u - v.base].pkt == Some(s.log[u - cfg.isn])
  {
    hide IsRun;
    RunInv(cfg, states, steps, n);
    var s := states[n];
    var v := s.sender.snd;
    forall u: int | cfg.isn <= u < v.Next() && Lacks(s.view, u)
      ensures v.base <= u && u - cfg.isn < |s.log| && v.win[u - v.base].pkt == Some(s.log[u - cfg.isn])
    {
      assert u >= R.AckPoint(s.view);
      var i := u - v.base;
      assert v.win[i].pkt == Some(s.log[v.base - cfg.isn + i]);
    }
  }

  /** The receiver has neither delivered nor stored number u. */
  ghost predicate Lacks(v: R.RecvView, u: int) {
    u >= v.base && R.Slot(v, u - v.base).state.Empty?
  }

  /** Every loss the receiver reports is answered with the packet it asks for. */
  lemma LossesAreAnswerable(cfg: Config, states: seq<Sys>, steps: seq<Step>, n: nat, lost: Num)
    requires cfg.Valid() && IsRun(cfg, states, steps) && n < |states|
    requires lost in R.Losses(states[n].view, |states[n].view.win|)
    ensures var v := states[n].sender.snd;
            Find(v, lost).Some? && v.win[Find(v, lost).value].Used()
            && v.win[Find(v, lost).value].pkt.value.seqNo == lost
  {
    hide IsRun, Wrap, Find, R.Losses, Flatten, EventData, Payloads, Written;
    RunInv(cfg, states, steps, n);
    var s := states[n];
    var v := s.sender.snd;
    R.LossesExact(s.view, |s.view.win|, lost);
    var i :| 0 <= i < |s.view.win| && s.view.win[i].state.Empty? && lost == Wrap(s.view.base + i);
    var u := s.view.base + i;
    assert u >= R.AckPoint(s.view) >= v.base && u < v.Next();
    FindExact(v, lost, u - v.base);
    assert v.win[u - v.base].pkt == Some(s.log[v.base - cfg.isn + (u - v.base)]);
    assert Matches(s.log[u - cfg.isn], Flatten(s.groups)[u - cfg.isn], cfg.isn + (u - cfg.isn));
  }

  /** No retransmission is swallowed by the bookkeeping: each one enters the channel under its own number. */
  lemma ResentIsSent(cfg: Config, s: Sys, i: nat)
    requires Inv(cfg, s) && i < |s.sender.snd.win| && s.sender.snd.AllUsed()
    ensures var v := s.sender.snd;
            Data(v.base + i, RexmitOf(v.win[i])) in Resent([RexmitOf(v.win[i])], v)
  {
    var v := s.sender.snd;
    var k := v.base - cfg.isn + i;
    assert v.win[i].pkt == Some(s.log[k]);
    assert Matches(s.log[k], Flatten(s.groups)[k], cfg.isn + k);
  }

  // ---- pacing over runs ----

  /** The time a step reads off the clock, where it sends. */
  function Clock(step: Step): int {
    match step
    case DoWrite(_, now, _, _) => now
    case DoPump(now, _, _) => now
    case GetAck(_, now, _, _) => now
    case _ => 0
  }

  ghost predicate OnPace(s: Sys) {
    Paced(0, s.sends) && s.sender.nextSendTime == DeadlineAfter(0, s.sends)
  }

  lemma PumpingOnPace(cfg: Config, s: Sys, now: int, wireTS: nat, ctl: nat -> Control)
    requires OnPace(s) && now >= 0
    ensures OnPace(Pumping(cfg, s, now, wireTS, ctl, 0))
  {
    hide Paced, DeadlineAfter, Pump;
    PumpPaces(s.sender, now, wireTS, cfg.flowWindow, ctl, 0, 0, s.sends);
  }

  lemma StepOnPace(cfg: Config, s: Sys, step: Step)
    requires Enabled(cfg, s, step) && OnPace(s) && Clock(step) >= 0
    ensures OnPace(Do(cfg, s, step))
  {
    hide Paced, DeadlineAfter, Pumping, FramesOf, Receive, NakTimed, Nak, Resent;
    match step
    case DoWrite(w, now, wireTS, ctl) =>
      var fs := FramesOf(w, cfg.payloadSize, false, wireTS);
      PumpingOnPace(cfg, Queued(s, w, fs), now, wireTS, ctl);
    case DoPump(now, wireTS, ctl) =>
      PumpingOnPace(cfg, s, now, wireTS, ctl);
    case GetAck(m, now, wireTS, ctl) =>
      PumpingOnPace(cfg, s.(sender := HandleAck(s.sender, m.ackSeq, m.lite, m.available)), now, wireTS, ctl);
    case _ =>
  }

  lemma {:induction false} RunOnPace(cfg: Config, states: seq<Sys>, steps: seq<Step>, n: nat)
    requires IsRun(cfg, states, steps) && n < |states| && forall i :: 0 <= i < |steps| ==> Clock(steps[i]) >= 0
    ensures OnPace(states[n])
  {
    hide Do, Clock, Enabled;
    if n > 0 {
      RunOnPace(cfg, states, steps, n - 1);
      StepOnPace(cfg, states[n - 1], steps[n - 1]);
    }
  }

  /**
   * The token bucket over runs: however writes, acknowledgements and late timers interleave, between
   * any two first transmissions i and j of a run the pacing intervals of the sends i .. j - 1 amount to
   * at most the time between them plus 10 ms.
   */
  lemma {:induction false} RunIsTokenBucket(cfg: Config, states: seq<Sys>, steps: seq<Step>, n: nat, i: nat, j: nat)
    requires IsRun(cfg, states, steps) && n < |states| && forall k :: 0 <= k < |steps| ==> Clock(steps[k]) >= 0
    requires i < j < |states[n].sends|
    ensures Credit(states[n].sends, i, j) <= states[n].sends[j].at - states[n].sends[i].at + MAX_PACING_BURST
  {
    hide IsRun, Clock, Credit;
    RunOnPace(cfg, states, steps, n);
    TokenBucket(0, states[n].sends, i, j);
  }
}
