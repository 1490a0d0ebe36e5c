/**
 * What the receive buffer means on values (internal/buffer/recv.go): a window of slots that
 * starts at an unbounded sequence number. The ring in RecvBuffer.dfy is proved to compute
 * these functions.
 */
module RecvWindow {
  import opened SeqNum
  import opened Packets
  import opened Ring

  datatype EntryState = Empty | Available | Read

  datatype RecvEntry = RecvEntry(pkt: Option<Packet>, state: EntryState, arrivalTS: int) {
    /** The only shapes a slot takes when nothing is dropped. */
    predicate WellFormed() {
      && (state.Available? <==> pkt.Some?)
      && (state.Empty? ==> this == NO_PACKET)
    }

    predicate Has() {
      state.Available? && pkt.Some?
    }

    predicate OutOfOrder() {
      Has() && !pkt.value.order
    }
  }

  const NO_PACKET := RecvEntry(None, Empty, 0)

  /** Slots [base, base + |win|): from the oldest unread number to one past the highest received. */
  datatype RecvView = RecvView(base: int, win: seq<RecvEntry>) {
    function Max(): int {
      base + |win|
    }

    ghost predicate WellFormed() {
      forall i :: 0 <= i < |win| ==> win[i].WellFormed()
    }
  }

  function Slot(v: RecvView, i: nat): RecvEntry {
    if i < |v.win| then v.win[i] else NO_PACKET
  }

  // ---- counting ----

  function CountAvailable(win: seq<RecvEntry>): (n: nat)
    ensures n <= |win|
  {
    if win == [] then 0
    else CountAvailable(win[1..]) + (if win[0].state.Available? then 1 else 0)
  }

  function CountOutOfOrder(win: seq<RecvEntry>): (n: nat)
    ensures n <= CountAvailable(win)
  {
    if win == [] then 0
    else CountOutOfOrder(win[1..]) + (if win[0].OutOfOrder() then 1 else 0)
  }

  lemma {:induction false} CountAppend(a: seq<RecvEntry>, b: seq<RecvEntry>)
    ensures CountAvailable(a + b) == CountAvailable(a) + CountAvailable(b)
    ensures CountOutOfOrder(a + b) == CountOutOfOrder(a) + CountOutOfOrder(b)
  {
    if a == [] {
      assert a + b == b;
    } else {
      CountAppend(a[1..], b);
      assert (a + b)[1..] == a[1..] + b;
    }
  }

  lemma {:induction false} CountUpdate(w: seq<RecvEntry>, i: nat, e: RecvEntry)
    requires i < |w|
    ensures CountAvailable(w[i := e])
         == CountAvailable(w) - CountAvailable([w[i]]) + CountAvailable([e])
    ensures CountOutOfOrder(w[i := e])
         == CountOutOfOrder(w) - CountOutOfOrder([w[i]]) + CountOutOfOrder([e])
  {
    assert w == w[..i] + [w[i]] + w[i + 1..];
    assert w[i := e] == w[..i] + [e] + w[i + 1..];
    CountAppend(w[..i] + [w[i]], w[i + 1..]);
    CountAppend(w[..i], [w[i]]);
    CountAppend(w[..i] + [e], w[i + 1..]);
    CountAppend(w[..i], [e]);
  }

  lemma {:induction false} CountEmpties(n: nat)
    ensures CountAvailable(seq(n, _ => NO_PACKET)) == 0
    ensures CountOutOfOrder(seq(n, _ => NO_PACKET)) == 0
  {
    if n > 0 {
      CountEmpties(n - 1);
      assert seq(n, _ => NO_PACKET)[1..] == seq(n - 1, _ => NO_PACKET);
    }
  }

  lemma {:induction false} CountSuffix(w: seq<RecvEntry>, n: nat)
    requires n <= |w|
    ensures CountOutOfOrder(w[n..]) <= CountOutOfOrder(w)
  {
    hide CountAvailable, CountOutOfOrder;
    CountAppend(w[..n], w[n..]);
    assert w == w[..n] + w[n..];
  }

  // ---- insertion ----

  datatype InsertResult = InsertResult(inserted: bool, gapStart: Num, gapEnd: Num) {
    predicate HasGap() {
      inserted && (gapStart != 0 || gapEnd != 0)
    }
  }

  const REFUSED := InsertResult(false, 0, 0)

  /** The offset an arriving wire number addresses, when the buffer takes it. */
  function Placed(v: RecvView, s: Num, cap: nat): Option<nat> {
    var d := Distance(Wrap(v.base), s);
    if 0 <= d < cap - 1 && Slot(v, d).state.Empty? then Some(d) else None
  }

  /**
   * A packet is stored at offset i exactly if its wire number is that of base + i and the slot is
   * free, whatever unbounded number it was sent under: one that is 2^31 too old is taken for new.
   */
  lemma PlacedByWireNumber(v: RecvView, tag: int, cap: nat, i: nat)
    requires cap < HALF
    ensures Placed(v, Wrap(tag), cap) == Some(i) <==>
              i < cap - 1 && Slot(v, i).state.Empty? && Wrap(tag) == Wrap(v.base + i)
  {
    DistanceCongruent(Wrap(v.base), Wrap(tag));
    WrapOfSum(v.base, Distance(Wrap(v.base), Wrap(tag)));
    if i < cap - 1 {
      WireOrderIsTrueOrder(v.base, v.base + i);
    }
  }

  function InsertAt(v: RecvView, i: nat, p: Packet, arrivalTS: int): RecvView {
    v.(win := Put(v.win, i, RecvEntry(Some(p), Available, arrivalTS), NO_PACKET))
  }

  lemma InsertCounts(v: RecvView, i: nat, p: Packet, ts: int)
    requires Slot(v, i).state.Empty? && v.WellFormed()
    ensures CountAvailable(InsertAt(v, i, p, ts).win) == CountAvailable(v.win) + 1
    ensures CountOutOfOrder(InsertAt(v, i, p, ts).win) == CountOutOfOrder(v.win) + (if p.order then 0 else 1)
    ensures InsertAt(v, i, p, ts).WellFormed()
  {
    var e := RecvEntry(Some(p), Available, ts);
    if i < |v.win| {
      CountUpdate(v.win, i, e);
    } else {
      var gap := seq(i - |v.win|, _ => NO_PACKET);
      CountEmpties(i - |v.win|);
      CountAppend(v.win + gap, [e]);
      CountAppend(v.win, gap);
    }
  }

  /** What Insert reports: the numbers between the old maximum and the new packet. */
  function Report(v: RecvView, i: nat, s: Num): InsertResult {
    if |v.win| > 0 && |v.win| < i then InsertResult(true, Wrap(v.Max()), Dec(s)) else InsertResult(true, 0, 0)
  }

  // ---- loss list and acknowledgement point ----

  /** The missing numbers of the first n slots, in order. */
  function Losses(v: RecvView, n: nat): seq<Num>
    requires n <= |v.win|
  {
    if n == 0 then []
    else Losses(v, n - 1) + (if v.win[n - 1].state.Empty? then [Wrap(v.base + n - 1)] else [])
  }

  /** Offset of the first missing slot, or of the end of the window. */
  function AckOffset(win: seq<RecvEntry>): (n: nat)
    ensures n <= |win|
    ensures forall i :: 0 <= i < n ==> !win[i].state.Empty?
    ensures n < |win| ==> win[n].state.Empty?
  {
    if win == [] || win[0].state.Empty? then 0 else 1 + AckOffset(win[1..])
  }

  function AckPoint(v: RecvView): int {
    v.base + AckOffset(v.win)
  }

  lemma {:induction false} AckOffsetUnique(win: seq<RecvEntry>, n: nat)
    requires n <= |win| && (forall i :: 0 <= i < n ==> !win[i].state.Empty?)
    requires n < |win| ==> win[n].state.Empty?
    ensures n == AckOffset(win)
  {
  }

  /** The loss list names exactly the gaps of the window, each once and in order. */
  lemma {:induction false} LossesExact(v: RecvView, n: nat, s: Num)
    requires n <= |v.win| < HALF
    ensures s in Losses(v, n) <==> exists i :: 0 <= i < n && v.win[i].state.Empty? && s == Wrap(v.base + i)
    ensures forall j :: 0 <= j < |Losses(v, n)| ==> 0 <= Distance(Wrap(v.base), Losses(v, n)[j]) < n
    ensures forall j, k :: 0 <= j < k < |Losses(v, n)| ==>
              Distance(Wrap(v.base), Losses(v, n)[j]) < Distance(Wrap(v.base), Losses(v, n)[k])
  {
    hide Wrap, Distance;
    if n > 0 {
      LossesExact(v, n - 1, s);
      WireOrderIsTrueOrder(v.base, v.base + n - 1);
      if s in Losses(v, n) && s !in Losses(v, n - 1) {
        assert 0 <= n - 1 < n && v.win[n - 1].state.Empty? && s == Wrap(v.base + (n - 1));
      }
      if i :| 0 <= i < n && v.win[i].state.Empty? && s == Wrap(v.base + i) {
        if i < n - 1 {
          assert s in Losses(v, n - 1);
        } else {
          assert v.base + i == v.base + n - 1;
        }
      }
    }
  }

  /** Insertion only fills gaps: the acknowledgement point never moves back. */
  lemma InsertKeepsAck(v: RecvView, i: nat, p: Packet, ts: int)
    ensures AckPoint(InsertAt(v, i, p, ts)) >= AckPoint(v)
    ensures AckPoint(InsertAt(v, i, p, ts)) > AckPoint(v) <==> i == AckOffset(v.win)
  {
    var n, w := AckOffset(v.win), InsertAt(v, i, p, ts).win;
    if i != n {
      AckOffsetUnique(w, n);
    }
  }

  /** Gaps of the window after an insertion at i: the old ones but i, and the ones the jump opened. */
  lemma InsertGaps(v: RecvView, i: nat, p: Packet, ts: int, k: nat)
    requires Slot(v, i).state.Empty?
    ensures var w := InsertAt(v, i, p, ts).win;
            (k < |w| && w[k].state.Empty?) <==> k != i && ((k < |v.win| && v.win[k].state.Empty?) || |v.win| <= k < i)
  {
  }

  /**
   * The gap an insertion opens is reported if and only if the buffer was not drained
   * (its window is not empty) and the gap is not the single number 0.
   */
  lemma GapReportExact(v: RecvView, i: nat)
    requires |v.win| <= i < HALF
    ensures Report(v, i, Wrap(v.base + i)).HasGap()
       <==> |v.win| < i && |v.win| > 0 && !(i == |v.win| + 1 && Wrap(v.Max()) == 0)
    ensures Report(v, i, Wrap(v.base + i)).HasGap() ==>
              var r := Report(v, i, Wrap(v.base + i));
              r.gapStart == Wrap(v.base + |v.win|) && r.gapEnd == Wrap(v.base + i - 1)
  {
    WrapArith(v.base + i, 0);
    if |v.win| < i {
      WireOrderIsTrueOrder(v.Max(), v.base + i - 1);
    }
  }

  /** A loss right after the buffer was drained, and the loss of number 0 alone, go unreported. */
  lemma GapsMissed(p: Packet)
    ensures !Report(RecvView(100, []), 1, 101).HasGap()
    ensures !Report(RecvView(SPACE - 1, [RecvEntry(Some(p), Available, 0)]), 2, 1).HasGap()
  {
  }

  /** The free space advertised with an acknowledgement; slots behind the acknowledged number count as used. */
  function Advertised(v: RecvView, lastAck: Num, cap: nat): nat
    requires cap > 0
  {
    var used := Distance(Wrap(v.base), lastAck);
    if used <= 0 then cap - 1 else if used > cap - 1 then 0 else cap - used
  }

  /**
   * The advertised size is one more than the slots that are really free past the acknowledgement
   * point, except when nothing is held, where it is exact.
   */
  lemma AdvertisedExact(v: RecvView, cap: nat)
    requires |v.win| < cap < HALF
    ensures var free := cap - 1 - AckOffset(v.win);
            Advertised(v, Wrap(AckPoint(v)), cap) == free + (if AckOffset(v.win) > 0 then 1 else 0)
  {
    WireOrderIsTrueOrder(v.base, AckPoint(v));
  }

  // ---- in-order reads ----

  function PopHead(v: RecvView): RecvView
    requires |v.win| > 0
  {
    RecvView(v.base + 1, v.win[1..])
  }

  function DropHead(v: RecvView, n: nat): RecvView
    requires n <= |v.win|
  {
    RecvView(v.base + n, v.win[n..])
  }

  function ReadyHead(v: RecvView): bool {
    |v.win| > 0 && v.win[0].Has()
  }

  /** Slots already read out of order at the head are released. */
  function ReleaseFillers(v: RecvView): (r: RecvView)
    ensures r.base >= v.base && r.Max() == v.Max()
    decreases |v.win|
  {
    if |v.win| > 0 && v.win[0].state.Read? then ReleaseFillers(PopHead(v)) else v
  }

  lemma {:induction false} ReleaseFillersExact(v: RecvView)
    ensures var r := ReleaseFillers(v); var n := r.base - v.base;
            && 0 <= n <= |v.win| && r.win == v.win[n..]
            && (forall i :: 0 <= i < n ==> v.win[i].state.Read?)
            && (|r.win| > 0 ==> !r.win[0].state.Read?)
            && CountAvailable(r.win) == CountAvailable(v.win)
            && CountOutOfOrder(r.win) == CountOutOfOrder(v.win)
    decreases |v.win|
  {
    if |v.win| > 0 && v.win[0].state.Read? {
      ReleaseFillersExact(PopHead(v));
    }
  }

  datatype Scan = Incomplete | Corrupt | Complete(n: nat)

  /** The forward scan over a fragmented message that starts at the head. */
  function ScanMessage(win: seq<RecvEntry>, k: nat, msgNo: nat): Scan
    requires k <= |win|
    decreases |win| - k
  {
    if k == |win| || !win[k].Has() then Incomplete
    else if win[k].pkt.value.msgNo != msgNo then Corrupt
    else if win[k].pkt.value.pos.EndsMessage() then Complete(k + 1)
    else ScanMessage(win, k + 1, msgNo)
  }

  /** Slots k .. j - 1 hold packets of one message, none of which ends it. */
  ghost predicate OpenRun(win: seq<RecvEntry>, k: nat, j: nat, msgNo: nat) {
    && k <= j <= |win|
    && forall i :: k <= i < j ==> win[i].Has() && win[i].pkt.value.msgNo == msgNo && !win[i].pkt.value.pos.EndsMessage()
  }

  /** The slots k .. n - 1 hold the message to its end. */
  ghost predicate EndsAt(win: seq<RecvEntry>, k: nat, n: nat, msgNo: nat) {
    && k < n <= |win| && OpenRun(win, k, n - 1, msgNo)
    && win[n - 1].Has() && win[n - 1].pkt.value.msgNo == msgNo && win[n - 1].pkt.value.pos.EndsMessage()
  }

  /** A packet of another message comes before the end. */
  ghost predicate ForeignAt(win: seq<RecvEntry>, k: nat, j: nat, msgNo: nat) {
    OpenRun(win, k, j, msgNo) && j < |win| && win[j].Has() && win[j].pkt.value.msgNo != msgNo
  }

  /** A packet of the message is missing. */
  ghost predicate GapAt(win: seq<RecvEntry>, k: nat, j: nat, msgNo: nat) {
    OpenRun(win, k, j, msgNo) && (j == |win| || !win[j].Has())
  }

  lemma {:induction false} ScanReaches(win: seq<RecvEntry>, k: nat, j: nat, msgNo: nat)
    requires OpenRun(win, k, j, msgNo)
    ensures ScanMessage(win, k, msgNo) == ScanMessage(win, j, msgNo)
    decreases j - k
  {
    if k < j {
      ScanReaches(win, k + 1, j, msgNo);
    }
  }

  lemma {:induction false} ScanStops(win: seq<RecvEntry>, k: nat, msgNo: nat) returns (j: nat)
    requires k <= |win|
    ensures OpenRun(win, k, j, msgNo)
    ensures j == |win| || !win[j].Has() || win[j].pkt.value.msgNo != msgNo || win[j].pkt.value.pos.EndsMessage()
    decreases |win| - k
  {
    j := k;
    if k < |win| && win[k].Has() && win[k].pkt.value.msgNo == msgNo && !win[k].pkt.value.pos.EndsMessage() {
      j := ScanStops(win, k + 1, msgNo);
    }
  }

  /**
   * The scan finds the message complete exactly if it is held to its end, corrupt exactly if a packet of
   * another message comes first, and incomplete exactly if a missing packet comes first.
   */
  lemma {:induction false} ScanMessageExact(win: seq<RecvEntry>, k: nat, msgNo: nat)
    requires k <= |win|
    ensures forall n: nat :: ScanMessage(win, k, msgNo) == Complete(n) <==> EndsAt(win, k, n, msgNo)
    ensures ScanMessage(win, k, msgNo).Corrupt? <==> exists j: nat :: ForeignAt(win, k, j, msgNo)
    ensures ScanMessage(win, k, msgNo).Incomplete? <==> exists j: nat :: GapAt(win, k, j, msgNo)
  {
    var r := ScanMessage(win, k, msgNo);
    var j := ScanStops(win, k, msgNo);
    ScanReaches(win, k, j, msgNo);
    assert r.Complete? ==> EndsAt(win, k, j + 1, msgNo) && r == Complete(j + 1);
    assert r.Corrupt? ==> ForeignAt(win, k, j, msgNo);
    assert r.Incomplete? ==> GapAt(win, k, j, msgNo);
    forall n: nat | EndsAt(win, k, n, msgNo)
      ensures r == Complete(n)
    {
      ScanReaches(win, k, n - 1, msgNo);
    }
    forall i: nat | OpenRun(win, k, i, msgNo)
      ensures r == ScanMessage(win, i, msgNo)
    {
      ScanReaches(win, k, i, msgNo);
    }
  }

  function PacketsOf(win: seq<RecvEntry>, n: nat): (r: seq<Packet>)
    requires n <= |win| && forall i :: 0 <= i < n ==> win[i].Has()
    ensures |r| == n
  {
    seq(n, i requires 0 <= i < n && win[i].Has() => win[i].pkt.value)
  }

  datatype ReadResult = ReadResult(view: RecvView, pkts: Option<seq<Packet>>)

  /** readMessageInOrder, on a buffer whose head is available. */
  function ReadInOrder(v: RecvView): ReadResult
    requires ReadyHead(v)
  {
    var p := v.win[0].pkt.value;
    if p.pos.Single? then ReadResult(ReleaseFillers(PopHead(v)), Some([p]))
    else if !p.pos.First? then ReadResult(ReleaseFillers(PopHead(v)), None)
    else
      var scan := ScanMessage(v.win, 0, p.msgNo);
      match scan
      case Incomplete => ReadResult(v, None)
      case Corrupt => ReadResult(ReleaseFillers(PopHead(v)), None)
      case Complete(n) =>
        ScanMessageExact(v.win, 0, p.msgNo);
        ReadResult(ReleaseFillers(DropHead(v, n)), Some(PacketsOf(v.win, n)))
  }

  /** The first n slots hold a whole message, from its start to its end. */
  ghost predicate HeadMessage(win: seq<RecvEntry>, n: nat) {
    && |win| > 0 && win[0].Has() && win[0].pkt.value.pos.StartsMessage()
    && EndsAt(win, 0, n, win[0].pkt.value.msgNo)
  }

  /** The head starts a message of which a packet is missing. */
  ghost predicate HeadWaits(win: seq<RecvEntry>) {
    && |win| > 0 && win[0].Has() && win[0].pkt.value.pos.StartsMessage()
    && exists j: nat :: GapAt(win, 0, j, win[0].pkt.value.msgNo)
  }

  lemma HeadRun(win: seq<RecvEntry>, n: nat)
    requires HeadMessage(win, n)
    ensures 0 < n <= |win| && forall i :: 0 <= i < n ==> win[i].Has()
  {
  }

  lemma SingleEnds(win: seq<RecvEntry>)
    requires |win| > 0 && win[0].Has() && win[0].pkt.value.pos.Single?
    ensures forall n: nat :: HeadMessage(win, n) <==> n == 1
    ensures !HeadWaits(win)
  {
    assert HeadMessage(win, 1);
  }

  /**
   * The in-order read returns the message at the head exactly if all of it is held, leaves everything as
   * it is exactly if a packet of it is missing, and otherwise discards the head packet.
   */
  lemma ReadInOrderExact(v: RecvView, n: nat)
    requires ReadyHead(v)
    ensures HeadMessage(v.win, n) ==>
              && 0 < n <= |v.win| && (forall i :: 0 <= i < n ==> v.win[i].Has())
              && ReadInOrder(v) == ReadResult(ReleaseFillers(DropHead(v, n)), Some(PacketsOf(v.win, n)))
    ensures ReadInOrder(v).pkts.Some? <==> exists m: nat :: HeadMessage(v.win, m)
    ensures ReadInOrder(v) == ReadResult(v, None) <==> HeadWaits(v.win)
    ensures ReadInOrder(v).pkts.None? && !HeadWaits(v.win) ==>
              ReadInOrder(v) == ReadResult(ReleaseFillers(PopHead(v)), None)
  {
    hide ReleaseFillers, ScanMessage;
    var p := v.win[0].pkt.value;
    ScanMessageExact(v.win, 0, p.msgNo);
    if HeadMessage(v.win, n) {
      HeadRun(v.win, n);
    }
    if p.pos.Single? {
      SingleEnds(v.win);
      assert HeadMessage(v.win, 1);
      assert PacketsOf(v.win, 1) == [p] && DropHead(v, 1) == PopHead(v);
    } else if p.pos.First? {
      assert ScanMessage(v.win, 0, p.msgNo).Complete? ==> HeadMessage(v.win, ScanMessage(v.win, 0, p.msgNo).n);
    }
  }

  // ---- out-of-order messages ----

  /** win[f..l] is a complete message whose packets may all be delivered out of order. */
  ghost predicate CompleteMessage(win: seq<RecvEntry>, f: nat, l: nat) {
    && f <= l < |win| && win[f].OutOfOrder()
    && (forall i :: f <= i <= l ==> win[i].OutOfOrder() && win[i].pkt.value.msgNo == win[f].pkt.value.msgNo)
    && win[f].pkt.value.pos.StartsMessage()
    && win[l].pkt.value.pos.EndsMessage()
    && (forall i :: f <= i < l ==> !win[i].pkt.value.pos.EndsMessage())
    && (forall i :: f < i <= l ==> !win[i].pkt.value.pos.StartsMessage())
  }

  /** win[f..k) is the beginning of such a message, not yet ended. */
  ghost predicate OpenMessage(win: seq<RecvEntry>, f: nat, k: nat) {
    && f < k <= |win| && win[f].OutOfOrder()
    && (forall i :: f <= i < k ==> win[i].OutOfOrder() && win[i].pkt.value.msgNo == win[f].pkt.value.msgNo)
    && win[f].pkt.value.pos.StartsMessage()
    && (forall i :: f <= i < k ==> !win[i].pkt.value.pos.EndsMessage())
    && (forall i :: f < i < k ==> !win[i].pkt.value.pos.StartsMessage())
  }

  /** No complete out-of-order message ends before offset k. */
  ghost predicate NoneBefore(win: seq<RecvEntry>, k: nat) {
    forall f: nat, l: nat :: CompleteMessage(win, f, l) ==> k <= l
  }

  /** One step of the scan: the start of the message open at k, given the one open before k. */
  function ScanStep(open: Option<nat>, openMsg: int, k: nat, e: RecvEntry): Option<nat> {
    if !e.OutOfOrder() then None
    else if e.pkt.value.pos.StartsMessage() then Some(k)
    else if e.pkt.value.msgNo != openMsg then None
    else open
  }

  /** What the scan has established when it reaches offset k. */
  ghost predicate ScanInv(win: seq<RecvEntry>, k: nat, open: Option<nat>, openMsg: int) {
    && k <= |win|
    && NoneBefore(win, k)
    && (open.Some? ==> OpenMessage(win, open.value, k) && openMsg == win[open.value].pkt.value.msgNo)
    && (open.None? ==> openMsg == -1 && forall f: nat :: !OpenMessage(win, f, k))
  }

  /** A message ends at k exactly if the scan has one open there and the packet at k ends it. */
  lemma ScanFinds(win: seq<RecvEntry>, k: nat, open: Option<nat>, openMsg: int)
    requires ScanInv(win, k, open, openMsg) && k < |win|
    ensures var next := ScanStep(open, openMsg, k, win[k]);
            && (next.Some? && win[k].pkt.value.pos.EndsMessage() ==> CompleteMessage(win, next.value, k))
            && (next.Some? && !win[k].pkt.value.pos.EndsMessage() ==> OpenMessage(win, next.value, k + 1))
  {
  }

  lemma ScanMisses(win: seq<RecvEntry>, k: nat, open: Option<nat>, openMsg: int, f: nat)
    requires ScanInv(win, k, open, openMsg) && k < |win|
    ensures CompleteMessage(win, f, k) || OpenMessage(win, f, k + 1) ==> ScanStep(open, openMsg, k, win[k]).Some?
    ensures CompleteMessage(win, f, k) ==> win[k].pkt.value.pos.EndsMessage()
  {
    if CompleteMessage(win, f, k) || OpenMessage(win, f, k + 1) {
      if f < k {
        assert OpenMessage(win, f, k);
        assert open.Some?;
        var g := open.value;
        assert g == f;
      }
    }
  }

  /** The invariant survives a step that finds no end. */
  lemma ScanAdvances(win: seq<RecvEntry>, k: nat, open: Option<nat>, openMsg: int)
    requires ScanInv(win, k, open, openMsg) && k < |win|
    requires var next := ScanStep(open, openMsg, k, win[k]);
             next.None? || !win[k].pkt.value.pos.EndsMessage()
    ensures var next := ScanStep(open, openMsg, k, win[k]);
            ScanInv(win, k + 1, next, if next.Some? then win[k].pkt.value.msgNo else -1)
  {
    var next := ScanStep(open, openMsg, k, win[k]);
    ScanFinds(win, k, open, openMsg);
    forall f: nat, l: nat | CompleteMessage(win, f, l)
      ensures k + 1 <= l
    {
      if l == k {
        ScanMisses(win, k, open, openMsg, f);
        assert false;
      }
    }
    if next.None? {
      var k' := k + 1;
      forall f: nat
        ensures !OpenMessage(win, f, k')
      {
        ScanMisses(win, k, open, openMsg, f);
      }
    }
  }

  /** f..l is the complete out-of-order message that comes first. */
  ghost predicate Earliest(win: seq<RecvEntry>, f: nat, l: nat) {
    CompleteMessage(win, f, l) && forall g: nat, m: nat :: CompleteMessage(win, g, m) ==> f <= g
  }

  /** If there is a complete message there is an earliest one. */
  lemma {:induction false} SomeEarliest(win: seq<RecvEntry>, f: nat, l: nat)
    requires CompleteMessage(win, f, l)
    ensures exists g: nat, m: nat :: Earliest(win, g, m)
    decreases f
  {
    hide CompleteMessage;
    if g: nat, m: nat :| CompleteMessage(win, g, m) && g < f {
      SomeEarliest(win, g, m);
    } else {
      assert Earliest(win, f, l);
    }
  }

  /** Complete messages do not overlap, so the one that ends first also starts first. */
  lemma EndsFirstStartsFirst(win: seq<RecvEntry>, f: nat, l: nat)
    requires CompleteMessage(win, f, l) && NoneBefore(win, l)
    ensures Earliest(win, f, l)
  {
    forall g: nat, m: nat | CompleteMessage(win, g, m)
      ensures f <= g
    {
      assert l <= m;
    }
  }

  /** Once every out-of-order packet has been passed, no message can end further on. */
  lemma NoneLeft(win: seq<RecvEntry>, k: nat)
    requires k <= |win| && CountOutOfOrder(win[k..]) == 0 && NoneBefore(win, k)
    ensures forall f: nat, l: nat :: !CompleteMessage(win, f, l)
  {
    forall f: nat, l: nat | CompleteMessage(win, f, l)
      ensures false
    {
      CountPositive(win, k, l);
    }
  }

  lemma {:induction false} NothingOutOfOrder(win: seq<RecvEntry>)
    ensures CountOutOfOrder(win) == 0 ==> forall f: nat, l: nat :: !CompleteMessage(win, f, l)
  {
    assert win[0..] == win;
    if CountOutOfOrder(win) == 0 {
      NoneLeft(win, 0);
    }
  }

  lemma {:induction false} CountPositive(win: seq<RecvEntry>, k: nat, l: nat)
    requires k <= l < |win| && win[l].OutOfOrder()
    ensures CountOutOfOrder(win[k..]) > 0
    decreases l - k
  {
    if k < l {
      CountPositive(win, k + 1, l);
      assert win[k..][1..] == win[k + 1..];
    }
  }

  function MarkRead(e: RecvEntry): RecvEntry {
    e.(state := Read, pkt := None)
  }

  /** The window with offsets f .. l - 1 marked as read. */
  function MarkRange(win: seq<RecvEntry>, f: nat, l: nat): (r: seq<RecvEntry>)
    requires f <= l <= |win|
    ensures |r| == |win|
    ensures forall i :: 0 <= i < |win| ==> r[i] == if f <= i < l then MarkRead(win[i]) else win[i]
  {
    if f == l then win else MarkRange(win, f, l - 1)[l - 1 := MarkRead(win[l - 1])]
  }

  /** One offset after the other marked as read lowers the counts by one packet each. */
  lemma MarkCounts(win: seq<RecvEntry>, f: nat, l: nat)
    requires f <= l < |win| && win[l].Has()
    ensures CountAvailable(MarkRange(win, f, l + 1)) == CountAvailable(MarkRange(win, f, l)) - 1
    ensures CountOutOfOrder(MarkRange(win, f, l + 1))
         == CountOutOfOrder(MarkRange(win, f, l)) - (if win[l].pkt.value.order then 0 else 1)
  {
    CountUpdate(MarkRange(win, f, l), l, MarkRead(win[l]));
  }

  // ---- reading the cached message ----

  datatype Walked = Ended(l: nat) | Broken(k: nat)

  /** Walks from offset k to the packet that ends a message, or to the first slot that holds none. */
  function Walk(win: seq<RecvEntry>, k: nat): Walked
    decreases |win| - k
  {
    if k >= |win| || !win[k].Has() then Broken(k)
    else if win[k].pkt.value.pos.EndsMessage() then Ended(k)
    else Walk(win, k + 1)
  }

  ghost predicate AllHeld(win: seq<RecvEntry>, f: nat, k: nat) {
    k <= |win| && forall i :: f <= i < k ==> win[i].Has()
  }

  lemma {:induction false} WalkExact(win: seq<RecvEntry>, f: nat)
    ensures match Walk(win, f)
            case Ended(l) =>
              && f <= l && AllHeld(win, f, l + 1) && win[l].pkt.value.pos.EndsMessage()
              && forall i :: f <= i < l ==> !win[i].pkt.value.pos.EndsMessage()
            case Broken(k) =>
              && f <= k && (k == f || AllHeld(win, f, k)) && (k >= |win| || !win[k].Has())
              && forall i :: f <= i < k ==> !win[i].pkt.value.pos.EndsMessage()
    decreases |win| - f
  {
    if f < |win| && win[f].Has() && !win[f].pkt.value.pos.EndsMessage() {
      WalkExact(win, f + 1);
    }
  }

  /** A walk over held slots gets at least to the first packet that ends a message. */
  lemma {:induction false} WalkEnds(win: seq<RecvEntry>, f: nat, m: nat)
    requires f <= m && AllHeld(win, f, m + 1) && win[m].pkt.value.pos.EndsMessage()
    ensures Walk(win, f).Ended? && Walk(win, f).l <= m
    decreases m - f
  {
    if !win[f].pkt.value.pos.EndsMessage() {
      WalkEnds(win, f + 1, m);
    }
  }

  /** The packets at offsets f .. l. */
  ghost function PacketsFrom(win: seq<RecvEntry>, f: nat, l: nat): (r: seq<Packet>)
    requires f <= l && AllHeld(win, f, l + 1)
    ensures |r| == l + 1 - f
  {
    seq(l + 1 - f, i requires 0 <= i < l + 1 - f => win[f + i].pkt.value)
  }

  /**
   * readMessageOutOfOrder with the cache at offset f: the packets up to the end of the message, or
   * nothing. Slots walked over before the walk breaks off are marked read all the same.
   */
  ghost function ReadCached(v: RecvView, f: nat): ReadResult {
    WalkExact(v.win, f);
    match Walk(v.win, f)
    case Ended(l) => ReadResult(ReleaseFillers(v.(win := MarkRange(v.win, f, l + 1))), Some(PacketsFrom(v.win, f, l)))
    case Broken(k) => ReadResult(if k == f then v else v.(win := MarkRange(v.win, f, k)), None)
  }

  /** A complete message in the cache is read whole, and nothing else is touched. */
  lemma {:induction false} CompleteIsRead(v: RecvView, f: nat, l: nat)
    requires CompleteMessage(v.win, f, l)
    ensures Walk(v.win, f) == Ended(l) && AllHeld(v.win, f, l + 1)
    ensures ReadCached(v, f) == ReadResult(ReleaseFillers(v.(win := MarkRange(v.win, f, l + 1))),
                                           Some(PacketsFrom(v.win, f, l)))
  {
    WalkEnds(v.win, f, l);
    WalkExact(v.win, f);
    assert Walk(v.win, f).l == l;
  }

  /** ReadMessage: in order if the head is available, otherwise what the cache points to. */
  ghost function ReadAny(v: RecvView, cached: Option<nat>): ReadResult {
    if ReadyHead(v) then ReadInOrder(v)
    else if cached.None? then ReadResult(v, None)
    else ReadCached(v, cached.value)
  }

  /**
   * Without an available head a read returns nothing, whatever complete messages the window holds, if
   * and only if nothing is cached or the cached slot no longer begins a run of packets up to one that
   * ends a message.
   */
  lemma ReadMissesExactly(v: RecvView, cached: Option<nat>)
    requires !ReadyHead(v)
    ensures ReadAny(v, cached).pkts.None? <==>
              || cached.None?
              || !exists l :: l >= cached.value && AllHeld(v.win, cached.value, l + 1)
                              && v.win[l].pkt.value.pos.EndsMessage()
  {
    if cached.Some? {
      var f := cached.value;
      WalkExact(v.win, f);
      if Walk(v.win, f).Ended? {
        var l := Walk(v.win, f).l;
        assert l >= f && AllHeld(v.win, f, l + 1) && v.win[l].pkt.value.pos.EndsMessage();
      }
      if l :| l >= f && AllHeld(v.win, f, l + 1) && v.win[l].pkt.value.pos.EndsMessage() {
        WalkEnds(v.win, f, l);
      }
    }
  }

  // ---- completing a message on insertion ----

  /** Walks right from i over one message's packets to the one that ends it. */
  function EndRight(win: seq<RecvEntry>, i: nat, msgNo: nat): Option<nat>
    requires i < |win|
    decreases |win| - i
  {
    if i + 1 == |win| || !win[i + 1].Has() || win[i + 1].pkt.value.msgNo != msgNo then None
    else if win[i + 1].pkt.value.pos.EndsMessage() then Some(i + 1)
    else EndRight(win, i + 1, msgNo)
  }

  /** Walks left from i over one message's packets to the one that starts it. */
  function StartLeft(win: seq<RecvEntry>, i: nat, msgNo: nat): Option<nat>
    requires i < |win|
  {
    if i == 0 || !win[i - 1].Has() || win[i - 1].pkt.value.msgNo != msgNo then None
    else if win[i - 1].pkt.value.pos.StartsMessage() then Some(i - 1)
    else StartLeft(win, i - 1, msgNo)
  }

  /** The message start that the arrival of the packet at i makes readable, if it completes one. */
  function Completed(win: seq<RecvEntry>, i: nat): Option<nat>
    requires i < |win| && win[i].Has()
  {
    var p := win[i].pkt.value;
    if p.pos.Single? then Some(i)
    else if !(p.pos.Last? || EndRight(win, i, p.msgNo).Some?) then None
    else if p.pos.First? then Some(i)
    else StartLeft(win, i, p.msgNo)
  }

  /** win[f..l] are packets of one message, the first starting and the last ending it. */
  ghost predicate Run(win: seq<RecvEntry>, f: nat, l: nat, msgNo: nat) {
    && f <= l < |win|
    && (forall i :: f <= i <= l ==> win[i].Has() && win[i].pkt.value.msgNo == msgNo)
    && win[f].pkt.value.pos.StartsMessage() && win[l].pkt.value.pos.EndsMessage()
  }

  lemma {:induction false} EndRightExact(win: seq<RecvEntry>, i: nat, msgNo: nat)
    requires i < |win|
    ensures EndRight(win, i, msgNo).Some? <==>
              exists l :: i < l < |win| && win[l].Has() && win[l].pkt.value.pos.EndsMessage()
                          && forall j :: i < j <= l ==> win[j].Has() && win[j].pkt.value.msgNo == msgNo
    decreases |win| - i
  {
    if i + 1 < |win| && win[i + 1].Has() && win[i + 1].pkt.value.msgNo == msgNo {
      if win[i + 1].pkt.value.pos.EndsMessage() {
        var l := i + 1;
        assert i < l < |win| && win[l].Has() && win[l].pkt.value.pos.EndsMessage();
      } else {
        EndRightExact(win, i + 1, msgNo);
      }
    }
  }

  lemma {:induction false} StartLeftExact(win: seq<RecvEntry>, i: nat, msgNo: nat)
    requires i < |win|
    ensures StartLeft(win, i, msgNo).Some? ==>
              var f := StartLeft(win, i, msgNo).value;
              f < i && win[f].Has() && win[f].pkt.value.pos.StartsMessage()
              && forall j :: f <= j < i ==> win[j].Has() && win[j].pkt.value.msgNo == msgNo
    ensures StartLeft(win, i, msgNo).None? ==>
              !exists f :: 0 <= f < i && win[f].Has() && win[f].pkt.value.pos.StartsMessage()
                           && forall j :: f <= j < i ==> win[j].Has() && win[j].pkt.value.msgNo == msgNo
  {
    if i > 0 && win[i - 1].Has() && win[i - 1].pkt.value.msgNo == msgNo && !win[i - 1].pkt.value.pos.StartsMessage() {
      StartLeftExact(win, i - 1, msgNo);
    }
  }

  /** An arrival makes a message readable exactly if it lies on a run that starts and ends it. */
  lemma CompletedExact(win: seq<RecvEntry>, i: nat)
    requires i < |win| && win[i].Has()
    ensures Completed(win, i).Some? <==> exists f: nat, l: nat :: f <= i <= l && Run(win, f, l, win[i].pkt.value.msgNo)
    ensures Completed(win, i).Some? ==>
              exists l: nat ::
                Completed(win, i).value <= i <= l && Run(win, Completed(win, i).value, l, win[i].pkt.value.msgNo)
  {
    var p := win[i].pkt.value;
    EndRightExact(win, i, p.msgNo);
    StartLeftExact(win, i, p.msgNo);
    if Completed(win, i).Some? {
      var l: nat;
      if p.pos.EndsMessage() {
        l := i;
      } else {
        l :| i < l < |win| && win[l].Has() && win[l].pkt.value.pos.EndsMessage()
             && forall j :: i < j <= l ==> win[j].Has() && win[j].pkt.value.msgNo == p.msgNo;
      }
      assert Run(win, Completed(win, i).value, l, p.msgNo);
    }
    if f: nat, l: nat :| f <= i <= l && Run(win, f, l, p.msgNo) {
      assert f < i ==> win[f].Has();
      assert i < l ==> win[l].Has();
    }
  }

  /** The run that an arrival completes, from its start to the first packet that ends a message. */
  lemma CompletedWalk(win: seq<RecvEntry>, i: nat) returns (l: nat)
    requires i < |win| && win[i].Has() && Completed(win, i).Some?
    ensures var f := Completed(win, i).value;
            && f <= i && f <= l && Walk(win, f) == Ended(l) && AllHeld(win, f, l + 1)
            && win[f].pkt.value.pos.StartsMessage()
            && win[l].pkt.value.pos.EndsMessage()
            && (forall k :: f <= k <= l ==> win[k].Has() && win[k].pkt.value.msgNo == win[i].pkt.value.msgNo)
            && (forall k :: f <= k < l ==> !win[k].pkt.value.pos.EndsMessage())
  {
    CompletedExact(win, i);
    var f := Completed(win, i).value;
    var m: nat :| f <= i <= m && Run(win, f, m, win[i].pkt.value.msgNo);
    WalkEnds(win, f, m);
    WalkExact(win, f);
    l := Walk(win, f).l;
  }

  /**
   * What an insertion caches is a complete out-of-order message if and only if no packet up to its end
   * carries the order bit and none after the first starts a message.
   */
  lemma CompletedIsMessage(win: seq<RecvEntry>, i: nat) returns (l: nat)
    requires i < |win| && win[i].Has() && Completed(win, i).Some?
    ensures var f := Completed(win, i).value;
            && f <= l && AllHeld(win, f, l + 1)
            && ((exists m: nat :: CompleteMessage(win, f, m)) <==>
                  (forall k :: f <= k <= l ==>
                     !win[k].pkt.value.order && (k > f ==> !win[k].pkt.value.pos.StartsMessage())))
  {
    l := CompletedWalk(win, i);
    var f := Completed(win, i).value;
    if forall k :: f <= k <= l ==> !win[k].pkt.value.order && (k > f ==> !win[k].pkt.value.pos.StartsMessage()) {
      assert CompleteMessage(win, f, l);
    }
    if m: nat :| CompleteMessage(win, f, m) {
      CompleteIsRead(RecvView(0, win), f, m);
      assert m == l;
    }
  }

  /** Neighbours of one message agree on the order bit; only its first packet starts it and only its last ends it. */
  ghost predicate Framed(win: seq<RecvEntry>) {
    forall i, j ::
      (0 <= i < j < |win| && j == i + 1 && win[i].Has() && win[j].Has()
       && win[i].pkt.value.msgNo == win[j].pkt.value.msgNo) ==>
        && win[i].pkt.value.order == win[j].pkt.value.order
        && !win[i].pkt.value.pos.EndsMessage() && !win[j].pkt.value.pos.StartsMessage()
  }

  lemma {:induction false} FramedRun(win: seq<RecvEntry>, f: nat, k: nat)
    requires Framed(win) && f <= k < |win| && win[f].Has() && win[k].Has()
    requires forall i :: f <= i <= k ==> win[i].Has() && win[i].pkt.value.msgNo == win[f].pkt.value.msgNo
    ensures win[k].pkt.value.order == win[f].pkt.value.order && (k > f ==> !win[k].pkt.value.pos.StartsMessage())
    decreases k - f
  {
    if k > f {
      FramedRun(win, f, k - 1);
      assert win[k - 1].Has() && win[k].Has();
    }
  }

  /** With well-framed messages, what an out-of-order arrival caches is always a complete message. */
  lemma FramedArrivalCaches(win: seq<RecvEntry>, i: nat)
    requires Framed(win) && i < |win| && win[i].OutOfOrder() && Completed(win, i).Some?
    ensures exists m: nat :: CompleteMessage(win, Completed(win, i).value, m)
  {
    var f := Completed(win, i).value;
    var w := CompletedWalk(win, i);
    CompletedExact(win, i);
    var m: nat :| f <= i <= m && Run(win, f, m, win[i].pkt.value.msgNo);
    FramedRun(win, f, i);
    forall k | f <= k <= w
      ensures !win[k].pkt.value.order && (k > f ==> !win[k].pkt.value.pos.StartsMessage())
    {
      assert win[k].Has();
      FramedRun(win, f, k);
    }
    assert CompleteMessage(win, f, w);
  }
}
