/**
 * The receive ring (internal/buffer/recv.go), proved to compute the functions of RecvWindow.
 */
module RecvRing {
  import opened SeqNum
  import opened Bits
  import opened Ring
  import opened Packets
  import opened RecvWindow
  import SendRing

  class RecvBuffer {
    const entries: array<RecvEntry>
    const mask: nat
    var startSeq: Num
    var maxSeq: Num
    var size: nat
    var numOutOfOrderPkts: nat
    var firstReadableOOO: int
    var messageAPI: bool

    ghost var view: RecvView

    ghost predicate Valid()
      reads this, entries
    {
      && IsCapacity(entries.Length) && mask == entries.Length - 1
      && startSeq == Wrap(view.base)
      && maxSeq == Wrap(view.Max())
      && |view.win| < entries.Length
      && view.WellFormed()
      && size == CountAvailable(view.win)
      && numOutOfOrderPkts == (if messageAPI then CountOutOfOrder(view.win) else 0)
      && -1 <= firstReadableOOO < entries.Length
      && Holds(entries[..], view.base, view.win, NO_PACKET)
    }

    ghost function Box(): Mailbox
      reads this
    {
      Mailbox(view, firstReadableOOO, entries.Length)
    }

    constructor (capacity: int, initialSeq: Num, message: bool, ghost isn: int)
      requires capacity <= Pow2(29) && initialSeq == Wrap(isn)
      ensures Valid() && fresh(entries)
      ensures entries.Length == NextPow2(capacity) && entries.Length >= capacity
      ensures view == RecvView(isn, []) && messageAPI == message && firstReadableOOO == -1
    {
      hide Wrap, NextPow2, Pow2;
      var cap2 := NextPow2(capacity);
      SendRing.CapacityOf(capacity);
      entries := new RecvEntry[cap2](_ => NO_PACKET);
      mask := cap2 - 1;
      startSeq := initialSeq;
      maxSeq := initialSeq;
      size := 0;
      numOutOfOrderPkts := 0;
      firstReadableOOO := -1;
      messageAPI := message;
      view := RecvView(isn, []);
      new;
      HoldsNothing(entries[..], isn, NO_PACKET);
    }

    // ---- slots ----

    /** The slot of wire number s, which lies i places past the start. */
    method Peek(s: Num, ghost i: nat) returns (e: RecvEntry)
      requires Valid() && i < entries.Length && s == Wrap(view.base + i)
      ensures e == Slot(view, i)
      ensures Index(s, mask) == Spot(view.base + i, entries.Length)
    {
      IndexIsSlot(view.base + i, entries.Length);
      HoldsAt(entries[..], view.base, view.win, NO_PACKET, i);
      e := entries[Index(s, mask)];
    }

    /** Clears the head slot and advances startSeq, whatever the head holds. */
    method ClearHead()
      requires Valid() && |view.win| > 0
      modifies this, entries
      ensures view == PopHead(old(view)) && startSeq == Wrap(view.base)
      ensures view.WellFormed() && Holds(entries[..], view.base, view.win, NO_PACKET)
      ensures CountAvailable(old(view).win) == CountAvailable(view.win)
              + (if old(view).win[0].state.Available? then 1 else 0)
      ensures CountOutOfOrder(old(view).win) == CountOutOfOrder(view.win)
              + (if old(view).win[0].OutOfOrder() then 1 else 0)
      ensures maxSeq == old(maxSeq) && size == old(size) && messageAPI == old(messageAPI)
      ensures numOutOfOrderPkts == old(numOutOfOrderPkts) && firstReadableOOO == old(firstReadableOOO)
    {
      hide Index, Wrap, Spot, Inc;
      IndexIsSlot(view.base, entries.Length);
      HoldsPop(entries[..], view.base, view.win, NO_PACKET);
      var idx := Index(startSeq, mask);
      ghost var before := entries[..];
      entries[idx] := NO_PACKET;
      assert entries[..] == before[idx := NO_PACKET];
      WrapArith(view.base, 0);
      startSeq := Inc(startSeq);
      view := PopHead(view);
    }

    /** Consumes the available packet at the head, keeping both counters exact. */
    method ConsumeHead() returns (p: Packet)
      requires Valid() && ReadyHead(view)
      modifies this, entries
      ensures Valid() && messageAPI == old(messageAPI)
      ensures firstReadableOOO == old(firstReadableOOO)
      ensures p == old(view).win[0].pkt.value && view == PopHead(old(view))
    {
      var e := Peek(startSeq, 0);
      p := e.pkt.value;
      ClearHead();
      if numOutOfOrderPkts > 0 && !p.order {
        numOutOfOrderPkts := numOutOfOrderPkts - 1;
      }
      size := size - 1;
    }

    method ReleaseFillerEntries()
      requires Valid()
      modifies this, entries
      ensures Valid() && messageAPI == old(messageAPI)
      ensures firstReadableOOO == old(firstReadableOOO)
      ensures view == ReleaseFillers(old(view))
    {
      hide Wrap, LessThan;
      CapacityBounds(entries.Length);
      WireOrderIsTrueOrder(view.base, view.Max());
      while LessThan(startSeq, maxSeq)
        invariant Valid() && messageAPI == old(messageAPI)
        invariant firstReadableOOO == old(firstReadableOOO)
        invariant ReleaseFillers(view) == ReleaseFillers(old(view))
        invariant LessThan(startSeq, maxSeq) <==> |view.win| > 0
        decreases |view.win|
      {
        var e := Peek(startSeq, 0);
        if !e.state.Read? {
          break;
        }
        ClearHead();
        WireOrderIsTrueOrder(view.base, view.Max());
      }
    }

    // ---- insertion ----

    method Insert(p: Packet, arrivalTS: int) returns (result: InsertResult)
      requires Valid()
      modifies this, entries
      ensures Valid() && messageAPI == old(messageAPI)
      ensures var at := Placed(old(view), p.seqNo, entries.Length);
              && (at.None? ==> result == REFUSED && view == old(view) && firstReadableOOO == old(firstReadableOOO))
              && (at.Some? ==>
                    && result == Report(old(view), at.value, p.seqNo)
                    && view == InsertAt(old(view), at.value, p, arrivalTS)
                    && at.value < |view.win| && view.win[at.value].Has()
                    && firstReadableOOO ==
                       if messageAPI && !p.order && old(firstReadableOOO) < 0
                       then SlotOf(Completed(view.win, at.value)) else old(firstReadableOOO))
      ensures messageAPI && entries.Length > 0 ==> Box() == InsertBox(old(Box()), p, arrivalTS)
    {
      hide Wrap, Spot, Index;
      var at := Admit(p.seqNo);
      if at.None? {
        return REFUSED;
      }
      result := Accept(p, arrivalTS, at.value);
      if messageAPI && !p.order {
        IndexIsSlot(view.base + at.value, entries.Length);
        WrapFromDistance(view.base, p.seqNo);
        OnInsertNotInOrderPacket(Index(p.seqNo, mask), at.value);
      }
    }

    /** The three tests an arriving number must pass: not too old, not too far ahead, not a duplicate. */
    method Admit(s: Num) returns (at: Option<nat>)
      requires Valid()
      ensures at == Placed(view, s, entries.Length)
      ensures at.Some? ==> s == Wrap(view.base + at.value)
    {
      CapacityBounds(entries.Length);
      DistanceCongruent(s, startSeq);
      if LessThan(s, startSeq) {
        return None;
      }
      var dist := Distance(startSeq, s);
      if dist < 0 || dist >= entries.Length - 1 {
        return None;
      }
      WrapFromDistance(view.base, s);
      var e := Peek(s, dist);
      at := if e.state.Empty? then Some(dist) else None;
    }

    /** Stores an admitted packet, advances maxSeq and reports the gap it opens. */
    method Accept(p: Packet, arrivalTS: int, i: nat) returns (result: InsertResult)
      requires Valid() && i < entries.Length - 1 && p.seqNo == Wrap(view.base + i) && Slot(view, i).state.Empty?
      modifies this, entries
      ensures Valid() && messageAPI == old(messageAPI)
      ensures firstReadableOOO == old(firstReadableOOO)
      ensures view == InsertAt(old(view), i, p, arrivalTS)
      ensures result == Report(old(view), i, p.seqNo)
    {
      result := InsertResult(true, 0, 0);
      var opens, grows, next := Frontier(p.seqNo, i);
      if opens {
        result := InsertResult(true, maxSeq, Dec(p.seqNo));
      }
      StorePacket(p, arrivalTS, i);
      if grows {
        maxSeq := next;
      }
      if messageAPI && !p.order {
        numOutOfOrderPkts := numOutOfOrderPkts + 1;
      }
    }

    /** Compares an admitted number with maxSeq: does it open a gap, does it extend the window, and to where. */
    method Frontier(s: Num, ghost i: nat) returns (opens: bool, grows: bool, next: Num)
      requires Valid() && i < entries.Length && s == Wrap(view.base + i)
      ensures opens <==> 0 < |view.win| < i
      ensures grows <==> |view.win| <= i
      ensures next == Wrap(view.base + i + 1)
    {
      hide Wrap, Inc, LessThan, CountAvailable, CountOutOfOrder, Holds;
      CapacityBounds(entries.Length);
      WireOrderIsTrueOrder(view.base, view.Max());
      WireOrderIsTrueOrder(view.Max(), view.base + i);
      opens := maxSeq != startSeq && LessThan(maxSeq, s);
      WrapArith(view.base + i, 0);
      next := Inc(s);
      WireOrderIsTrueOrder(view.Max(), view.base + i + 1);
      grows := LessThan(maxSeq, next) || maxSeq == startSeq;
    }

    /** Fills the empty slot i places past the start. */
    method StorePacket(p: Packet, arrivalTS: int, i: nat)
      requires Valid() && i < entries.Length - 1 && p.seqNo == Wrap(view.base + i) && Slot(view, i).state.Empty?
      modifies this`size, this`view, entries
      ensures view == InsertAt(old(view), i, p, arrivalTS) && size == CountAvailable(view.win)
      ensures CountOutOfOrder(view.win) == CountOutOfOrder(old(view).win) + (if p.order then 0 else 1)
      ensures view.WellFormed() && Holds(entries[..], view.base, view.win, NO_PACKET)
    {
      hide Index, Wrap, Spot;
      var e := RecvEntry(Some(p), Available, arrivalTS);
      var idx := Index(p.seqNo, mask);
      IndexIsSlot(view.base + i, entries.Length);
      HoldsPut(entries[..], view.base, view.win, NO_PACKET, i, e);
      InsertCounts(view, i, p, arrivalTS);
      ghost var before := entries[..];
      entries[idx] := e;
      assert entries[..] == before[idx := e];
      size := size + 1;
      view := InsertAt(view, i, p, arrivalTS);
    }

    /** Ring index of an optional window offset, or -1. */
    ghost function SlotOf(o: Option<nat>): int
      reads this, entries
      requires entries.Length > 0
    {
      if o.Some? then Spot(view.base + o.value, entries.Length) else -1
    }

    method OnInsertNotInOrderPacket(insertPos: nat, ghost i: nat)
      requires Valid() && i < |view.win| && view.win[i].OutOfOrder() && messageAPI
      requires insertPos == Spot(view.base + i, entries.Length)
      modifies this`firstReadableOOO
      ensures Valid()
      ensures firstReadableOOO ==
              if old(firstReadableOOO) >= 0 then old(firstReadableOOO) else SlotOf(Completed(view.win, i))
    {
      hide Wrap, Spot;
      CountPositive(view.win, 0, i);
      assert view.win[0..] == view.win;
      if numOutOfOrderPkts == 0 || firstReadableOOO >= 0 {
        return;
      }
      HoldsAt(entries[..], view.base, view.win, NO_PACKET, i);
      var pp, msgNo := entries[insertPos].pkt.value.pos, entries[insertPos].pkt.value.msgNo;
      if pp.Single? {
        firstReadableOOO := insertPos;
        return;
      }
      var right := ScanNotInOrderMessageRight(insertPos, msgNo, i);
      var hasLast := pp.Last? || right >= 0;
      if !hasLast {
        return;
      }
      var firstPktPos: int := insertPos;
      if !pp.First? {
        firstPktPos := ScanNotInOrderMessageLeft(insertPos, msgNo, i);
      }
      if firstPktPos < 0 {
        return;
      }
      firstReadableOOO := firstPktPos;
    }

    /** The entry right of ring index at, wrapping around. */
    method StepRight(at: nat, ghost k: nat) returns (next: nat, entry: RecvEntry)
      requires Valid() && k + 1 < |view.win| && at == Spot(view.base + k, entries.Length)
      ensures next == Spot(view.base + k + 1, entries.Length) && entry == view.win[k + 1]
    {
      hide Wrap, Spot, And, CountAvailable, CountOutOfOrder;
      NextSlot(view.base + k, entries.Length);
      HoldsAt(entries[..], view.base, view.win, NO_PACKET, k + 1);
      next := And(at + 1, mask);
      entry := entries[next];
    }

    /** The entry left of ring index at, wrapping around. */
    method StepLeft(at: nat, ghost k: nat) returns (next: nat, entry: RecvEntry)
      requires Valid() && 0 < k < |view.win| && at == Spot(view.base + k, entries.Length)
      ensures next == Spot(view.base + k - 1, entries.Length) && entry == view.win[k - 1]
    {
      hide Wrap, Spot, And, CountAvailable, CountOutOfOrder;
      PrevSlot(view.base + k, entries.Length);
      HoldsAt(entries[..], view.base, view.win, NO_PACKET, k - 1);
      next := And(at - 1 + entries.Length, mask);
      entry := entries[next];
    }

    method ScanNotInOrderMessageRight(startPos: nat, msgNo: nat, ghost i: nat) returns (pos: int)
      requires Valid() && i < |view.win| && startPos == Spot(view.base + i, entries.Length)
      ensures pos == SlotOf(EndRight(view.win, i, msgNo))
    {
      hide Wrap, Spot;
      var maxOff, lastPos := LastOccupied();
      if maxOff <= 0 {
        return -1;
      }
      SlotInjective(view.base + i, view.Max() - 1, entries.Length);
      if startPos == lastPos {
        return -1;
      }
      var at: nat := startPos;
      ghost var k := i;
      while true
        invariant i <= k < |view.win| - 1 && at == Spot(view.base + k, entries.Length)
        invariant EndRight(view.win, k, msgNo) == EndRight(view.win, i, msgNo)
        decreases |view.win| - k
      {
        var entry;
        at, entry := StepRight(at, k);
        k := k + 1;
        if !entry.state.Available? {
          break;
        }
        if entry.pkt.value.msgNo != msgNo {
          return -1;
        }
        if entry.pkt.value.pos.EndsMessage() {
          return at;
        }
        SlotInjective(view.base + k, view.Max() - 1, entries.Length);
        if at == lastPos {
          break;
        }
      }
      pos := -1;
    }

    /** Offset and ring index of the last occupied slot. */
    method LastOccupied() returns (maxOff: int, lastPos: nat)
      requires Valid() && |view.win| > 0
      ensures maxOff == |view.win| - 1 && lastPos == Spot(view.Max() - 1, entries.Length)
    {
      CapacityBounds(entries.Length);
      WrapArith(view.Max(), 0);
      WireOrderIsTrueOrder(view.base, view.Max() - 1);
      MaskedSum(view.base, |view.win| - 1, entries.Length);
      maxOff := Distance(startSeq, Dec(maxSeq));
      lastPos := And(startSeq + maxOff, mask);
    }

    method ScanNotInOrderMessageLeft(startPos: nat, msgNo: nat, ghost i: nat) returns (pos: int)
      requires Valid() && i < |view.win| && startPos == Spot(view.base + i, entries.Length)
      ensures pos == SlotOf(StartLeft(view.win, i, msgNo))
    {
      hide Wrap, Spot, Index;
      IndexIsSlot(view.base, entries.Length);
      var startIdx := Index(startSeq, mask);
      SlotInjective(view.base, view.base + i, entries.Length);
      if startPos == startIdx {
        return -1;
      }
      var at: nat := startPos;
      ghost var k := i;
      while true
        invariant 0 < k <= i && at == Spot(view.base + k, entries.Length)
        invariant StartLeft(view.win, k, msgNo) == StartLeft(view.win, i, msgNo)
        decreases k
      {
        var entry;
        at, entry := StepLeft(at, k);
        k := k - 1;
        if !entry.state.Available? || entry.pkt.value.msgNo != msgNo {
          return -1;
        }
        if entry.pkt.value.pos.StartsMessage() {
          return at;
        }
        SlotInjective(view.base, view.base + k, entries.Length);
        if at == startIdx {
          break;
        }
      }
      pos := -1;
    }

    // ---- reads ----

    method ReadNext() returns (p: Option<Packet>)
      requires Valid() && !messageAPI
      modifies this, entries
      ensures Valid() && messageAPI == old(messageAPI)
      ensures firstReadableOOO == old(firstReadableOOO)
      ensures p == (if ReadyHead(old(view)) then old(view).win[0].pkt else None)
      ensures view == if ReadyHead(old(view)) then PopHead(old(view)) else old(view)
    {
      var e := Peek(startSeq, 0);
      if !e.state.Available? {
        return None;
      }
      var q := ConsumeHead();
      p := Some(q);
    }

    method CanReadInOrder() returns (b: bool)
      requires Valid()
      ensures b <==> ReadyHead(view)
    {
      var e := Peek(startSeq, 0);
      b := e.state.Available?;
    }

    /** readMessageLocked: in order if the head is available, otherwise what the cache points to. */
    method ReadMessage() returns (pkts: Option<seq<Packet>>)
      requires Valid() && messageAPI
      modifies this, entries
      ensures Valid() && messageAPI
      ensures ReadResult(view, pkts) == ReadAny(old(view), Cached(old(view), old(firstReadableOOO), entries.Length))
      ensures !ReadyHead(old(view)) && pkts.None? ==> firstReadableOOO == -1
      ensures !ReadyHead(old(view)) && pkts.Some? ==> Rescanned(view, -1, firstReadableOOO, entries.Length)
      ensures ReadyHead(old(view)) && view == old(view) ==> firstReadableOOO == old(firstReadableOOO)
      ensures ReadyHead(old(view)) && view != old(view) ==>
                Rescanned(view, old(firstReadableOOO), firstReadableOOO, entries.Length)
      ensures CountOutOfOrder(view.win) == 0 && old(firstReadableOOO) < 0 ==> firstReadableOOO == -1
      ensures entries.Length > 0 && Reading(Box(), pkts) == ReadBox(old(Box()))
    {
      hide Wrap, Spot, CountAvailable, CountOutOfOrder, Holds, CompleteMessage, ReadInOrder, ReadCached,
           ReleaseFillers, Rescan, Rescanned;
      ghost var v, cache := view, firstReadableOOO;
      CapacityBounds(entries.Length);
      var inOrder := CanReadInOrder();
      if !inOrder && firstReadableOOO < 0 {
        return None;
      }
      if inOrder {
        pkts := ReadMessageInOrder();
      } else {
        pkts := ReadMessageOutOfOrder();
      }
      RescanExact(view, cache, firstReadableOOO, entries.Length);
      RescanExact(view, -1, firstReadableOOO, entries.Length);
      RescanNothing(view, cache, firstReadableOOO, entries.Length);
    }

    /** What every in-order branch does after consuming: release fillers, rescan for out-of-order messages. */
    method AfterRead()
      requires Valid()
      modifies this, entries
      ensures Valid() && messageAPI == old(messageAPI)
      ensures view == ReleaseFillers(old(view))
      ensures messageAPI ==> Rescanned(view, old(firstReadableOOO), firstReadableOOO, entries.Length)
      ensures !messageAPI ==> firstReadableOOO == old(firstReadableOOO)
    {
      ReleaseFillerEntries();
      if messageAPI {
        UpdateFirstReadableOutOfOrder();
      }
    }

    method ReadMessageInOrder() returns (pkts: Option<seq<Packet>>)
      requires Valid() && ReadyHead(view)
      modifies this, entries
      ensures Valid() && messageAPI == old(messageAPI)
      ensures ReadResult(view, pkts) == ReadInOrder(old(view))
      ensures view == old(view) ==> firstReadableOOO == old(firstReadableOOO)
      ensures view != old(view) && messageAPI ==>
                Rescanned(view, old(firstReadableOOO), firstReadableOOO, entries.Length)
    {
      hide Wrap;
      var head := Peek(startSeq, 0);
      var pp := head.pkt.value.pos;
      if pp.Single? {
        var p := ConsumeHead();
        AfterRead();
        return Some([p]);
      }
      if !pp.First? {
        var p := ConsumeHead();
        AfterRead();
        return None;
      }
      var scan := ScanFragments(head.pkt.value.msgNo);
      if scan.Incomplete? {
        return None;
      }
      if scan.Corrupt? {
        var p := ConsumeHead();
        AfterRead();
        return None;
      }
      ScanMessageExact(view.win, 0, head.pkt.value.msgNo);
      var ps := ConsumeRun(scan.n);
      AfterRead();
      pkts := Some(ps);
    }

    /** The forward scan of readMessageInOrder over the fragments from the head on. */
    method ScanFragments(msgNo: nat) returns (r: Scan)
      requires Valid()
      ensures r == ScanMessage(view.win, 0, msgNo)
    {
      var s := startSeq;
      var count := 0;
      while true
        invariant 0 <= count <= |view.win| && s == Wrap(view.base + count)
        invariant ScanMessage(view.win, count, msgNo) == ScanMessage(view.win, 0, msgNo)
        decreases |view.win| - count
      {
        var e := Peek(s, count);
        if !e.state.Available? {
          return Incomplete;
        }
        if e.pkt.value.msgNo != msgNo {
          return Corrupt;
        }
        count := count + 1;
        if e.pkt.value.pos.EndsMessage() {
          return Complete(count);
        }
        WrapArith(view.base + count - 1, 0);
        s := Inc(s);
      }
    }

    /** Consumes the first count packets, all of them available. */
    method ConsumeRun(count: nat) returns (ps: seq<Packet>)
      requires Valid() && count <= |view.win| && forall i :: 0 <= i < count ==> view.win[i].Has()
      modifies this, entries
      ensures Valid() && messageAPI == old(messageAPI)
      ensures firstReadableOOO == old(firstReadableOOO)
      ensures ps == PacketsOf(old(view).win, count) && view == DropHead(old(view), count)
    {
      ps := [];
      var i := 0;
      while i < count
        invariant 0 <= i <= count
        invariant Valid() && messageAPI == old(messageAPI)
        invariant firstReadableOOO == old(firstReadableOOO)
        invariant view == DropHead(old(view), i) && ps == PacketsOf(old(view).win, i)
      {
        assert view.win[0] == old(view).win[i];
        var p := ConsumeHead();
        ps := ps + [p];
        i := i + 1;
      }
    }

    /**
     * From the -1 state with no readable head, the circular scan caches the start of the earliest
     * complete out-of-order message, and leaves -1 exactly when there is none.
     */
    method UpdateFirstReadableOutOfOrder()
      requires Valid() && messageAPI
      modifies this`firstReadableOOO
      ensures Valid()
      ensures Rescanned(view, old(firstReadableOOO), firstReadableOOO, entries.Length)
    {
      hide Wrap, Spot, And, Index, Distance;
      var ready := CanReadInOrder();
      if ready || numOutOfOrderPkts <= 0 || firstReadableOOO >= 0 {
        NothingOutOfOrder(view.win);
        return;
      }
      CapacityBounds(entries.Length);
      WireOrderIsTrueOrder(view.base, view.Max());
      if startSeq == maxSeq {
        return;
      }
      var maxOff := Distance(startSeq, maxSeq);
      if maxOff <= 0 {
        return;
      }
      MaskedSum(view.base, maxOff - 1, entries.Length);
      IndexIsSlot(view.base, entries.Length);
      var lastPos := And(startSeq + maxOff - 1, mask);
      var startIdx := Index(startSeq, mask);
      var found := ScanOutOfOrder(startIdx, lastPos);
      if found >= 0 {
        firstReadableOOO := found;
      }
    }

    /** The scanning loop of updateFirstReadableOutOfOrder. */
    method ScanOutOfOrder(startIdx: nat, lastPos: nat) returns (found: int)
      requires Valid() && messageAPI && |view.win| > 0
      requires startIdx == Spot(view.base, entries.Length) && lastPos == Spot(view.Max() - 1, entries.Length)
      ensures -1 <= found < entries.Length
      ensures found == -1 ==> forall f: nat, l: nat :: !CompleteMessage(view.win, f, l)
      ensures found >= 0 ==>
                exists f: nat, l: nat :: Earliest(view.win, f, l) && found == Spot(view.base + f, entries.Length)
    {
      hide Wrap, Spot;
      var oooRemain := numOutOfOrderPkts;
      var posFirst: int, msgNo: int := -1, -1;
      var pos := startIdx;
      ghost var k: nat, open: Option<nat> := 0, None;
      assert view.win[0..] == view.win;
      while oooRemain > 0
        invariant k < |view.win| && pos == Spot(view.base + k, entries.Length)
        invariant oooRemain == CountOutOfOrder(view.win[k..])
        invariant ScanInv(view.win, k, open, msgNo) && posFirst == SlotOf(open)
        decreases |view.win| - k
      {
        var hit;
        ghost var next;
        posFirst, msgNo, oooRemain, hit, next := Consider(pos, posFirst, msgNo, oooRemain, k, open);
        if hit {
          EndsFirstStartsFirst(view.win, next.value, k);
          return posFirst;
        }
        var atEnd;
        atEnd, pos := Advance(pos, lastPos, k);
        open, k := next, k + 1;
        if atEnd {
          break;
        }
      }
      NoneLeft(view.win, k);
      found := -1;
    }

    /** Is ring index pos the last occupied slot, and which index comes next. */
    method Advance(pos: nat, lastPos: nat, ghost k: nat) returns (atEnd: bool, next: nat)
      requires Valid() && k < |view.win| && pos == Spot(view.base + k, entries.Length)
      requires lastPos == Spot(view.Max() - 1, entries.Length)
      ensures atEnd <==> k + 1 == |view.win|
      ensures next == Spot(view.base + k + 1, entries.Length)
    {
      hide Wrap, Spot, And, CountAvailable, CountOutOfOrder;
      SlotInjective(view.base + k, view.Max() - 1, entries.Length);
      atEnd := pos == lastPos;
      NextSlot(view.base + k, entries.Length);
      next := And(pos + 1, mask);
    }

    /** One turn of the scanning loop: where the open message starts now, and whether it ends here. */
    method Consider(pos: nat, posFirst: int, msgNo: int, oooRemain: nat, ghost k: nat, ghost open: Option<nat>)
      returns (posFirst': int, msgNo': int, oooRemain': nat, hit: bool, ghost next: Option<nat>)
      requires Valid() && messageAPI && k < |view.win| && pos == Spot(view.base + k, entries.Length)
      requires oooRemain == CountOutOfOrder(view.win[k..])
      requires ScanInv(view.win, k, open, msgNo) && posFirst == SlotOf(open)
      ensures oooRemain' == CountOutOfOrder(view.win[k + 1..])
      ensures posFirst' == SlotOf(next)
      ensures hit ==> next.Some? && CompleteMessage(view.win, next.value, k) && NoneBefore(view.win, k)
      ensures !hit ==> ScanInv(view.win, k + 1, next, msgNo')
    {
      next := ScanStep(open, msgNo, k, view.win[k]);
      HoldsAt(entries[..], view.base, view.win, NO_PACKET, k);
      ScanFinds(view.win, k, open, msgNo);
      assert view.win[k..][1..] == view.win[k + 1..];
      posFirst', msgNo', oooRemain', hit := posFirst, msgNo, oooRemain, false;
      var entry := entries[pos];
      if !entry.state.Available? || entry.pkt.value.order {
        posFirst', msgNo' := -1, -1;
      } else {
        oooRemain' := oooRemain - 1;
        var pp := entry.pkt.value.pos;
        if pp.StartsMessage() {
          posFirst', msgNo' := pos, entry.pkt.value.msgNo;
        }
        if entry.pkt.value.msgNo != msgNo' {
          posFirst', msgNo' := -1, -1;
        } else {
          hit := pp.EndsMessage() && posFirst' >= 0;
        }
      }
      if !hit {
        ScanAdvances(view.win, k, open, msgNo);
      }
    }

    /**
     * Reads what is cached at firstReadableOOO. If the walk from there reaches the end of a message, its
     * packets come back, fillers are released at the head and the next message is looked for. If it
     * meets a slot without a packet, nothing comes back and the cache is cleared.
     */
    method ReadMessageOutOfOrder() returns (pkts: Option<seq<Packet>>)
      requires Valid() && messageAPI
      modifies this, entries
      ensures Valid() && messageAPI
      ensures var cached := Cached(old(view), old(firstReadableOOO), entries.Length);
              ReadResult(view, pkts) == if cached.None? then ReadResult(old(view), None)
                                        else ReadCached(old(view), cached.value)
      ensures pkts.None? ==> firstReadableOOO == -1
      ensures pkts.Some? ==> Rescanned(view, -1, firstReadableOOO, entries.Length)
    {
      hide Wrap, Spot, CountAvailable, CountOutOfOrder, Holds, CompleteMessage, ReleaseFillers, MarkRange, Walk;
      if firstReadableOOO < 0 {
        return None;
      }
      ghost var f := Cached(view, firstReadableOOO, entries.Length).value;
      CachedSpot(view, firstReadableOOO, entries.Length);
      WalkExact(view.win, f);
      var ps, ended := CollectMessage(firstReadableOOO, f);
      firstReadableOOO := -1;
      if !ended {
        return None;
      }
      ReleaseFillerEntries();
      UpdateFirstReadableOutOfOrder();
      pkts := Some(ps);
    }

    /** The collecting loop: takes packets and marks their slots read until a message ends or a slot holds none. */
    method CollectMessage(readPos: nat, ghost f: nat) returns (ps: seq<Packet>, ended: bool)
      requires Valid() && messageAPI && f < entries.Length && readPos == Spot(view.base + f, entries.Length)
      modifies this`size, this`numOutOfOrderPkts, this`view, entries
      ensures Valid() && view.base == old(view).base && ended == Walk(old(view).win, f).Ended?
      ensures ended ==>
                var l := Walk(old(view).win, f).l;
                && f <= l && AllHeld(old(view).win, f, l + 1)
                && ps == PacketsFrom(old(view).win, f, l) && view.win == MarkRange(old(view).win, f, l + 1)
      ensures !ended ==>
                var k := Walk(old(view).win, f).k;
                if k == f then view.win == old(view).win
                else f <= k <= |old(view).win| && view.win == MarkRange(old(view).win, f, k)
    {
      hide Wrap, Spot, CountAvailable, CountOutOfOrder, Holds;
      var i := readPos;
      ps := [];
      ghost var k, win := f, view.win;
      while true
        invariant f <= k < entries.Length && i == Spot(view.base + k, entries.Length)
        invariant k == f || AllHeld(win, f, k)
        invariant Valid() && messageAPI && view.base == old(view).base && Walk(win, k) == Walk(win, f)
        invariant if k == f then view.win == win && ps == []
                  else view.win == MarkRange(win, f, k) && ps == PacketsFrom(win, f, k - 1)
        decreases |win| - k
      {
        var p, next := TakeSlot(i, k, f, win);
        if p.None? {
          return ps, false;
        }
        assert ps + [p.value] == PacketsFrom(win, f, k);
        ps := ps + [p.value];
        if p.value.pos.EndsMessage() {
          return ps, true;
        }
        i := next;
        k := k + 1;
      }
    }

    /** Takes the packet k places past the start, if there is one, marks its slot as read and moves one slot on. */
    method TakeSlot(i: nat, ghost k: nat, ghost f: nat, ghost win: seq<RecvEntry>)
      returns (p: Option<Packet>, next: nat)
      requires Valid() && messageAPI && f <= k < entries.Length && |win| == |view.win|
      requires if k == f then view.win == win else k <= |win| && view.win == MarkRange(win, f, k)
      requires i == Spot(view.base + k, entries.Length)
      modifies this`size, this`numOutOfOrderPkts, this`view, entries
      ensures Valid() && view.base == old(view).base && next == Spot(view.base + k + 1, entries.Length)
      ensures p.Some? <==> k < |win| && win[k].Has()
      ensures p.Some? ==> p == win[k].pkt && view.win == MarkRange(win, f, k + 1)
      ensures p.None? ==> view == old(view)
    {
      hide Wrap, Spot, And, CountAvailable, CountOutOfOrder;
      HoldsAt(entries[..], view.base, view.win, NO_PACKET, k);
      NextSlot(view.base + k, entries.Length);
      next := And(i + 1, mask);
      var e := entries[i];
      if !e.state.Available? {
        return None, next;
      }
      MarkCounts(win, f, k);
      HoldsPut(entries[..], view.base, view.win, NO_PACKET, k, MarkRead(win[k]));
      p := e.pkt;
      if numOutOfOrderPkts > 0 && !p.value.order {
        numOutOfOrderPkts := numOutOfOrderPkts - 1;
      }
      ghost var before := entries[..];
      entries[i] := MarkRead(e);
      assert entries[..] == before[i := MarkRead(e)];
      size := size - 1;
      view := view.(win := MarkRange(win, f, k + 1));
    }

    // ---- reports ----

    method GenerateLossList() returns (losses: seq<Num>)
      requires Valid()
      ensures losses == Losses(view, |view.win|)
    {
      hide Wrap, Inc, LessThan, CountAvailable, CountOutOfOrder, Holds;
      CapacityBounds(entries.Length);
      WireOrderIsTrueOrder(view.base, view.Max());
      if startSeq == maxSeq {
        return [];
      }
      losses := [];
      var s := startSeq;
      ghost var n := 0;
      while LessThan(s, maxSeq)
        invariant 0 <= n <= |view.win| && s == Wrap(view.base + n)
        invariant LessThan(s, maxSeq) <==> n < |view.win|
        invariant losses == Losses(view, n)
        decreases |view.win| - n
      {
        var e := Peek(s, n);
        if e.state.Empty? {
          losses := losses + [s];
        }
        WrapArith(view.base + n, 0);
        s := Inc(s);
        n := n + 1;
        WireOrderIsTrueOrder(view.base + n, view.Max());
      }
    }

    method AckSequence() returns (s: Num)
      requires Valid()
      ensures s == Wrap(AckPoint(view))
    {
      hide AckOffset, Wrap, Inc, LessThan, CountAvailable, CountOutOfOrder, Holds;
      CapacityBounds(entries.Length);
      WireOrderIsTrueOrder(view.base, view.Max());
      s := startSeq;
      ghost var n := 0;
      while LessThan(s, maxSeq)
        invariant 0 <= n <= |view.win| && s == Wrap(view.base + n)
        invariant LessThan(s, maxSeq) <==> n < |view.win|
        invariant forall i :: 0 <= i < n ==> !view.win[i].state.Empty?
        decreases |view.win| - n
      {
        var e := Peek(s, n);
        if e.state.Empty? {
          break;
        }
        WrapArith(view.base + n, 0);
        s := Inc(s);
        n := n + 1;
        WireOrderIsTrueOrder(view.base + n, view.Max());
      }
      AckOffsetUnique(view.win, n);
    }

    method AvailableSize(lastAck: Num) returns (n: nat)
      requires Valid()
      ensures n == Advertised(view, lastAck, entries.Length)
    {
      DistanceCongruent(startSeq, lastAck);
      var cap := entries.Length - 1;
      if !LessThan(startSeq, lastAck) {
        return cap;
      }
      var used := Distance(startSeq, lastAck);
      if used > cap {
        return 0;
      }
      n := cap - used + 1;
    }
  }

  /** The offset of the cached ring index from the start, if there is one. */
  ghost function Cached(v: RecvView, cache: int, cap: nat): Option<nat> {
    if cache < 0 || cap == 0 then None else Some(Spot(cache - v.base, cap))
  }

  lemma CachedSpot(v: RecvView, cache: int, cap: nat)
    requires 0 <= cache < cap
    ensures Cached(v, cache, cap).value < cap && cache == Spot(v.base + Cached(v, cache, cap).value, cap)
  {
    var r := Spot(cache - v.base, cap);
    var q := (cache - v.base) / cap;
    assert cache - v.base == q * cap + r;
    assert v.base + r == (-q) * cap + cache;
    DivModUnique(v.base + r, cap, -q, cache);
  }

  /** The cache holds the start of a complete out-of-order message. */
  ghost predicate CachedMessage(v: RecvView, cache: int, cap: nat) {
    Cached(v, cache, cap).Some? && exists l: nat :: CompleteMessage(v.win, Cached(v, cache, cap).value, l)
  }

  /** The offset of slot base + f. */
  lemma CachedAt(v: RecvView, f: nat, cap: nat)
    requires f < cap
    ensures Cached(v, Spot(v.base + f, cap), cap) == Some(f)
  {
    var c := Spot(v.base + f, cap);
    CachedSpot(v, c, cap);
    SlotInjective(v.base + f, v.base + Cached(v, c, cap).value, cap);
  }

  /** Dropping m slots at the head leaves the cached message cached if and only if it starts at or past them. */
  lemma CacheSurvives(v: RecvView, m: nat, f: nat, l: nat, cap: nat)
    requires CompleteMessage(v.win, f, l) && m <= |v.win| < cap
    ensures CachedMessage(DropHead(v, m), Spot(v.base + f, cap), cap) <==> m <= f
  {
    hide Spot;
    var d := DropHead(v, m);
    if m <= f {
      CachedAt(d, f - m, cap);
      assert CompleteMessage(d.win, f - m, l - m);
    } else {
      SpotPeriodic(v.base + f, cap);
      CachedAt(d, f - m + cap, cap);
    }
  }

  /** What a rescan leaves in the cache. */
  ghost predicate Rescanned(v: RecvView, before: int, after: int, cap: nat) {
    if ReadyHead(v) || before >= 0 then after == before || (before < 0 && after == -1)
    else if forall f: nat, l: nat :: !CompleteMessage(v.win, f, l) then after == -1
    else cap > 0 && exists f: nat, l: nat :: Earliest(v.win, f, l) && after == Spot(v.base + f, cap)
  }

  // ---- the buffer with its cache, as a value ----

  datatype Mailbox = Mailbox(view: RecvView, cache: int, cap: nat)

  datatype Reading = Reading(box: Mailbox, pkts: Option<seq<Packet>>)

  /** updateFirstReadableOutOfOrder on the cache. */
  ghost function Rescan(v: RecvView, before: int, cap: nat): int
    requires cap > 0
  {
    if ReadyHead(v) || before >= 0 then before
    else if exists f: nat, l: nat :: Earliest(v.win, f, l) then
      var f: nat, l: nat :| Earliest(v.win, f, l);
      Spot(v.base + f, cap)
    else -1
  }

  lemma RescanExact(v: RecvView, before: int, after: int, cap: nat)
    requires cap > 0 && before >= -1
    ensures Rescanned(v, before, after, cap) <==> after == Rescan(v, before, cap)
  {
    hide CompleteMessage, Spot;
    if f: nat, l: nat :| CompleteMessage(v.win, f, l) {
      SomeEarliest(v.win, f, l);
    }
  }

  lemma RescanNothing(v: RecvView, before: int, after: int, cap: nat)
    ensures before < 0 && CountOutOfOrder(v.win) == 0 && Rescanned(v, before, after, cap) ==>
              after == -1 || after == before
  {
    NothingOutOfOrder(v.win);
  }

  ghost function ReadBox(b: Mailbox): Reading
    requires b.cap > 0
  {
    var r := ReadAny(b.view, Cached(b.view, b.cache, b.cap));
    var cache := if ReadyHead(b.view) then (if r.view == b.view then b.cache else Rescan(r.view, b.cache, b.cap))
                 else if r.pkts.None? then -1
                 else Rescan(r.view, -1, b.cap);
    Reading(Mailbox(r.view, cache, b.cap), r.pkts)
  }

  /** Insert in message mode. */
  ghost function InsertBox(b: Mailbox, p: Packet, now: int): Mailbox
    requires b.cap > 0
  {
    var at := Placed(b.view, p.seqNo, b.cap);
    if at.None? then b
    else
      var v := InsertAt(b.view, at.value, p, now);
      if p.order || b.cache >= 0 || !(at.value < |v.win| && v.win[at.value].Has()) then b.(view := v)
      else
        var f := Completed(v.win, at.value);
        b.(view := v, cache := if f.None? then -1 else Spot(v.base + f.value, b.cap))
  }

  lemma WrapFromDistance(base: int, s: Num)
    ensures s == Wrap(base + Distance(Wrap(base), s))
  {
    DistanceCongruent(Wrap(base), s);
    WrapOfSum(base, Distance(Wrap(base), s));
  }

  lemma MaskedSum(base: int, d: nat, cap: nat)
    requires IsCapacity(cap) && d < HALF
    ensures cap >= 1 && And(Wrap(base) + d, cap - 1) == Spot(base + d, cap)
  {
    var k: nat :| k <= 29 && cap == Pow2(k);
    SpaceIsPow2();
    MaskIsMod(Wrap(base) + d, k);
    ModOfMod(Wrap(base) + d, k, 31);
    ModOfMod(base + d, k, 31);
    WrapOfSum(base, d);
  }

  lemma {:induction false} NextSlot(u: int, cap: nat)
    requires IsCapacity(cap)
    ensures cap >= 1 && And(Spot(u, cap) + 1, cap - 1) == Spot(u + 1, cap)
  {
    var k: nat :| k <= 29 && cap == Pow2(k);
    MaskIsMod(u % cap + 1, k);
    StepMod(u, cap);
  }

  lemma StepMod(u: int, n: int)
    requires n > 0
    ensures (u % n + 1) % n == (u + 1) % n
  {
    var q, r := u / n, u % n;
    assert u == q * n + r;
    if r + 1 < n {
      DivModUnique(u + 1, n, q, r + 1);
      DivModUnique(r + 1, n, 0, r + 1);
    } else {
      assert u + 1 == (q + 1) * n + 0;
      DivModUnique(u + 1, n, q + 1, 0);
      DivModUnique(r + 1, n, 1, 0);
    }
  }

  lemma {:induction false} PrevSlot(u: int, cap: nat)
    requires IsCapacity(cap)
    ensures cap >= 1 && And(Spot(u, cap) - 1 + cap, cap - 1) == Spot(u - 1, cap)
  {
    var k: nat :| k <= 29 && cap == Pow2(k);
    MaskIsMod(Spot(u, cap) - 1 + cap, k);
    BackMod(u, cap);
  }

  lemma BackMod(u: int, n: int)
    requires n > 0
    ensures (u % n - 1 + n) % n == (u - 1) % n
  {
    var q, r := u / n, u % n;
    assert u == q * n + r;
    if r > 0 {
      DivModUnique(u - 1, n, q, r - 1);
      DivModUnique(r - 1 + n, n, 1, r - 1);
    } else {
      assert u - 1 == (q - 1) * n + (n - 1);
      DivModUnique(u - 1, n, q - 1, n - 1);
      DivModUnique(n - 1, n, 0, n - 1);
    }
  }
}
