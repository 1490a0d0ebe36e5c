/**
 * Messages read out of order (internal/buffer/recv.go): when the cached index serves, and when it
 * hides a complete message.
 */
module MailboxRuns {
  import opened SeqNum
  import opened Ring
  import opened Packets
  import opened RecvWindow
  import opened RecvRing
  import DataPath

  /**
   * An in-order read keeps the cached out-of-order message readable if and only if that starts at or
   * past the m slots the read takes off the head; the cache itself stays, whatever it points to then.
   */
  lemma InOrderReadAndCache(b: Mailbox, f: nat, l: nat) returns (m: nat)
    requires ReadyHead(b.view) && |b.view.win| < b.cap && CompleteMessage(b.view.win, f, l)
    requires b.cache == Spot(b.view.base + f, b.cap)
    ensures m <= |b.view.win| && ReadBox(b).box.view == DropHead(b.view, m) && ReadBox(b).box.cache == b.cache
    ensures CachedMessage(ReadBox(b).box.view, ReadBox(b).box.cache, b.cap) <==> m <= f
  {
    hide CompleteMessage, ReadInOrder, Spot, CachedMessage, Cached;
    m := DataPath.ReadAdvances(b.view);
    CacheSurvives(b.view, m, f, l, b.cap);
  }

  /** With a complete message in the cache and no available head, the read returns that message. */
  lemma CachedIsRead(b: Mailbox, f: nat, l: nat)
    requires !ReadyHead(b.view) && |b.view.win| < b.cap && CompleteMessage(b.view.win, f, l)
    requires b.cache == Spot(b.view.base + f, b.cap)
    ensures AllHeld(b.view.win, f, l + 1) && ReadBox(b).pkts == Some(PacketsFrom(b.view.win, f, l))
  {
    hide Spot, Rescan, ReadCached, Walk;
    CachedAt(b.view, f, b.cap);
    CompleteIsRead(b.view, f, l);
  }

  /**
   * Without an available head, a read misses every message there is if and only if nothing is cached or
   * the cached slot does not begin a run of packets that ends a message.
   */
  lemma ReadBoxMisses(b: Mailbox)
    requires !ReadyHead(b.view) && b.cap > 0
    ensures ReadBox(b).pkts.None? <==>
              var c := Cached(b.view, b.cache, b.cap);
              || c.None?
              || !exists l :: l >= c.value && AllHeld(b.view.win, c.value, l + 1)
                              && b.view.win[l].pkt.value.pos.EndsMessage()
  {
    hide Cached, Rescan, AllHeld, ReadAny;
    ReadMissesExactly(b.view, Cached(b.view, b.cache, b.cap));
  }

  // ---- a stale cache hides a message ----

  function Part(base: int, i: nat, pos: Position, msgNo: nat): Packet {
    Packet(Wrap(base + i), 0, pos, false, false, msgNo, [0])
  }

  function Held(p: Packet): RecvEntry {
    RecvEntry(Some(p), Available, 0)
  }

  /** Storing at offset i of a small window. */
  lemma InsertHere(b: Mailbox, i: nat, p: Packet)
    requires |b.view.win| < b.cap < HALF && i < b.cap - 1 && Slot(b.view, i).state.Empty?
             && p.seqNo == Wrap(b.view.base + i)
    ensures InsertBox(b, p, 0).view == InsertAt(b.view, i, p, 0) && InsertBox(b, p, 0).cap == b.cap
    ensures p.order || b.cache >= 0 ==> InsertBox(b, p, 0).cache == b.cache
    ensures !p.order && b.cache < 0 ==>
              var v := InsertAt(b.view, i, p, 0);
              && i < |v.win| && v.win[i].Has()
              && InsertBox(b, p, 0).cache == (if Completed(v.win, i).None? then -1
                                              else Spot(v.base + Completed(v.win, i).value, b.cap))
  {
    hide Wrap, Spot, Completed;
    PlacedByWireNumber(b.view, b.view.base + i, b.cap, i);
  }

  /** Message A is s, s + 1; B is s + 2; C is s + 4; s + 3 is missing. They arrive as s, s + 2, s + 4, s + 1. */
  ghost function Arrived(s: int, cap: nat): Mailbox
    requires cap > 0
  {
    var b1 := InsertBox(Mailbox(RecvView(s, []), -1, cap), Part(s, 0, First, 1), 0);
    var b2 := InsertBox(b1, Part(s, 2, Single, 2), 0);
    var b3 := InsertBox(b2, Part(s, 4, Single, 3), 0);
    InsertBox(b3, Part(s, 1, Last, 1), 0)
  }

  lemma ArrivedState(s: int, cap: nat)
    requires 8 <= cap < HALF
    ensures Arrived(s, cap) == Mailbox(
              RecvView(s, [Held(Part(s, 0, First, 1)), Held(Part(s, 1, Last, 1)), Held(Part(s, 2, Single, 2)),
                           NO_PACKET, Held(Part(s, 4, Single, 3))]),
              Spot(s + 2, cap), cap)
  {
    hide Wrap, Spot, InsertBox;
    var b0 := Mailbox(RecvView(s, []), -1, cap);
    InsertHere(b0, 0, Part(s, 0, First, 1));
    var b1 := InsertBox(b0, Part(s, 0, First, 1), 0);
    assert b1.view.win == [Held(Part(s, 0, First, 1))];
    InsertHere(b1, 2, Part(s, 2, Single, 2));
    var b2 := InsertBox(b1, Part(s, 2, Single, 2), 0);
    assert b2.view.win == [Held(Part(s, 0, First, 1)), NO_PACKET, Held(Part(s, 2, Single, 2))];
    InsertHere(b2, 4, Part(s, 4, Single, 3));
    var b3 := InsertBox(b2, Part(s, 4, Single, 3), 0);
    assert b3.view.win ==
      [Held(Part(s, 0, First, 1)), NO_PACKET, Held(Part(s, 2, Single, 2)), NO_PACKET, Held(Part(s, 4, Single, 3))];
    InsertHere(b3, 1, Part(s, 1, Last, 1));
  }

  /**
   * A and B are read in order, past the cached B. The next read finds the stale slot empty and returns
   * nothing, and so does every read after it, although C is complete.
   */
  lemma StaleCacheHidesMessage(s: int, cap: nat)
    requires 8 <= cap < HALF
    ensures var r1 := ReadBox(Arrived(s, cap)); var r2 := ReadBox(r1.box); var r3 := ReadBox(r2.box);
            && r1.pkts == Some([Part(s, 0, First, 1), Part(s, 1, Last, 1)])
            && r2.pkts == Some([Part(s, 2, Single, 2)])
            && r3.pkts == None && r3.box == r2.box.(cache := -1)
            && !ReadyHead(r2.box.view) && CompleteMessage(r2.box.view.win, 1, 1)
            && ReadBox(r3.box) == Reading(r3.box, None)
  {
    hide Wrap, Spot, Arrived;
    ArrivedState(s, cap);
    var b := Arrived(s, cap);
    var p0, p1, p2, p4 := Part(s, 0, First, 1), Part(s, 1, Last, 1), Part(s, 2, Single, 2), Part(s, 4, Single, 3);
    FirstRead(b, s, cap);
    var b1 := ReadBox(b).box;
    SecondRead(b1, s, cap);
    var b2 := ReadBox(b1).box;
    ThirdRead(b2, s, cap);
  }

  lemma FirstRead(b: Mailbox, s: int, cap: nat)
    requires cap > 0 && b.cap == cap && b.view.base == s && b.cache >= 0
    requires b.view.win == [Held(Part(s, 0, First, 1)), Held(Part(s, 1, Last, 1)), Held(Part(s, 2, Single, 2)),
                            NO_PACKET, Held(Part(s, 4, Single, 3))]
    ensures ReadBox(b).pkts == Some([Part(s, 0, First, 1), Part(s, 1, Last, 1)])
    ensures ReadBox(b).box == Mailbox(RecvView(s + 2, [Held(Part(s, 2, Single, 2)), NO_PACKET,
                                                       Held(Part(s, 4, Single, 3))]), b.cache, cap)
  {
    hide Wrap, Spot;
    var win := b.view.win;
    assert ScanMessage(win, 1, 1) == Complete(2);
    assert ScanMessage(win, 0, 1) == Complete(2);
    assert PacketsOf(win, 2) == [Part(s, 0, First, 1), Part(s, 1, Last, 1)];
    assert DropHead(b.view, 2).win == [Held(Part(s, 2, Single, 2)), NO_PACKET, Held(Part(s, 4, Single, 3))];
    assert ReleaseFillers(DropHead(b.view, 2)) == DropHead(b.view, 2);
  }

  lemma SecondRead(b: Mailbox, s: int, cap: nat)
    requires cap > 0 && b.cap == cap && b.cache >= 0
    requires b.view == RecvView(s + 2, [Held(Part(s, 2, Single, 2)), NO_PACKET, Held(Part(s, 4, Single, 3))])
    ensures ReadBox(b) == Reading(Mailbox(RecvView(s + 3, [NO_PACKET, Held(Part(s, 4, Single, 3))]), b.cache, cap),
                                  Some([Part(s, 2, Single, 2)]))
  {
    hide Wrap, Spot;
    assert PopHead(b.view).win == [NO_PACKET, Held(Part(s, 4, Single, 3))];
    assert ReleaseFillers(PopHead(b.view)) == PopHead(b.view);
  }

  lemma ThirdRead(b: Mailbox, s: int, cap: nat)
    requires 8 <= cap < HALF && b.cap == cap && b.cache == Spot(s + 2, cap)
    requires b.view == RecvView(s + 3, [NO_PACKET, Held(Part(s, 4, Single, 3))])
    ensures ReadBox(b) == Reading(b.(cache := -1), None) && !ReadyHead(b.view) && CompleteMessage(b.view.win, 1, 1)
    ensures ReadBox(b.(cache := -1)) == Reading(b.(cache := -1), None)
  {
    hide Wrap, Spot;
    SpotPeriodic(s + 2, cap);
    CachedAt(b.view, cap - 1, cap);
    assert Walk(b.view.win, cap - 1) == Broken(cap - 1);
  }

  // ---- delivering ----

  lemma {:induction false} MarkLowers(win: seq<RecvEntry>, f: nat, l: nat)
    requires f <= l && AllHeld(win, f, l)
    ensures CountAvailable(MarkRange(win, f, l)) == CountAvailable(win) - (l - f)
    decreases l - f
  {
    hide CountAvailable, CountOutOfOrder;
    if f < l {
      MarkLowers(win, f, l - 1);
      MarkCounts(win, f, l - 1);
    } else {
      assert MarkRange(win, f, f) == win;
    }
  }

  lemma DropLowers(v: RecvView, n: nat)
    requires 0 < n <= |v.win| && ReadyHead(v)
    ensures CountAvailable(DropHead(v, n).win) < CountAvailable(v.win)
  {
    hide CountOutOfOrder;
    var head := v.win[..n];
    assert v.win == head + v.win[n..];
    CountAppend(head, v.win[n..]);
    assert head == [v.win[0]] + head[1..];
    CountAppend([v.win[0]], head[1..]);
  }

  /** A read that returns packets returns at least one and leaves fewer. */
  lemma ReadLowers(b: Mailbox)
    requires b.cap > 0 && ReadBox(b).pkts.Some?
    ensures |ReadBox(b).pkts.value| > 0
    ensures CountAvailable(ReadBox(b).box.view.win) < CountAvailable(b.view.win)
  {
    hide CountAvailable, CountOutOfOrder, Rescan, Spot, ReleaseFillers;
    var v := b.view;
    if ReadyHead(v) {
      InOrderLowers(v);
    } else {
      var f := Cached(v, b.cache, b.cap).value;
      WalkExact(v.win, f);
      var l := Walk(v.win, f).l;
      MarkLowers(v.win, f, l + 1);
      ReleaseFillersExact(v.(win := MarkRange(v.win, f, l + 1)));
    }
  }

  lemma InOrderLowers(v: RecvView)
    requires ReadyHead(v) && ReadInOrder(v).pkts.Some?
    ensures |ReadInOrder(v).pkts.value| > 0
    ensures CountAvailable(ReadInOrder(v).view.win) < CountAvailable(v.win)
  {
    hide CountAvailable, CountOutOfOrder, ReadInOrder;
    var m := DataPath.ReadAdvances(v);
    DropLowers(v, m);
  }

  datatype Emptied = Emptied(box: Mailbox, events: seq<DataPath.Event>)

  /** deliverMessages: messages are read, in order or out of order, until a read returns nothing. */
  ghost function DeliverBox(b: Mailbox): (r: Emptied)
    requires b.cap > 0
    ensures r.box.cap == b.cap
    decreases CountAvailable(b.view.win)
  {
    var r := ReadBox(b);
    if r.pkts.None? then Emptied(r.box, [])
    else
      ReadLowers(b);
      var rest := DeliverBox(r.box);
      Emptied(rest.box, [DataPath.EventOf(r.pkts.value)] + rest.events)
  }

  /** One read of the delivery loop. */
  lemma {:induction false} DeliverTurn(b: Mailbox)
    requires b.cap > 0
    ensures var r := ReadBox(b); var d := DeliverBox(b);
            && r.box.cap == b.cap
            && (r.pkts.None? ==> d == Emptied(r.box, []))
            && (r.pkts.Some? ==>
                  && |r.pkts.value| > 0 && CountAvailable(r.box.view.win) < CountAvailable(b.view.win)
                  && d.box == DeliverBox(r.box).box
                  && d.events == [DataPath.EventOf(r.pkts.value)] + DeliverBox(r.box).events)
  {
    hide CountAvailable, Rescan, ReadAny, Cached;
    if ReadBox(b).pkts.Some? {
      ReadLowers(b);
    }
  }

  /** Nothing out of order is held or cached. */
  ghost predicate AllInOrder(b: Mailbox) {
    b.cap > 0 && b.cache == -1 && CountOutOfOrder(b.view.win) == 0
  }

  lemma InOrderRead(b: Mailbox)
    requires AllInOrder(b)
    ensures AllInOrder(ReadBox(b).box)
    ensures if ReadyHead(b.view) then
              var r := ReadInOrder(b.view); ReadBox(b) == Reading(Mailbox(r.view, -1, b.cap), r.pkts)
            else ReadBox(b) == Reading(b, None)
  {
    hide CountOutOfOrder, CompleteMessage, ReadInOrder, Spot;
    if ReadyHead(b.view) {
      var m := DataPath.ReadAdvances(b.view);
      CountSuffix(b.view.win, m);
      NothingOutOfOrder(ReadInOrder(b.view).view.win);
    }
  }

  /** Without out-of-order packets, delivering reads the messages off the head. */
  lemma {:induction false} InOrderDelivery(b: Mailbox)
    requires AllInOrder(b)
    ensures var d := DataPath.DeliverMessages(b.view);
            DeliverBox(b) == Emptied(Mailbox(d.view, -1, b.cap), d.events) && AllInOrder(DeliverBox(b).box)
    decreases CountAvailable(b.view.win)
  {
    hide AllInOrder, ReadInOrder, ReadBox, CountAvailable;
    Sizes(b);
    InOrderRead(b);
    var r := ReadBox(b);
    if r.pkts.Some? {
      ReadLowers(b);
      DataPath.ReadShrinks(b.view);
      InOrderDelivery(r.box);
    }
  }

  lemma Sizes(b: Mailbox)
    requires AllInOrder(b)
    ensures b.cap > 0 && b.cache == -1
  {
  }

  /** A data packet's effect on the receiver, and what that lets through. */
  datatype Taken = Taken(box: Mailbox, events: seq<DataPath.Event>, stored: RecvView, result: InsertResult)

  ghost function ReceiveBox(b: Mailbox, p: Packet, now: int, messageMode: bool): (r: Taken)
    requires b.cap > 0
    ensures r.box.cap == b.cap
  {
    var at := Placed(b.view, p.seqNo, b.cap);
    if at.None? then Taken(b, [], b.view, REFUSED)
    else
      var result := Report(b.view, at.value, p.seqNo);
      if messageMode then
        var stored := InsertBox(b, p, now);
        var d := DeliverBox(stored);
        Taken(d.box, d.events, stored.view, result)
      else
        var v := InsertAt(b.view, at.value, p, now);
        var d := DataPath.DeliverStream(v);
        Taken(b.(view := d.view), d.events, v, result)
  }

  /** In stream mode, and in message mode while everything is in order, this is DataPath.Receive. */
  lemma ReceiveInOrder(b: Mailbox, p: Packet, now: int, messageMode: bool)
    requires 0 < b.cap && b.view.WellFormed() && (messageMode ==> AllInOrder(b) && p.order)
    ensures var r := DataPath.Receive(b.view, p, now, b.cap, messageMode);
            ReceiveBox(b, p, now, messageMode) == Taken(b.(view := r.view), r.events, r.stored, r.result)
    ensures messageMode ==> AllInOrder(ReceiveBox(b, p, now, messageMode).box)
  {
    hide CountOutOfOrder, DeliverBox, DataPath.DeliverMessages, DataPath.DeliverStream, Report;
    var at := Placed(b.view, p.seqNo, b.cap);
    if messageMode && at.Some? {
      InsertCounts(b.view, at.value, p, now);
      InOrderDelivery(InsertBox(b, p, now));
    }
  }

  // ---- a stale cache delivers a fragment ----

  /** A complete or missing message behind an incomplete head stays where it is. */
  lemma {:induction false} DeliverNothing(b: Mailbox)
    requires b.cap > 0 && ReadyHead(b.view) && ReadInOrder(b.view) == ReadResult(b.view, None)
    ensures DeliverBox(b) == Emptied(b, [])
  {
    hide CountAvailable, CountOutOfOrder, Rescan, ReadInOrder;
  }

  /** An arrival behind an incomplete head is only stored. */
  lemma Kept(b: Mailbox, i: nat, p: Packet)
    requires |b.view.win| < b.cap < HALF && i < b.cap - 1 && Slot(b.view, i).state.Empty?
             && p.seqNo == Wrap(b.view.base + i)
    requires var v := InsertAt(b.view, i, p, 0);
             ReadyHead(v) && v.win[0].pkt.value.pos.First? && (|v.win| > 1 ==> v.win[1].state.Empty?)
    ensures var t := ReceiveBox(b, p, 0, true); t.box == InsertBox(b, p, 0) && t.events == []
  {
    hide Wrap, Spot, Completed, DeliverBox, InsertBox, Distance;
    InsertHere(b, i, p);
    PlacedByWireNumber(b.view, b.view.base + i, b.cap, i);
    var v := InsertAt(b.view, i, p, 0);
    assert ScanMessage(v.win, 0, v.win[0].pkt.value.msgNo).Incomplete?;
    DeliverNothing(InsertBox(b, p, 0));
  }

  ghost function Take(b: Mailbox, base: int, i: nat, pos: Position, msgNo: nat): Taken
    requires b.cap > 0
  {
    ReceiveBox(b, Part(base, i, pos, msgNo), 0, true)
  }

  /**
   * Messages A = s, s + 1; B = s + 2, s + 3; C = s + 4, s + 5; D = s + 6 .. s + cap + 2. The packets s,
   * s + 2, s + 3 and s + 4 wait for s + 1, B being cached.
   */
  ghost function Waiting(s: int, cap: nat): Mailbox
    requires cap > 0
  {
    var b1 := Take(Mailbox(RecvView(s, []), -1, cap), s, 0, First, 1).box;
    var b2 := Take(b1, s, 2, First, 2).box;
    var b3 := Take(b2, s, 3, Last, 2).box;
    Take(b3, s, 4, First, 3).box
  }

  lemma NotCompleted(win: seq<RecvEntry>, i: nat)
    requires i + 1 == |win| && win[i].Has() && win[i].pkt.value.pos.First?
    ensures Completed(win, i) == None
  {
  }

  lemma CompletedPair(win: seq<RecvEntry>, f: nat)
    requires f + 2 == |win| && win[f].Has() && win[f + 1].Has() && win[f].pkt.value.msgNo == win[f + 1].pkt.value.msgNo
    requires win[f].pkt.value.pos.First? && win[f + 1].pkt.value.pos.Last?
    ensures Completed(win, f + 1) == Some(f)
  {
  }

  lemma WaitingState(s: int, cap: nat)
    requires 8 <= cap < HALF
    ensures Waiting(s, cap) == Mailbox(
              RecvView(s, [Held(Part(s, 0, First, 1)), NO_PACKET, Held(Part(s, 2, First, 2)), Held(Part(s, 3, Last, 2)),
                           Held(Part(s, 4, First, 3))]),
              Spot(s + 2, cap), cap)
  {
    hide Wrap, Spot, InsertBox, ReceiveBox, Completed;
    var p0, p2, p3, p4 := Part(s, 0, First, 1), Part(s, 2, First, 2), Part(s, 3, Last, 2), Part(s, 4, First, 3);
    var b0 := Mailbox(RecvView(s, []), -1, cap);
    var b1 := Mailbox(RecvView(s, [Held(p0)]), -1, cap);
    var b2 := Mailbox(RecvView(s, [Held(p0), NO_PACKET, Held(p2)]), -1, cap);
    var b3 := Mailbox(RecvView(s, [Held(p0), NO_PACKET, Held(p2), Held(p3)]), Spot(s + 2, cap), cap);
    SpotInside(s + 2, cap);
    InsertHere(b0, 0, p0);
    NotCompleted(b1.view.win, 0);
    assert InsertAt(b0.view, 0, p0, 0) == b1.view;
    Kept(b0, 0, p0);
    InsertHere(b1, 2, p2);
    NotCompleted(b2.view.win, 2);
    assert InsertAt(b1.view, 2, p2, 0) == b2.view;
    Kept(b1, 2, p2);
    InsertHere(b2, 3, p3);
    CompletedPair(b3.view.win, 2);
    assert InsertAt(b2.view, 3, p3, 0) == b3.view;
    Kept(b2, 3, p3);
    InsertHere(b3, 4, p4);
    assert InsertAt(b3.view, 4, p4, 0).win == b3.view.win + [Held(p4)];
    Kept(b3, 4, p4);
  }

  /** A two-packet message at the head is read, and the next head is not released. */
  lemma PairRead(b: Mailbox)
    requires b.cap > 0 && b.cache >= 0 && |b.view.win| >= 2 && b.view.win[0].Has() && b.view.win[1].Has()
    requires b.view.win[0].pkt.value.pos.First? && b.view.win[1].pkt.value.pos.Last?
    requires b.view.win[0].pkt.value.msgNo == b.view.win[1].pkt.value.msgNo
    requires |b.view.win| > 2 ==> !b.view.win[2].state.Read?
    ensures ReadBox(b) == Reading(b.(view := DropHead(b.view, 2)),
                                  Some([b.view.win[0].pkt.value, b.view.win[1].pkt.value]))
  {
    hide Spot, Cached;
    var win := b.view.win;
    assert ScanMessage(win, 1, win[0].pkt.value.msgNo) == Complete(2);
    assert ScanMessage(win, 0, win[0].pkt.value.msgNo) == Complete(2);
    assert PacketsOf(win, 2) == [win[0].pkt.value, win[1].pkt.value];
    assert ReleaseFillers(DropHead(b.view, 2)) == DropHead(b.view, 2);
  }

  /** s + 1 lets A and B through; the cache still holds the place of B. */
  lemma SecondArrives(s: int, cap: nat)
    requires 8 <= cap < HALF
    ensures var t := Take(Waiting(s, cap), s, 1, Last, 1);
            && t.box == Mailbox(RecvView(s + 4, [Held(Part(s, 4, First, 3))]), Spot(s + 2, cap), cap)
            && t.events == [DataPath.EventOf([Part(s, 0, First, 1), Part(s, 1, Last, 1)]),
                            DataPath.EventOf([Part(s, 2, First, 2), Part(s, 3, Last, 2)])]
  {
    hide Wrap, Spot, InsertBox, Waiting, ReadBox, CountAvailable, DeliverBox, Distance;
    WaitingState(s, cap);
    var b, p := Waiting(s, cap), Part(s, 1, Last, 1);
    SpotInside(s + 2, cap);
    PlacedByWireNumber(b.view, b.view.base + 1, b.cap, 1);
    InsertHere(b, 1, p);
    var b1 := InsertBox(b, p, 0);
    assert b1.view.win == [Held(Part(s, 0, First, 1)), Held(p), Held(Part(s, 2, First, 2)), Held(Part(s, 3, Last, 2)),
                           Held(Part(s, 4, First, 3))];
    PairRead(b1);
    DeliverTurn(b1);
    var b2 := ReadBox(b1).box;
    assert b2.view.win == [Held(Part(s, 2, First, 2)), Held(Part(s, 3, Last, 2)), Held(Part(s, 4, First, 3))];
    PairRead(b2);
    DeliverTurn(b2);
    var b3 := ReadBox(b2).box;
    assert b3.view.win == [Held(Part(s, 4, First, 3))];
    assert ScanMessage(b3.view.win, 0, 3).Incomplete?;
    DeliverNothing(b3);
  }

  lemma SpotInside(u: int, cap: nat)
    requires cap > 0
    ensures 0 <= Spot(u, cap) < cap
  {
  }

  /**
   * The last packet of D comes to lie in the slot that B had. When C is complete and its successor
   * missing, that packet alone is delivered as a message.
   */
  lemma StaleCacheDeliversFragment(s: int, cap: nat)
    requires 8 <= cap < HALF
    ensures var t1 := Take(Waiting(s, cap), s, 1, Last, 1);
            var t2 := Take(t1.box, s, cap + 2, Last, 4);
            var t3 := Take(t2.box, s, 5, Last, 3);
            && t2.events == []
            && [DataPath.EventOf([Part(s, 4, First, 3), Part(s, 5, Last, 3)]),
                DataPath.EventOf([Part(s, cap + 2, Last, 4)])] <= t3.events
  {
    hide Wrap, Spot, InsertBox, Waiting, ReadBox, CountAvailable, DeliverBox, Distance, ReceiveBox;
    SecondArrives(s, cap);
    SpotInside(s + 2, cap);
    var b, p4, q := Take(Waiting(s, cap), s, 1, Last, 1).box, Part(s, 4, First, 3), Part(s, cap + 2, Last, 4);
    Kept(b, cap - 2, q);
    InsertHere(b, cap - 2, q);
    var b1 := InsertBox(b, q, 0);
    FragmentRead(b1, s, cap);
  }

  lemma FragmentRead(b: Mailbox, s: int, cap: nat)
    requires 8 <= cap < HALF && b.cap == cap && b.cache == Spot(s + 2, cap)
    requires b.view == InsertAt(RecvView(s + 4, [Held(Part(s, 4, First, 3))]), cap - 2, Part(s, cap + 2, Last, 4), 0)
    ensures var t := Take(b, s, 5, Last, 3);
            [DataPath.EventOf([Part(s, 4, First, 3), Part(s, 5, Last, 3)]),
             DataPath.EventOf([Part(s, cap + 2, Last, 4)])] <= t.events
  {
    hide Wrap, Spot, InsertBox, ReadBox, CountAvailable, DeliverBox, Distance;
    SpotInside(s + 2, cap);
    var p := Part(s, 5, Last, 3);
    PlacedByWireNumber(b.view, b.view.base + 1, cap, 1);
    InsertHere(b, 1, p);
    var b1 := InsertBox(b, p, 0);
    PairRead(b1);
    DeliverTurn(b1);
    var b2 := ReadBox(b1).box;
    assert b2.view.base == s + 6 && b2.view.win[0] == NO_PACKET
           && b2.view.win[cap - 4] == Held(Part(s, cap + 2, Last, 4));
    LoneRead(b2, s, cap);
    DeliverTurn(b2);
  }

  lemma LoneRead(b: Mailbox, s: int, cap: nat)
    requires 8 <= cap < HALF && b.cap == cap && b.cache == Spot(s + 2, cap) && b.view.base == s + 6
             && |b.view.win| == cap - 3
    requires b.view.win[0] == NO_PACKET && b.view.win[cap - 4] == Held(Part(s, cap + 2, Last, 4))
    ensures ReadBox(b).pkts == Some([Part(s, cap + 2, Last, 4)])
  {
    hide Wrap, Spot, Rescan, ReleaseFillers;
    SpotPeriodic(s + 2, cap);
    CachedAt(b.view, cap - 4, cap);
    assert Walk(b.view.win, cap - 4) == Ended(cap - 4);
    assert PacketsFrom(b.view.win, cap - 4, cap - 4) == [Part(s, cap + 2, Last, 4)];
  }
}
