/**
 * The sender's ring of unacknowledged packets (internal/buffer/send.go).
 *
 * SendWindow gives the buffer its meaning on values: the contiguous run of entries that starts
 * at an unbounded sequence number. SendRing.SendBuffer is the ring, proved to compute it.
 */
module SendWindow {
  import opened SeqNum
  import opened Packets

  datatype SendEntry = SendEntry(pkt: Option<Packet>, sentAt: int, rexmitTime: int, msgTTL: int) {
    predicate Used() {
      pkt.Some?
    }
  }

  const NO_ENTRY := SendEntry(None, 0, 0, 0)

  /** Unacknowledged entries win, the first one at unbounded sequence number base. */
  datatype SendView = SendView(base: int, win: seq<SendEntry>) {
    function Next(): int {
      base + |win|
    }

    ghost predicate AllUsed() {
      forall i :: 0 <= i < |win| ==> win[i].Used()
    }
  }

  function PushEntry(v: SendView, e: SendEntry): SendView {
    v.(win := v.win + [e])
  }

  function Min(a: int, b: int): int { if a < b then a else b }
  function Max(a: int, b: int): int { if a < b then b else a }

  /** How many head entries an acknowledgement of wire number `ack` releases. */
  function Released(v: SendView, ack: Num): nat {
    Min(Max(Distance(Wrap(v.base), ack), 0), |v.win|)
  }

  function DropHead(v: SendView, n: nat): SendView
    requires n <= |v.win|
  {
    SendView(v.base + n, v.win[n..])
  }

  /** Seen through unbounded numbers, an acknowledgement of `a` releases exactly the entries below a. */
  lemma AckReleasesBelow(v: SendView, a: int)
    requires -HALF < a - v.base < HALF
    ensures DropHead(v, Released(v, Wrap(a))).base == Min(Max(a, v.base), v.Next())
    ensures DropHead(v, Released(v, Wrap(a))).Next() == v.Next()
  {
    WireOrderIsTrueOrder(v.base, a);
  }

  function Find(v: SendView, s: Num): Option<nat> {
    var d := Distance(Wrap(v.base), s);
    if 0 <= d < |v.win| then Some(d) else None
  }

  /** Find succeeds on exactly the wire images of the window. */
  lemma FindExact(v: SendView, s: Num, i: nat)
    requires |v.win| < HALF
    ensures Find(v, s) == Some(i) <==> i < |v.win| && s == Wrap(v.base + i)
  {
    DistanceCongruent(Wrap(v.base), s);
    if i < |v.win| && s == Wrap(v.base + i) {
      WireOrderIsTrueOrder(v.base, v.base + i);
    }
    if Find(v, s) == Some(i) {
      WrapOfSum(v.base, i);
    }
  }

  function RexmitOf(e: SendEntry): Packet
    requires e.Used()
  {
    e.pkt.value.Rexmit()
  }

  /** The retransmissions a loss list asks for, in list order. */
  ghost function Nak(v: SendView, losses: seq<Num>): seq<Packet>
    requires v.AllUsed()
  {
    if losses == [] then []
    else
      var rest := Nak(v, losses[..|losses| - 1]);
      var hit := Find(v, losses[|losses| - 1]);
      if hit.Some? then rest + [RexmitOf(v.win[hit.value])] else rest
  }

  /** Every entry carries the sequence number of its place. */
  ghost predicate Stamped(v: SendView) {
    forall i :: 0 <= i < |v.win| ==> v.win[i].Used() && v.win[i].pkt.value.seqNo == Wrap(v.base + i)
  }

  function InWindow(v: SendView, losses: seq<Num>): seq<Num> {
    if losses == [] then []
    else
      var last := losses[|losses| - 1];
      InWindow(v, losses[..|losses| - 1]) + (if Find(v, last).Some? then [last] else [])
  }

  function SeqNos(ps: seq<Packet>): (r: seq<Num>)
    ensures |r| == |ps|
  {
    seq(|ps|, i requires 0 <= i < |ps| => ps[i].seqNo)
  }

  /** A loss list is answered by exactly its in-window numbers, in the order asked. */
  lemma {:induction false} NakAnswersInWindow(v: SendView, losses: seq<Num>)
    requires Stamped(v) && |v.win| < HALF
    ensures SeqNos(Nak(v, losses)) == InWindow(v, losses)
  {
    if losses != [] {
      NakAnswersInWindow(v, losses[..|losses| - 1]);
      var last := losses[|losses| - 1];
      var hit := Find(v, last);
      if hit.Some? {
        FindExact(v, last, hit.value);
      }
    }
  }

  /** Each retransmission is the buffered packet of a number that was asked for. */
  lemma {:induction false} NakSound(v: SendView, losses: seq<Num>, p: Packet)
    requires v.AllUsed() && |v.win| < HALF && p in Nak(v, losses)
    ensures exists i :: 0 <= i < |v.win| && Wrap(v.base + i) in losses && p == RexmitOf(v.win[i])
  {
    var init, last := losses[..|losses| - 1], losses[|losses| - 1];
    var hit := Find(v, last);
    if p in Nak(v, init) {
      NakSound(v, init, p);
      var i :| 0 <= i < |v.win| && Wrap(v.base + i) in init && p == RexmitOf(v.win[i]);
      assert Wrap(v.base + i) in losses;
    } else {
      FindExact(v, last, hit.value);
      assert Wrap(v.base + hit.value) in losses;
    }
  }

  // ---- retransmission with a time gate ----

  datatype TimedNak = TimedNak(win: seq<SendEntry>, out: seq<Packet>)

  predicate TooRecent(e: SendEntry, timeNak: int) {
    e.rexmitTime != 0 && !(e.rexmitTime < timeNak)
  }

  /** NAKTimed, one listed number after another; a granted retransmission records its time. */
  ghost function NakTimed(v: SendView, losses: seq<Num>, now: int, timeNak: int): (r: TimedNak)
    requires v.AllUsed()
    ensures |r.win| == |v.win| && v.(win := r.win).AllUsed()
  {
    if losses == [] then TimedNak(v.win, [])
    else
      var rest := NakTimed(v, losses[..|losses| - 1], now, timeNak);
      TimedStep(v.base, rest, losses[|losses| - 1], now, timeNak)
  }

  ghost function TimedStep(base: int, t: TimedNak, s: Num, now: int, timeNak: int): (r: TimedNak)
    requires SendView(base, t.win).AllUsed()
    ensures |r.win| == |t.win| && SendView(base, r.win).AllUsed()
  {
    var hit := Find(SendView(base, t.win), s);
    if hit.None? || TooRecent(t.win[hit.value], timeNak) then t
    else
      var i := hit.value;
      TimedNak(t.win[i := t.win[i].(rexmitTime := now)], t.out + [RexmitOf(t.win[i])])
  }

  /** The times recorded by a gated NAK: an entry is touched only by a grant, and never mid-gate. */
  ghost predicate Touched(before: SendEntry, after: SendEntry, now: int, timeNak: int) {
    after == before || (!TooRecent(before, timeNak) && after == before.(rexmitTime := now))
  }

  ghost predicate Asked(v: SendView, i: int, losses: seq<Num>) {
    Wrap(v.base + i) in losses
  }

  lemma AskedStep(v: SendView, init: seq<Num>, last: Num)
    requires |v.win| < HALF
    ensures forall i :: 0 <= i < |v.win| ==>
              (Asked(v, i, init + [last]) <==> Asked(v, i, init) || Find(v, last) == Some(i))
  {
    forall i | 0 <= i < |v.win|
      ensures Asked(v, i, init + [last]) <==> Asked(v, i, init) || Find(v, last) == Some(i)
    {
      FindExact(v, last, i);
    }
  }

  /** r is v after gated requests for exactly the listed numbers, with one packet out per new entry inside the gate. */
  ghost predicate Gated(v: SendView, losses: seq<Num>, r: TimedNak, now: int, timeNak: int) {
    && |r.win| == |v.win|
    && (forall i :: 0 <= i < |v.win| ==> Touched(v.win[i], r.win[i], now, timeNak))
    && (forall i :: 0 <= i < |v.win| ==>
          (TooRecent(r.win[i], timeNak) <==> TooRecent(v.win[i], timeNak) || Asked(v, i, losses)))
    && |r.out| == Granted(v.win, r.win, timeNak)
  }

  /**
   * A gated NAK changes nothing but retransmission times, sends only entries whose last
   * retransmission is older than the gate, and (the clock being nonzero) sends each entry at
   * most once: as many packets go out as entries are touched, and each of those is now gated.
   */
  lemma {:induction false} NakTimedGates(v: SendView, losses: seq<Num>, now: int, timeNak: int)
    requires v.AllUsed() && |v.win| < HALF && now != 0 && timeNak <= now
    ensures Gated(v, losses, NakTimed(v, losses, now, timeNak), now, timeNak)
  {
    if losses == [] {
      GrantedNone(v.win, timeNak);
    } else {
      var init, last := losses[..|losses| - 1], losses[|losses| - 1];
      NakTimedGates(v, init, now, timeNak);
      GatedStep(v, init, NakTimed(v, init, now, timeNak), last, now, timeNak);
      assert init + [last] == losses;
    }
  }

  /** With the clock at zero a grant leaves no trace: every listed copy of a number is sent. */
  lemma ZeroClockRepeats(v: SendView, i: nat, timeNak: int)
    requires v.AllUsed() && |v.win| < HALF && i < |v.win| && v.win[i].rexmitTime == 0
    ensures var s := Wrap(v.base + i);
            NakTimed(v, [s, s], 0, timeNak) == TimedNak(v.win, [RexmitOf(v.win[i]), RexmitOf(v.win[i])])
  {
    var s := Wrap(v.base + i);
    FindExact(v, s, i);
    assert [s, s][..1] == [s] && [s][..0] == [];
    assert v.win[i := v.win[i].(rexmitTime := 0)] == v.win;
    assert NakTimed(v, [s], 0, timeNak) == TimedNak(v.win, [RexmitOf(v.win[i])]);
  }

  /**
   * With an entry outside the gate, a gated NAK gates what it sends, for every list, if and only if the
   * clock is nonzero.
   */
  lemma GatesExactly(v: SendView, i: nat, now: int, timeNak: int)
    requires v.AllUsed() && |v.win| < HALF && timeNak <= now && i < |v.win| && !TooRecent(v.win[i], timeNak)
    ensures (forall losses: seq<Num> :: Gated(v, losses, NakTimed(v, losses, now, timeNak), now, timeNak)) <==> now != 0
  {
    hide Gated, Wrap, Find;
    if now != 0 {
      forall losses: seq<Num>
        ensures Gated(v, losses, NakTimed(v, losses, now, timeNak), now, timeNak)
      {
        NakTimedGates(v, losses, now, timeNak);
      }
    } else {
      ZeroClockUngated(v, i, timeNak);
    }
  }

  lemma {:induction false} ZeroClockUngated(v: SendView, i: nat, timeNak: int)
    requires v.AllUsed() && |v.win| < HALF && i < |v.win| && !TooRecent(v.win[i], timeNak)
    ensures var s := Wrap(v.base + i); !Gated(v, [s], NakTimed(v, [s], 0, timeNak), 0, timeNak)
  {
    hide Wrap;
    var s := Wrap(v.base + i);
    FindExact(v, s, i);
    assert [s][..0] == [];
    assert NakTimed(v, [s], 0, timeNak).win[i].rexmitTime == 0;
    assert Asked(v, i, [s]);
  }

  lemma GatedStep(v: SendView, init: seq<Num>, t: TimedNak, last: Num, now: int, timeNak: int)
    requires v.AllUsed() && |v.win| < HALF && now != 0 && timeNak <= now
    requires Gated(v, init, t, now, timeNak) && SendView(v.base, t.win).AllUsed()
    ensures Gated(v, init + [last], TimedStep(v.base, t, last, now, timeNak), now, timeNak)
  {
    AskedStep(v, init, last);
    var hit := Find(v, last);
    assert Find(SendView(v.base, t.win), last) == hit;
    if hit.Some? && !TooRecent(t.win[hit.value], timeNak) {
      GatedGrant(v, init, t, last, hit.value, now, timeNak);
    }
  }

  lemma GatedGrant(v: SendView, init: seq<Num>, t: TimedNak, last: Num, i: nat, now: int, timeNak: int)
    requires now != 0 && timeNak <= now && i < |v.win|
    requires Gated(v, init, t, now, timeNak) && t.win[i].Used() && !TooRecent(t.win[i], timeNak)
    requires forall j :: 0 <= j < |v.win| ==> (Asked(v, j, init + [last]) <==> Asked(v, j, init) || j == i)
    ensures Gated(v, init + [last],
                  TimedNak(t.win[i := t.win[i].(rexmitTime := now)], t.out + [RexmitOf(t.win[i])]), now, timeNak)
  {
    assert t.win[i] == v.win[i];
    GrantedOne(v.win, t.win, timeNak, i, t.win[i].(rexmitTime := now));
  }

  /** Entries that were outside the gate before and are inside it after. */
  ghost function Granted(before: seq<SendEntry>, after: seq<SendEntry>, timeNak: int): nat
    requires |before| == |after|
  {
    if before == [] then 0
    else
      var n := |before| - 1;
      Granted(before[..n], after[..n], timeNak)
      + (if !TooRecent(before[n], timeNak) && TooRecent(after[n], timeNak) then 1 else 0)
  }

  lemma {:induction false} GrantedNone(w: seq<SendEntry>, timeNak: int)
    ensures Granted(w, w, timeNak) == 0
  {
    if w != [] {
      GrantedNone(w[..|w| - 1], timeNak);
    }
  }

  lemma {:induction false} GrantedOne(before: seq<SendEntry>, after: seq<SendEntry>, timeNak: int, i: nat, e: SendEntry)
    requires |before| == |after| && i < |before|
    requires !TooRecent(before[i], timeNak) && !TooRecent(after[i], timeNak) && TooRecent(e, timeNak)
    ensures Granted(before, after[i := e], timeNak) == Granted(before, after, timeNak) + 1
  {
    var n := |before| - 1;
    if i < n {
      GrantedOne(before[..n], after[..n], timeNak, i, e);
      assert after[i := e][..n] == after[..n][i := e];
    } else {
      assert after[i := e][..n] == after[..n];
    }
  }

  /**
   * The listed numbers a gated NAK should answer, in list order: those of window entries outside the
   * gate, each only at its first mention if a grant leaves a trace.
   */
  function Answered(v: SendView, losses: seq<Num>, timeNak: int, once: bool): seq<Num> {
    if losses == [] then []
    else
      var init, last := losses[..|losses| - 1], losses[|losses| - 1];
      var hit := Find(v, last);
      Answered(v, init, timeNak, once)
      + (if hit.Some? && !TooRecent(v.win[hit.value], timeNak) && !(once && last in init) then [last] else [])
  }

  /** What an entry looks like after the requests so far: granted ones carry the clock. */
  ghost predicate TimedEntry(v: SendView, losses: seq<Num>, r: TimedNak, now: int, timeNak: int, i: nat)
    requires i < |v.win| == |r.win|
  {
    r.win[i] == if !TooRecent(v.win[i], timeNak) && Asked(v, i, losses) then v.win[i].(rexmitTime := now) else v.win[i]
  }

  /**
   * A gated NAK answers exactly those numbers, in the order asked, and records the clock in exactly the
   * entries it answers; with the clock at zero a number is answered at every mention.
   */
  lemma {:induction false} NakTimedAnswers(v: SendView, losses: seq<Num>, now: int, timeNak: int)
    requires Stamped(v) && |v.win| < HALF && timeNak <= now
    ensures var r := NakTimed(v, losses, now, timeNak);
            && SeqNos(r.out) == Answered(v, losses, timeNak, now != 0)
            && forall i: nat :: i < |v.win| ==> TimedEntry(v, losses, r, now, timeNak, i)
  {
    hide Wrap, Find;
    if losses != [] {
      var init, last := losses[..|losses| - 1], losses[|losses| - 1];
      NakTimedAnswers(v, init, now, timeNak);
      var t := NakTimed(v, init, now, timeNak);
      AnswerStep(v, init, last, t, now, timeNak);
      assert init + [last] == losses;
    }
  }

  lemma AnswerStep(v: SendView, init: seq<Num>, last: Num, t: TimedNak, now: int, timeNak: int)
    requires Stamped(v) && |v.win| < HALF && timeNak <= now && |t.win| == |v.win| && SendView(v.base, t.win).AllUsed()
    requires forall i: nat :: i < |v.win| ==> TimedEntry(v, init, t, now, timeNak, i)
    ensures var r := TimedStep(v.base, t, last, now, timeNak);
            var hit := Find(v, last);
            var due := hit.Some? && !TooRecent(v.win[hit.value], timeNak) && !(now != 0 && last in init);
            && SeqNos(r.out) == SeqNos(t.out) + (if due then [last] else [])
            && forall i: nat :: i < |v.win| ==> TimedEntry(v, init + [last], r, now, timeNak, i)
  {
    AskedStep(v, init, last);
    var hit := Find(v, last);
    assert Find(SendView(v.base, t.win), last) == hit;
    hide Wrap, Find;
    if hit.Some? {
      FindExact(v, last, hit.value);
      assert Asked(v, hit.value, init) <==> last in init;
      assert TimedEntry(v, init, t, now, timeNak, hit.value);
      var p := RexmitOf(t.win[hit.value]);
      assert SeqNos(t.out + [p]) == SeqNos(t.out) + [last];
    }
    var r := TimedStep(v.base, t, last, now, timeNak);
    forall i: nat | i < |v.win|
      ensures TimedEntry(v, init + [last], r, now, timeNak, i)
    {
      assert TimedEntry(v, init, t, now, timeNak, i);
    }
  }

  /** Each packet a gated NAK sends is the buffered packet, R bit set, of a number asked for outside the gate. */
  lemma {:induction false} NakTimedSound(v: SendView, losses: seq<Num>, now: int, timeNak: int, p: Packet)
    requires Stamped(v) && |v.win| < HALF && timeNak <= now && p in NakTimed(v, losses, now, timeNak).out
    ensures exists i :: 0 <= i < |v.win| && Asked(v, i, losses) && !TooRecent(v.win[i], timeNak)
                        && p == RexmitOf(v.win[i])
  {
    hide Wrap, Find;
    var init, last := losses[..|losses| - 1], losses[|losses| - 1];
    var t, hit := NakTimed(v, init, now, timeNak), Find(v, last);
    if p in t.out {
      NakTimedSound(v, init, now, timeNak, p);
      var i :| 0 <= i < |v.win| && Asked(v, i, init) && !TooRecent(v.win[i], timeNak) && p == RexmitOf(v.win[i]);
      assert Asked(v, i, losses);
    } else {
      NakTimedAnswers(v, init, now, timeNak);
      SameFind(v, t.win, last);
      FindExact(v, last, hit.value);
      assert TimedEntry(v, init, t, now, timeNak, hit.value);
      assert Asked(v, hit.value, losses);
    }
  }

  lemma SameFind(v: SendView, win: seq<SendEntry>, s: Num)
    requires |win| == |v.win|
    ensures Find(SendView(v.base, win), s) == Find(v, s)
  {
  }

  /** Every buffered packet, marked for retransmission. */
  ghost function Unacked(v: SendView): (r: seq<Packet>)
    requires v.AllUsed()
  {
    seq(|v.win|, i requires 0 <= i < |v.win| => RexmitOf(v.win[i]))
  }

  // ---- too-late drop ----

  /** The smaller of the threshold and the entry's own time to live (nanoseconds), in microseconds. */
  function Deadline(e: SendEntry, thresh: int): int {
    var ttl := e.msgTTL / 1000;
    if e.msgTTL > 0 && (thresh == 0 || ttl < thresh) then ttl else thresh
  }

  predicate Expired(e: SendEntry, now: int, thresh: int) {
    Deadline(e, thresh) > 0 && now - e.sentAt > Deadline(e, thresh)
  }

  /**
   * An entry expires by age beyond the threshold or beyond its own time to live, where these are set. A
   * time to live below one microsecond rounds to none and switches off the threshold as well.
   */
  lemma ExpiredExact(e: SendEntry, now: int, thresh: nat)
    ensures Expired(e, now, thresh) <==>
              && !(0 < e.msgTTL < 1000)
              && ((thresh > 0 && now - e.sentAt > thresh) || (e.msgTTL > 0 && now - e.sentAt > e.msgTTL / 1000))
  {
  }

  /** n is the length of the maximal expired run at the head. */
  ghost predicate ExpiredHead(win: seq<SendEntry>, now: int, thresh: int, n: nat) {
    && n <= |win|
    && (forall i :: 0 <= i < n ==> Expired(win[i], now, thresh))
    && (n < |win| ==> !Expired(win[n], now, thresh))
  }

  lemma ExpiredHeadUnique(win: seq<SendEntry>, now: int, thresh: int, m: nat, n: nat)
    requires ExpiredHead(win, now, thresh, m) && ExpiredHead(win, now, thresh, n)
    ensures m == n
  {
  }
}

module SendRing {
  import opened SeqNum
  import opened Bits
  import opened Ring
  import opened Packets
  import opened SendWindow

  class SendBuffer {
    const entries: array<SendEntry>
    const mask: nat
    var startSeq: Num
    var nextSeq: Num
    var size: nat

    ghost var view: SendView

    ghost predicate Valid()
      reads this, entries
    {
      && IsCapacity(entries.Length) && mask == entries.Length - 1
      && startSeq == Wrap(view.base)
      && nextSeq == Wrap(view.Next())
      && size == |view.win|
      && view.AllUsed()
      && Holds(entries[..], view.base, view.win, NO_ENTRY)
    }

    constructor (capacity: int, initialSeq: Num, ghost isn: int)
      requires capacity <= Pow2(29) && initialSeq == Wrap(isn)
      ensures Valid() && fresh(entries)
      ensures entries.Length == NextPow2(capacity) && entries.Length >= capacity
      ensures view == SendView(isn, [])
    {
      hide Wrap, NextPow2, Pow2;
      var cap2 := NextPow2(capacity);
      CapacityOf(capacity);
      entries := new SendEntry[cap2](_ => NO_ENTRY);
      mask := cap2 - 1;
      startSeq := initialSeq;
      nextSeq := initialSeq;
      size := 0;
      view := SendView(isn, []);
      new;
      HoldsNothing(entries[..], isn, NO_ENTRY);
    }

    method Push(p: Packet, sentAt: int) returns (ok: bool)
      requires Valid()
      modifies this, entries
      ensures Valid()
      ensures ok <==> |old(view).win| < entries.Length
      ensures view == if ok then PushEntry(old(view), SendEntry(Some(p), sentAt, 0, 0)) else old(view)
    {
      hide Index, Wrap, Inc, Spot;
      if size >= entries.Length {
        return false;
      }
      var e := SendEntry(Some(p), sentAt, 0, 0);
      var idx := Index(nextSeq, mask);
      IndexIsSlot(view.Next(), entries.Length);
      HoldsPut(entries[..], view.base, view.win, NO_ENTRY, size, e);
      ghost var before := entries[..];
      entries[idx] := e;
      assert entries[..] == before[idx := e];
      assert Put(view.win, size, e, NO_ENTRY) == view.win + [e];
      WrapArith(view.Next(), 0);
      nextSeq := Inc(nextSeq);
      size := size + 1;
      view := PushEntry(view, e);
      ok := true;
    }

    method PushBatch(pkts: seq<Packet>, sentAt: int) returns (ok: bool)
      requires Valid()
      modifies this, entries
      ensures Valid()
      ensures ok <==> |old(view).win| + |pkts| <= entries.Length
      ensures view.base == old(view).base
      ensures view.win == old(view).win +
                if ok then seq(|pkts|, i requires 0 <= i < |pkts| => SendEntry(Some(pkts[i]), sentAt, 0, 0)) else []
    {
      if size + |pkts| > entries.Length {
        assert view.win == view.win + [];
        return false;
      }
      var i := 0;
      while i < |pkts|
        invariant 0 <= i <= |pkts|
        invariant Valid()
        invariant view.base == old(view).base && size == |old(view).win| + i
        invariant view.win == old(view).win +
                    seq(i, j requires 0 <= j < i => SendEntry(Some(pkts[j]), sentAt, 0, 0))
      {
        var pushed := Push(pkts[i], sentAt);
        i := i + 1;
      }
      ok := true;
    }

    /** The common step of every loop that releases from the head. */
    method PopHead()
      requires Valid() && size > 0
      modifies this, entries
      ensures Valid()
      ensures view == DropHead(old(view), 1)
      ensures startSeq == Inc(old(startSeq))
    {
      hide Index, Wrap, Spot, Inc;
      var idx := Index(startSeq, mask);
      IndexIsSlot(view.base, entries.Length);
      HoldsPop(entries[..], view.base, view.win, NO_ENTRY);
      ghost var before := entries[..];
      entries[idx] := NO_ENTRY;
      assert entries[..] == before[idx := NO_ENTRY];
      WrapArith(view.base, 0);
      startSeq := Inc(startSeq);
      size := size - 1;
      view := DropHead(view, 1);
    }

    /** The entry at the head slot, which is in use while the buffer is not empty. */
    method HeadEntry() returns (e: SendEntry)
      requires Valid() && size > 0
      ensures e == view.win[0]
    {
      IndexIsSlot(view.base, entries.Length);
      HoldsAt(entries[..], view.base, view.win, NO_ENTRY, 0);
      e := entries[Index(startSeq, mask)];
    }

    method Ack(ackSeq: Num) returns (count: nat)
      requires Valid()
      modifies this, entries
      ensures Valid()
      ensures count == Released(old(view), ackSeq)
      ensures view == DropHead(old(view), count)
    {
      hide Wrap, LessThan, Distance, Inc;
      count := 0;
      ghost var d := Distance(startSeq, ackSeq);
      DistanceCongruent(startSeq, ackSeq);
      while LessThan(startSeq, ackSeq) && size > 0
        invariant Valid()
        invariant count <= |old(view).win| && view == DropHead(old(view), count)
        invariant Distance(startSeq, ackSeq) == d - count && (count == 0 || count <= d)
        invariant LessThan(startSeq, ackSeq) <==> d - count > 0
        decreases size
      {
        StepDistance(startSeq, ackSeq);
        DistanceCongruent(Inc(startSeq), ackSeq);
        var e := HeadEntry();
        if e.Used() {
          PopHead();
          count := count + 1;
        }
      }
    }

    /** DropUntil runs the same loop as Ack; the caller gives up on the packets instead. */
    method DropUntil(upTo: Num) returns (count: nat)
      requires Valid()
      modifies this, entries
      ensures Valid()
      ensures count == Released(old(view), upTo)
      ensures view == DropHead(old(view), count)
    {
      count := Ack(upTo);
    }

    /** The slot of a listed number, when the range check of Get, NAK and NAKTimed passes. */
    method Locate(s: Num) returns (hit: Option<nat>)
      requires Valid()
      ensures hit.Some? <==> Find(view, s).Some?
      ensures hit.Some? ==> hit.value < entries.Length && entries[hit.value] == view.win[Find(view, s).value]
      ensures hit.Some? ==> hit.value == Spot(view.base + Find(view, s).value, entries.Length)
    {
      hide Index, Wrap, Spot;
      CapacityBounds(entries.Length);
      InRange(view, s);
      if LessThan(s, startSeq) || LessThanOrEqual(nextSeq, s) {
        return None;
      }
      var i := Find(view, s).value;
      FindExact(view, s, i);
      IndexIsSlot(view.base + i, entries.Length);
      HoldsAt(entries[..], view.base, view.win, NO_ENTRY, i);
      hit := Some(Index(s, mask));
    }

    method Get(s: Num) returns (p: Option<Packet>)
      requires Valid()
      ensures p == if Find(view, s).Some? then view.win[Find(view, s).value].pkt else None
    {
      var hit := Locate(s);
      if hit.None? || !entries[hit.value].Used() {
        return None;
      }
      p := entries[hit.value].pkt;
    }

    method Nak(losses: seq<Num>) returns (out: seq<Packet>)
      requires Valid()
      ensures out == SendWindow.Nak(view, losses)
    {
      out := [];
      var i := 0;
      while i < |losses|
        invariant 0 <= i <= |losses|
        invariant out == SendWindow.Nak(view, losses[..i])
      {
        var hit := Locate(losses[i]);
        assert losses[..i + 1][..i] == losses[..i];
        if hit.Some? && entries[hit.value].Used() {
          out := out + [entries[hit.value].pkt.value.Rexmit()];
        }
        i := i + 1;
      }
      assert losses[..i] == losses;
    }

    method NakTimed(losses: seq<Num>, now: int, rtt: int, rttVar: int) returns (out: seq<Packet>)
      requires Valid()
      modifies this, entries
      ensures Valid()
      ensures var gate := Max(rtt - 4 * rttVar, 0);
              var r := SendWindow.NakTimed(old(view), losses, now, now - gate);
              out == r.out && view == SendView(old(view).base, r.win)
    {
      hide Wrap, Spot, Distance;
      var gate := rtt - 4 * rttVar;
      if gate < 0 {
        gate := 0;
      }
      var timeNak := now - gate;
      out := [];
      var i := 0;
      while i < |losses|
        invariant 0 <= i <= |losses|
        invariant Valid() && view.base == old(view).base
        invariant TimedNak(view.win, out) == SendWindow.NakTimed(old(view), losses[..i], now, timeNak)
      {
        var hit := Locate(losses[i]);
        assert losses[..i + 1][..i] == losses[..i];
        if hit.Some? && entries[hit.value].Used() && !TooRecent(entries[hit.value], timeNak) {
          ghost var k := Find(view, losses[i]).value;
          var e := entries[hit.value];
          out := out + [e.pkt.value.Rexmit()];
          HoldsPut(entries[..], view.base, view.win, NO_ENTRY, k, e.(rexmitTime := now));
          ghost var before := entries[..];
          entries[hit.value] := e.(rexmitTime := now);
          assert entries[..] == before[hit.value := e.(rexmitTime := now)];
          view := view.(win := view.win[k := e.(rexmitTime := now)]);
        }
        i := i + 1;
      }
      assert losses[..i] == losses;
    }

    method GetAllUnacked() returns (out: seq<Packet>)
      requires Valid()
      ensures out == Unacked(view)
    {
      hide Wrap, Spot, Index, Inc, LessThan;
      CapacityBounds(entries.Length);
      if size == 0 {
        return [];
      }
      out := [];
      var s := startSeq;
      ghost var n := 0;
      WireOrderIsTrueOrder(view.base, view.Next());
      while LessThan(s, nextSeq)
        invariant 0 <= n <= |view.win| && s == Wrap(view.base + n)
        invariant LessThan(s, nextSeq) <==> n < |view.win|
        invariant out == Unacked(view)[..n]
        decreases |view.win| - n
      {
        var idx := Index(s, mask);
        IndexIsSlot(view.base + n, entries.Length);
        HoldsAt(entries[..], view.base, view.win, NO_ENTRY, n);
        if entries[idx].Used() {
          out := out + [entries[idx].pkt.value.Rexmit()];
        }
        WrapArith(view.base + n, 0);
        s := Inc(s);
        n := n + 1;
        WireOrderIsTrueOrder(view.base + n, view.Next());
      }
    }

    method DropTooLateSend(now: int, thresh: int) returns (dropped: nat, first: Num, last: Num)
      requires Valid()
      modifies this, entries
      ensures Valid()
      ensures ExpiredHead(old(view).win, now, thresh, dropped)
      ensures view == DropHead(old(view), dropped)
      ensures first == Wrap(old(view).base)
      ensures dropped > 0 ==> last == Wrap(old(view).base + dropped - 1)
    {
      hide Wrap;
      first := startSeq;
      last := 0;
      dropped := 0;
      while size > 0
        invariant Valid()
        invariant dropped <= |old(view).win| && view == DropHead(old(view), dropped)
        invariant forall i :: 0 <= i < dropped ==> Expired(old(view).win[i], now, thresh)
        invariant dropped > 0 ==> last == Wrap(old(view).base + dropped - 1)
        decreases size
      {
        var e := HeadEntry();
        assert e == old(view).win[dropped];
        if !e.Used() {
          break;
        }
        var eff := thresh;
        if e.msgTTL > 0 {
          var ttlUs := e.msgTTL / 1000;
          if eff == 0 || ttlUs < eff {
            eff := ttlUs;
          }
        }
        if eff <= 0 || now - e.sentAt <= eff {
          break;
        }
        last := startSeq;
        PopHead();
        dropped := dropped + 1;
      }
    }

    /** Tags the entry pushed last with a time to live. */
    method SetMsgTTL(ttl: int)
      requires Valid()
      modifies this, entries
      ensures Valid()
      ensures var w := old(view).win;
              view == old(view).(win := if w == [] then w else w[|w| - 1 := w[|w| - 1].(msgTTL := ttl)])
    {
      hide Index, Wrap, Spot, Dec;
      if size == 0 {
        return;
      }
      ghost var k := |view.win| - 1;
      WrapArith(view.Next(), 0);
      IndexIsSlot(view.base + k, entries.Length);
      HoldsAt(entries[..], view.base, view.win, NO_ENTRY, k);
      var idx := Index(Dec(nextSeq), mask);
      if entries[idx].Used() {
        ghost var before := entries[..];
        HoldsPut(entries[..], view.base, view.win, NO_ENTRY, k, entries[idx].(msgTTL := ttl));
        entries[idx] := entries[idx].(msgTTL := ttl);
        assert entries[..] == before[idx := before[idx].(msgTTL := ttl)];
        view := view.(win := view.win[k := before[idx].(msgTTL := ttl)]);
      }
    }
  }

  /** Rounding a requested capacity up gives a ring size the 31-bit order can handle. */
  lemma CapacityOf(capacity: int)
    requires capacity <= Pow2(29)
    ensures IsCapacity(NextPow2(capacity)) && NextPow2(capacity) >= capacity
  {
    if capacity <= 1 {
      assert Pow2(0) == 1;
    } else {
      var len := LengthOf(capacity - 1, 29);
      NextPow2Rounds(capacity, len);
    }
  }

  lemma {:induction false} LengthOf(x: nat, bound: nat) returns (len: nat)
    requires x < Pow2(bound)
    ensures len <= bound && HasLength(x, len)
  {
    if bound == 0 || Pow2(bound - 1) <= x {
      len := bound;
    } else {
      len := LengthOf(x, bound - 1);
    }
  }

  lemma StepDistance(a: Num, b: Num)
    requires Distance(a, b) > 0
    ensures Distance(Inc(a), b) == Distance(a, b) - 1
  {
  }

  /** The two wire comparisons of the range check pass exactly on the window. */
  lemma InRange(v: SendView, s: Num)
    requires |v.win| < HALF
    ensures Find(v, s).Some? <==> !(LessThan(s, Wrap(v.base)) || LessThanOrEqual(Wrap(v.Next()), s))
  {
    var d := Distance(Wrap(v.base), s);
    DistanceCongruent(Wrap(v.base), s);
    DistanceCongruent(s, Wrap(v.base));
    WrapOfSum(v.base, d);
    if 0 <= d && (d < HALF || |v.win| > 0) {
      WireOrderIsTrueOrder(v.base + d, v.Next());
    }
  }
}
