/**
 * The receive-side merge of bonded links (internal/core/group.go): one ordered stream without
 * duplicates out of the copies that several links deliver.
 */
module MergeRuns {
  import opened Packets

  const REORDER_WINDOW: nat := 256

  /** One packet that some link delivered, with its unbounded sequence number. */
  datatype Arrival = Arrival(seqNo: nat, data: Bytes)

  datatype Merge = Merge(
    started: bool,
    next: nat,
    maxSeen: nat,
    pending: map<nat, Bytes>,
    dedups: nat,
    log: seq<Arrival>)

  const EMPTY := Merge(false, 0, 0, map[], 0, [])

  ghost predicate Bounded(m: Merge) {
    && m.next <= m.maxSeen + 1
    && forall v :: v in m.pending ==> m.next <= v <= m.maxSeen
  }

  ghost predicate Sound(m: Merge) {
    Bounded(m) && (m.started || m == EMPTY)
  }

  function Taken(m: Merge): Merge
    requires m.next in m.pending
  {
    m.(pending := m.pending - {m.next}, log := m.log + [Arrival(m.next, m.pending[m.next])], next := m.next + 1)
  }

  predicate MustSkip(m: Merge) {
    m.next !in m.pending && m.maxSeen > m.next + REORDER_WINDOW
  }

  function Drain(m: Merge): Merge
    requires Bounded(m)
    decreases m.maxSeen + 1 - m.next
  {
    if m.next in m.pending then Drain(Taken(m))
    else if MustSkip(m) then Drain(m.(next := m.next + 1))
    else m
  }

  function Started(m: Merge, a: Arrival): Merge {
    if m.started then m else m.(started := true, next := a.seqNo, maxSeen := a.seqNo)
  }

  predicate Duplicate(m: Merge, a: Arrival) {
    a.seqNo < m.next || a.seqNo in m.pending
  }

  function Stored(m: Merge, a: Arrival): Merge {
    m.(pending := m.pending[a.seqNo := a.data], maxSeen := if a.seqNo > m.maxSeen then a.seqNo else m.maxSeen)
  }

  function Offer(m: Merge, a: Arrival): Merge
    requires Sound(m)
  {
    var s := Started(m, a);
    if Duplicate(s, a) then s.(dedups := s.dedups + 1) else Drain(Stored(s, a))
  }

  // ---- invariants over runs ----

  ghost predicate Increasing(log: seq<Arrival>) {
    forall i, j :: 0 <= i < j < |log| ==> log[i].seqNo < log[j].seqNo
  }

  predicate Delivered(log: seq<Arrival>, v: nat) {
    exists i :: 0 <= i < |log| && log[i].seqNo == v
  }

  /** a is the first copy of its number to arrive. */
  ghost predicate FirstCopy(arrivals: seq<Arrival>, a: Arrival) {
    exists j :: 0 <= j < |arrivals| && arrivals[j] == a && forall i :: 0 <= i < j ==> arrivals[i].seqNo != a.seqNo
  }

  /** Arrival j is not before the stream and comes no more than 256 behind the front. */
  ghost predicate Timely(arrivals: seq<Arrival>, j: nat) {
    && j < |arrivals|
    && arrivals[0].seqNo <= arrivals[j].seqNo
    && forall i :: 0 <= i < j ==> arrivals[i].seqNo <= arrivals[j].seqNo + REORDER_WINDOW
  }

  /** What holds between the steps of a drain. */
  ghost predicate Ordered(m: Merge, first: nat) {
    && Bounded(m)
    && first <= m.next
    && Increasing(m.log)
    && (forall a :: a in m.log ==> first <= a.seqNo < m.next)
    && (forall v :: first <= v < m.next ==> Delivered(m.log, v) || m.maxSeen > v + REORDER_WINDOW)
  }

  ghost predicate Faithful(m: Merge, arrivals: seq<Arrival>) {
    && (forall a :: a in m.log ==> FirstCopy(arrivals, a))
    && (forall v :: v in m.pending ==> FirstCopy(arrivals, Arrival(v, m.pending[v])))
  }

  ghost predicate Settled(m: Merge) {
    m.next !in m.pending && m.maxSeen <= m.next + REORDER_WINDOW
  }

  ghost predicate Front(m: Merge, arrivals: seq<Arrival>) {
    && (exists i :: 0 <= i < |arrivals| && arrivals[i].seqNo == m.maxSeen)
    && (forall i :: 0 <= i < |arrivals| ==> arrivals[i].seqNo <= m.maxSeen)
  }

  function Calls(m: Merge): nat {
    |m.log| + |m.pending| + m.dedups
  }

  /** Everything that holds after a run of calls. */
  ghost predicate Inv(m: Merge, arrivals: seq<Arrival>) {
    if arrivals == [] then m == EMPTY
    else
      && m.started
      && Ordered(m, arrivals[0].seqNo)
      && Settled(m)
      && Front(m, arrivals)
      && Faithful(m, arrivals)
      && Calls(m) == |arrivals|
      && forall j: nat :: Timely(arrivals, j) ==> Kept(m, arrivals[j].seqNo)
  }

  predicate Kept(m: Merge, v: nat) {
    Delivered(m.log, v) || v in m.pending
  }

  function After(arrivals: seq<Arrival>): (m: Merge)
    ensures Sound(m)
  {
    if arrivals == [] then EMPTY
    else
      var m := After(arrivals[..|arrivals| - 1]);
      OfferSound(m, arrivals[|arrivals| - 1]);
      Offer(m, arrivals[|arrivals| - 1])
  }

  lemma {:induction false} DrainBounded(m: Merge)
    requires Bounded(m)
    ensures Bounded(Drain(m))
    decreases m.maxSeen + 1 - m.next
  {
    if m.next in m.pending {
      DrainBounded(Taken(m));
    } else if MustSkip(m) {
      DrainBounded(m.(next := m.next + 1));
    }
  }

  lemma OfferSound(m: Merge, a: Arrival)
    requires Sound(m)
    ensures Sound(Offer(m, a)) && Offer(m, a).started
  {
    var s := Started(m, a);
    if !Duplicate(s, a) {
      DrainBounded(Stored(s, a));
      DrainKeepsRest(Stored(s, a));
    }
  }

  lemma {:induction false} DrainKeepsRest(m: Merge)
    requires Bounded(m)
    ensures var d := Drain(m); d.started == m.started && d.maxSeen == m.maxSeen && d.dedups == m.dedups && Settled(d)
    ensures Calls(Drain(m)) == Calls(m)
    decreases m.maxSeen + 1 - m.next
  {
    if m.next in m.pending {
      DrainKeepsRest(Taken(m));
      assert |Taken(m).pending| == |m.pending| - 1 by {
        assert Taken(m).pending.Keys == m.pending.Keys - {m.next};
        assert |Taken(m).pending| == |Taken(m).pending.Keys| && |m.pending| == |m.pending.Keys|;
      }
    } else if MustSkip(m) {
      DrainKeepsRest(m.(next := m.next + 1));
    }
  }

  lemma {:induction false} DrainOrdered(m: Merge, first: nat)
    requires Ordered(m, first)
    ensures Ordered(Drain(m), first)
    decreases m.maxSeen + 1 - m.next
  {
    if m.next in m.pending {
      TakenOrdered(m, first);
      DrainOrdered(Taken(m), first);
    } else if MustSkip(m) {
      var s := m.(next := m.next + 1);
      DrainOrdered(s, first);
    }
  }

  lemma TakenOrdered(m: Merge, first: nat)
    requires Ordered(m, first) && m.next in m.pending
    ensures Ordered(Taken(m), first)
  {
    var d := Taken(m);
    var n := |m.log|;
    assert d.log[n].seqNo == m.next;
    assert forall i :: 0 <= i < n ==> d.log[i] == m.log[i] && m.log[i] in m.log;
    forall v | first <= v < d.next
      ensures Delivered(d.log, v) || d.maxSeen > v + REORDER_WINDOW
    {
      if v < m.next && Delivered(m.log, v) {
        var i :| 0 <= i < n && m.log[i].seqNo == v;
        assert d.log[i].seqNo == v;
      }
    }
  }

  lemma {:induction false} DrainFaithful(m: Merge, arrivals: seq<Arrival>)
    requires Bounded(m) && Faithful(m, arrivals)
    ensures Faithful(Drain(m), arrivals)
    decreases m.maxSeen + 1 - m.next
  {
    hide FirstCopy;
    if m.next in m.pending {
      assert FirstCopy(arrivals, Arrival(m.next, m.pending[m.next]));
      DrainFaithful(Taken(m), arrivals);
    } else if MustSkip(m) {
      DrainFaithful(m.(next := m.next + 1), arrivals);
    }
  }

  /** A drain never loses a packet it holds. */
  lemma {:induction false} DrainKeeps(m: Merge, v: nat)
    requires Bounded(m) && Kept(m, v)
    ensures Kept(Drain(m), v)
    decreases m.maxSeen + 1 - m.next
  {
    if m.next in m.pending {
      var d := Taken(m);
      assert d.log[|m.log|].seqNo == m.next;
      if Delivered(m.log, v) {
        var i :| 0 <= i < |m.log| && m.log[i].seqNo == v;
        assert d.log[i].seqNo == v;
      }
      DrainKeeps(d, v);
    } else if MustSkip(m) {
      DrainKeeps(m.(next := m.next + 1), v);
    }
  }

  // ---- one call ----

  lemma FirstCopyStays(arrivals: seq<Arrival>, b: Arrival, a: Arrival)
    requires FirstCopy(arrivals, a)
    ensures FirstCopy(arrivals + [b], a)
  {
    var j :| 0 <= j < |arrivals| && arrivals[j] == a && forall i :: 0 <= i < j ==> arrivals[i].seqNo != a.seqNo;
    assert (arrivals + [b])[j] == a;
  }

  lemma FaithfulStays(m: Merge, arrivals: seq<Arrival>, b: Arrival)
    requires Faithful(m, arrivals)
    ensures Faithful(m, arrivals + [b])
  {
    hide FirstCopy;
    forall a | FirstCopy(arrivals, a)
      ensures FirstCopy(arrivals + [b], a)
    {
      FirstCopyStays(arrivals, b, a);
    }
  }

  /** A number at or beyond the front of the stream that is not pending has never arrived before. */
  lemma NewNumber(m: Merge, arrivals: seq<Arrival>, b: Arrival)
    requires Inv(m, arrivals) && arrivals != [] && !Duplicate(m, b)
    ensures FirstCopy(arrivals + [b], b)
  {
    var all := arrivals + [b];
    forall i | 0 <= i < |arrivals|
      ensures all[i].seqNo != b.seqNo
    {
      if arrivals[i].seqNo == b.seqNo {
        NeverTwice(m, arrivals, i);
        assert false;
      }
    }
    assert all[|arrivals|] == b;
  }

  /** Every arrival is delivered, pending or behind the stream. */
  lemma NeverTwice(m: Merge, arrivals: seq<Arrival>, i: nat)
    requires Inv(m, arrivals) && i < |arrivals|
    ensures Duplicate(m, arrivals[i])
  {
    var v := arrivals[i].seqNo;
    DeliveredIsBehind(m, arrivals[0].seqNo, v);
    if v >= m.next {
      assert m.maxSeen <= v + REORDER_WINDOW;
      assert Timely(arrivals, i);
      assert Kept(m, v);
    }
  }

  lemma DeliveredIsBehind(m: Merge, first: nat, v: nat)
    requires Ordered(m, first)
    ensures Delivered(m.log, v) ==> v < m.next
  {
    if Delivered(m.log, v) {
      var k :| 0 <= k < |m.log| && m.log[k].seqNo == v;
      assert m.log[k] in m.log;
    }
  }

  lemma FrontGrows(m: Merge, arrivals: seq<Arrival>, b: Arrival, m': Merge)
    requires Front(m, arrivals)
    requires m'.maxSeen == if b.seqNo > m.maxSeen then b.seqNo else m.maxSeen
    ensures Front(m', arrivals + [b])
  {
    var all := arrivals + [b];
    var i :| 0 <= i < |arrivals| && arrivals[i].seqNo == m.maxSeen;
    assert all[i].seqNo == m.maxSeen && all[|arrivals|] == b;
  }

  /** What the new call makes of the packets that came in time. */
  lemma TimelyKept(m: Merge, arrivals: seq<Arrival>, b: Arrival, j: nat)
    requires Inv(m, arrivals) && arrivals != [] && Timely(arrivals + [b], j)
    ensures j < |arrivals| ==> Kept(m, arrivals[j].seqNo)
    ensures j == |arrivals| && Duplicate(m, b) ==> Kept(m, b.seqNo)
  {
    var all := arrivals + [b];
    assert all[0] == arrivals[0];
    if j < |arrivals| {
      assert forall i :: 0 <= i < j ==> arrivals[i] == all[i];
      assert Timely(arrivals, j);
    } else if b.seqNo < m.next {
      var i :| 0 <= i < |arrivals| && arrivals[i].seqNo == m.maxSeen;
      assert all[i].seqNo <= b.seqNo + REORDER_WINDOW;
    }
  }

  lemma DuplicateKeeps(m: Merge, arrivals: seq<Arrival>, b: Arrival)
    requires Sound(m) && Inv(m, arrivals) && arrivals != [] && Duplicate(m, b)
    ensures Inv(Offer(m, b), arrivals + [b])
  {
    hide FirstCopy, Faithful, Ordered, Front;
    var m' := Offer(m, b);
    var all := arrivals + [b];
    FaithfulStays(m, arrivals, b);
    SameParts(m, m', all, arrivals[0].seqNo);
    BelowFront(m, arrivals, b);
    FrontGrows(m, arrivals, b, m');
    forall j: nat | Timely(all, j)
      ensures Kept(m', all[j].seqNo)
    {
      TimelyKept(m, arrivals, b, j);
    }
  }

  lemma BelowFront(m: Merge, arrivals: seq<Arrival>, b: Arrival)
    requires Inv(m, arrivals) && arrivals != [] && Duplicate(m, b)
    ensures b.seqNo <= m.maxSeen
  {
  }

  lemma SameParts(m: Merge, m': Merge, arrivals: seq<Arrival>, first: nat)
    requires m' == m.(dedups := m'.dedups)
    ensures Faithful(m, arrivals) ==> Faithful(m', arrivals)
    ensures Ordered(m, first) ==> Ordered(m', first)
  {
  }

  lemma StoredOrdered(m: Merge, first: nat, b: Arrival)
    requires Ordered(m, first) && !Duplicate(m, b)
    ensures Ordered(Stored(m, b), first)
  {
    hide Delivered, Increasing;
  }

  lemma StoredFaithful(m: Merge, all: seq<Arrival>, b: Arrival)
    requires Faithful(m, all) && FirstCopy(all, b)
    ensures Faithful(Stored(m, b), all)
  {
    hide FirstCopy;
  }

  lemma StoredParts(m: Merge, arrivals: seq<Arrival>, b: Arrival)
    requires Inv(m, arrivals) && arrivals != [] && !Duplicate(m, b)
    ensures Ordered(Stored(m, b), arrivals[0].seqNo)
    ensures Faithful(Stored(m, b), arrivals + [b])
    ensures Calls(Stored(m, b)) == |arrivals| + 1
  {
    hide Ordered, Faithful, FirstCopy, Front, Settled;
    FaithfulStays(m, arrivals, b);
    NewNumber(m, arrivals, b);
    StoredOrdered(m, arrivals[0].seqNo, b);
    StoredFaithful(m, arrivals + [b], b);
    var s := Stored(m, b);
    assert s.pending.Keys == m.pending.Keys + {b.seqNo};
    assert |s.pending| == |s.pending.Keys| && |m.pending| == |m.pending.Keys|;
  }

  lemma StoreKeeps(m: Merge, arrivals: seq<Arrival>, b: Arrival)
    requires Sound(m) && Inv(m, arrivals) && arrivals != [] && !Duplicate(m, b)
    ensures Inv(Offer(m, b), arrivals + [b])
  {
    hide FirstCopy, Faithful, Ordered, Front, Drain, Calls;
    var s, all := Stored(m, b), arrivals + [b];
    StoredParts(m, arrivals, b);
    assert Bounded(s);
    var m' := Drain(s);
    assert m' == Offer(m, b);
    DrainOrdered(s, arrivals[0].seqNo);
    DrainFaithful(s, all);
    DrainKeepsRest(s);
    FrontGrows(m, arrivals, b, m');
    forall j: nat | Timely(all, j)
      ensures Kept(m', all[j].seqNo)
    {
      TimelyKept(m, arrivals, b, j);
      assert Kept(s, all[j].seqNo);
      DrainKeeps(s, all[j].seqNo);
    }
  }

  lemma CallsOf(m: Merge)
    ensures Calls(m) == |m.log| + |m.pending| + m.dedups
  {
  }

  lemma FirstOffer(b: Arrival)
    ensures Offer(EMPTY, b) == Merge(true, b.seqNo + 1, b.seqNo, map[], 0, [b])
  {
    var s := Stored(Started(EMPTY, b), b);
    var t := Taken(s);
    assert t.pending == map[] && t.log == [b];
    assert Drain(s) == Drain(t) == t;
  }

  lemma FirstKeeps(b: Arrival)
    ensures Inv(Offer(EMPTY, b), [b])
  {
    hide Offer, Drain, Calls;
    FirstOffer(b);
    var t := Offer(EMPTY, b);
    assert Calls(t) == 1 by {
      CallsOf(t);
    }
    assert t.log[0].seqNo == b.seqNo;
    assert FirstCopy([b], b) by {
      assert [b][0] == b;
    }
    assert Delivered(t.log, b.seqNo);
    assert [b][0].seqNo == t.maxSeen;
  }

  lemma OfferKeeps(m: Merge, arrivals: seq<Arrival>, b: Arrival)
    requires Sound(m) && Inv(m, arrivals)
    ensures Inv(Offer(m, b), arrivals + [b])
  {
    if arrivals == [] {
      assert arrivals + [b] == [b];
      FirstKeeps(b);
    } else if Duplicate(m, b) {
      DuplicateKeeps(m, arrivals, b);
    } else {
      StoreKeeps(m, arrivals, b);
    }
  }

  lemma NothingYet()
    ensures Inv(EMPTY, [])
  {
  }

  lemma {:induction false} RunInv(arrivals: seq<Arrival>)
    ensures Inv(After(arrivals), arrivals)
  {
    hide Inv, Offer, Sound;
    if arrivals == [] {
      NothingYet();
    } else {
      var init := arrivals[..|arrivals| - 1];
      RunInv(init);
      OfferKeeps(After(init), init, arrivals[|arrivals| - 1]);
      assert init + [arrivals[|arrivals| - 1]] == arrivals;
    }
  }

  // ---- the promises of the merge ----

  lemma {:induction false} KeysBound(s: set<nat>, lo: nat, n: nat)
    requires forall v :: v in s ==> lo <= v < lo + n
    ensures |s| <= n
  {
    if n == 0 {
      assert s == {};
    } else {
      var t := s - {lo + n - 1};
      KeysBound(t, lo, n - 1);
      assert s <= t + {lo + n - 1};
      if lo + n - 1 in s {
        assert s == t + {lo + n - 1};
      } else {
        assert s == t;
      }
    }
  }

  /**
   * After every run of calls: what was delivered is strictly increasing, each number with the payload
   * that arrived first; at most 256 packets are held back; and every call is accounted for.
   */
  lemma {:induction false} MergeDelivers(arrivals: seq<Arrival>)
    ensures Increasing(After(arrivals).log)
    ensures forall a :: a in After(arrivals).log ==> FirstCopy(arrivals, a)
    ensures |After(arrivals).pending| <= REORDER_WINDOW
    ensures |arrivals| == |After(arrivals).log| + |After(arrivals).pending| + After(arrivals).dedups
  {
    hide After, FirstCopy;
    RunInv(arrivals);
    var m := After(arrivals);
    if arrivals != [] {
      assert |m.pending| == |m.pending.Keys|;
      KeysBound(m.pending.Keys, m.next + 1, REORDER_WINDOW);
    }
  }

  /**
   * Nothing is held back: after every run of calls the next number to deliver is missing, and the front
   * is at most 256 past it; with nothing missing everything is delivered.
   */
  lemma {:induction false} NothingHeldBack(arrivals: seq<Arrival>)
    requires arrivals != []
    ensures var m := After(arrivals);
            && m.next !in m.pending && m.maxSeen <= m.next + REORDER_WINDOW
            && (forall v :: v in m.pending ==> m.next < v <= m.maxSeen)
            && (exists i :: 0 <= i < |arrivals| && arrivals[i].seqNo == m.maxSeen)
            && (forall i :: 0 <= i < |arrivals| ==> arrivals[i].seqNo <= m.maxSeen)
  {
    hide After, Faithful, FirstCopy;
    RunInv(arrivals);
  }

  /** A number is passed over only when the front is more than 256 ahead of it. */
  lemma {:induction false} SkippedOnlyWhenFarBehind(arrivals: seq<Arrival>, v: nat)
    requires arrivals != [] && arrivals[0].seqNo <= v < After(arrivals).next && !Delivered(After(arrivals).log, v)
    ensures exists i :: 0 <= i < |arrivals| && arrivals[i].seqNo > v + REORDER_WINDOW
  {
    RunInv(arrivals);
    var i :| 0 <= i < |arrivals| && arrivals[i].seqNo == After(arrivals).maxSeen;
    assert arrivals[i].seqNo > v + REORDER_WINDOW;
  }

  /** Reordering by up to 256 loses nothing: such a packet is delivered or still held. */
  lemma {:induction false} TimelyIsKept(arrivals: seq<Arrival>, j: nat)
    requires Timely(arrivals, j)
    ensures Kept(After(arrivals), arrivals[j].seqNo)
  {
    RunInv(arrivals);
  }

  /** Packets that arrive in order are delivered at once. */
  lemma {:induction false} InOrderIsImmediate(arrivals: seq<Arrival>)
    requires forall i :: 0 <= i < |arrivals| ==> arrivals[i].seqNo == arrivals[0].seqNo + i
    ensures After(arrivals).log == arrivals && After(arrivals).pending == map[]
    ensures arrivals != [] ==> After(arrivals).next == arrivals[0].seqNo + |arrivals|
  {
    var n := |arrivals|;
    if n > 0 {
      var init, b := arrivals[..n - 1], arrivals[n - 1];
      InOrderIsImmediate(init);
      RunInv(init);
      assert arrivals == init + [b];
      var m := Started(After(init), b);
      assert m.next == b.seqNo;
      var t := Taken(Stored(m, b));
      assert t.pending == map[] && t.log == arrivals;
      assert t.maxSeen == b.seqNo;
      assert Drain(t) == t;
    }
  }
}

module Merging {
  import opened SeqNum
  import opened Packets
  import opened MergeRuns

  // ---- the pending map is keyed by wire numbers ----

  ghost predicate Image(p: map<Num, Bytes>, v: map<nat, Bytes>) {
    && (forall k :: k in v ==> Wrap(k) in p && p[Wrap(k)] == v[k])
    && (forall w :: w in p ==> exists k :: k in v && Wrap(k) == w)
  }

  ghost predicate KeysIn(v: map<nat, Bytes>, lo: nat) {
    forall k :: k in v ==> lo <= k < lo + HALF
  }

  lemma ImageHas(p: map<Num, Bytes>, v: map<nat, Bytes>, lo: nat, u: nat)
    requires Image(p, v) && KeysIn(v, lo) && lo <= u < lo + HALF
    ensures Wrap(u) in p <==> u in v
  {
    if Wrap(u) in p {
      var k :| k in v && Wrap(k) == Wrap(u);
      WrapInjective(k, u);
    }
  }

  lemma ImagePut(p: map<Num, Bytes>, v: map<nat, Bytes>, lo: nat, u: nat, d: Bytes)
    requires Image(p, v) && KeysIn(v, lo) && lo <= u < lo + HALF
    ensures Image(p[Wrap(u) := d], v[u := d])
  {
    hide Wrap;
    var p', v' := p[Wrap(u) := d], v[u := d];
    forall k | k in v'
      ensures Wrap(k) in p' && p'[Wrap(k)] == v'[k]
    {
      if k != u {
        WrapInjective(k, u);
      }
    }
    forall w | w in p'
      ensures exists k :: k in v' && Wrap(k) == w
    {
      if w == Wrap(u) {
        assert u in v';
      } else {
        var k :| k in v && Wrap(k) == w;
        assert k in v';
      }
    }
  }

  lemma ImageDelete(p: map<Num, Bytes>, v: map<nat, Bytes>, lo: nat, u: nat)
    requires Image(p, v) && KeysIn(v, lo) && lo <= u < lo + HALF
    ensures Image(p - {Wrap(u)}, v - {u})
  {
    hide Wrap;
    var p', v' := p - {Wrap(u)}, v - {u};
    forall k | k in v'
      ensures Wrap(k) in p' && p'[Wrap(k)] == v'[k]
    {
      WrapInjective(k, u);
    }
    forall w | w in p'
      ensures exists k :: k in v' && Wrap(k) == w
    {
      var k :| k in v && Wrap(k) == w;
      assert k in v';
    }
  }

  /** The comparisons of a call, on numbers less than 2^30 apart. */
  ghost predicate Recent(m: Merge, u: nat) {
    m.started ==> -HALF < u - m.next < HALF - 1
  }

  function Datas(log: seq<Arrival>): seq<Bytes> {
    seq(|log|, i requires 0 <= i < |log| => log[i].data)
  }

  class Merger {
    var pending: map<Num, Bytes>
    var deliverNext: Num
    var dnInit: bool
    var maxSeen: Num
    var maxSeenSet: bool
    var dedups: nat
    var delivered: seq<Bytes>
    ghost var view: Merge
    ghost var popped: nat

    /** The fields are the wire image of the value, which may be in the middle of a drain. */
    ghost predicate Mirrors()
      reads this
    {
      && Bounded(view)
      && dnInit && maxSeenSet && view.started
      && view.maxSeen < view.next + HALF
      && Image(pending, view.pending)
      && deliverNext == Wrap(view.next)
      && maxSeen == Wrap(view.maxSeen)
      && dedups == view.dedups
      && popped <= |view.log|
      && delivered == Datas(view.log)[popped..]
    }

    ghost predicate Valid()
      reads this
    {
      if view.started then Mirrors() && Settled(view)
      else view == EMPTY && !dnInit && !maxSeenSet && pending == map[] && dedups == 0 && popped == 0 && delivered == []
    }

    constructor ()
      ensures Valid() && view == After([]) && popped == 0
    {
      pending, deliverNext, dnInit, maxSeen, maxSeenSet, dedups, delivered := map[], 0, false, 0, false, 0, [];
      view, popped := EMPTY, 0;
    }

    /** Takes one copy of packet u; a run of such calls leaves the value that MergeRuns.After describes. */
    method FilterDelivery(s: Num, payload: Bytes, ghost u: nat)
      requires Valid() && Sound(view) && s == Wrap(u) && Recent(view, u)
      modifies this
      ensures Valid() && view == Offer(old(view), Arrival(u, payload)) && popped == old(popped)
    {
      hide Wrap, LessThan, GreaterThan, Image, Drain, Offer, Datas;
      ghost var a := Arrival(u, payload);
      ghost var m := Started(view, a);
      OfferCases(view, a);
      if !dnInit {
        deliverNext := s;
        dnInit := true;
        NothingPending();
      }
      WireOrderIsTrueOrder(u, m.next);
      if LessThan(s, deliverNext) {
        dedups := dedups + 1;
        view := view.(dedups := view.dedups + 1);
        return;
      }
      ImageHas(pending, m.pending, m.next, u);
      if s in pending {
        dedups := dedups + 1;
        view := view.(dedups := view.dedups + 1);
        return;
      }
      ImagePut(pending, m.pending, m.next, u, payload);
      WireOrderIsTrueOrder(u, m.maxSeen);
      pending := pending[s := payload];
      if !maxSeenSet || GreaterThan(s, maxSeen) {
        maxSeen, maxSeenSet := s, true;
      }
      view := Stored(m, a);
      DrainPending();
    }

    /** Delivers in order, passing a gap only when the front is more than 256 past it; always stops. */
    method DrainPending()
      requires Mirrors()
      modifies this
      ensures Mirrors() && Settled(view) && view == Drain(old(view)) && popped == old(popped)
    {
      hide Wrap, LessThan, GreaterThan, Image, Datas;
      while true
        invariant Mirrors() && Drain(view) == Drain(old(view)) && popped == old(popped)
        decreases view.maxSeen + 1 - view.next
      {
        ImageHas(pending, view.pending, view.next, view.next);
        WrapArith(view.next, REORDER_WINDOW);
        WireOrderIsTrueOrder(view.maxSeen, view.next + REORDER_WINDOW);
        if deliverNext in pending {
          TakeNext();
        } else if maxSeenSet && GreaterThan(maxSeen, Add(deliverNext, REORDER_WINDOW)) {
          deliverNext := Inc(deliverNext);
          view := view.(next := view.next + 1);
        } else {
          return;
        }
      }
    }

    method TakeNext()
      requires Mirrors() && view.next in view.pending && deliverNext in pending
      modifies this
      ensures Mirrors() && view == Taken(old(view)) && popped == old(popped)
    {
      hide Wrap, LessThan, GreaterThan, Datas;
      WrapArith(view.next, 1);
      ImageDelete(pending, view.pending, view.next, view.next);
      var d := pending[deliverNext];
      pending := pending - {deliverNext};
      delivered := delivered + [d];
      deliverNext := Inc(deliverNext);
      view := Taken(view);
      DatasSnoc(old(view).log, Arrival(old(view).next, d), popped);
    }

    /** Pops the oldest payload not yet taken. */
    method PollDelivery() returns (data: Option<Bytes>)
      requires Valid()
      modifies this
      ensures Valid() && view == old(view)
      ensures data == if old(popped) < |view.log| then Some(view.log[old(popped)].data) else None
      ensures popped == old(popped) + (if data.Some? then 1 else 0)
    {
      if delivered == [] {
        return None;
      }
      data := Some(delivered[0]);
      delivered := delivered[1..];
      popped := popped + 1;
    }
  }

  lemma NothingPending()
    ensures Image(map[], map[]) && Datas([])[0..] == []
  {
  }

  lemma OfferCases(m: Merge, a: Arrival)
    requires Sound(m)
    ensures var s := Started(m, a);
            Bounded(s)
            && (if Duplicate(s, a) then Offer(m, a) == s.(dedups := s.dedups + 1)
                else Bounded(Stored(s, a)) && Offer(m, a) == Drain(Stored(s, a)))
  {
  }

  lemma DatasSnoc(log: seq<Arrival>, a: Arrival, n: nat)
    requires n <= |log|
    ensures Datas(log + [a])[n..] == Datas(log)[n..] + [a.data]
  {
  }
}
