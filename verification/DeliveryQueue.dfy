/**
 * The bounded application receive queue (internal/session/delivery.go): a FIFO with a count and a
 * byte limit, kept in a ring that grows on demand.
 */
module QueueRuns {
  import opened Packets

  /** A delivered message; its buffer may be larger than the data it holds. */
  datatype Delivery = Delivery(data: Bytes, slack: nat, meta: nat) {
    function Cap(): nat {
      |data| + slack
    }
  }

  const NONE := Delivery([], 0, 0)

  datatype Limits = Limits(capacity: nat, byteLimit: nat)

  datatype Queue = Queue(items: seq<Delivery>, failed: bool, dropped: nat, dropBytes: nat)

  const EMPTY := Queue([], false, 0, 0)

  /** Buffer bytes held by a sequence of deliveries. */
  function Held(items: seq<Delivery>): nat {
    if items == [] then 0 else items[0].Cap() + Held(items[1..])
  }

  /** Payload bytes of a sequence of deliveries. */
  function Size(items: seq<Delivery>): nat {
    if items == [] then 0 else |items[0].data| + Size(items[1..])
  }

  predicate Fits(items: seq<Delivery>, d: Delivery, lim: Limits) {
    |items| < lim.capacity && d.Cap() <= lim.byteLimit - Held(items)
  }

  /** No eviction can make room for d. */
  predicate TooBig(d: Delivery, lim: Limits) {
    d.Cap() > lim.byteLimit || lim.capacity == 0
  }

  predicate Refused(q: Queue, d: Delivery, live: bool, lim: Limits) {
    q.failed || (!live && !Fits(q.items, d, lim))
  }

  function Discard(q: Queue, d: Delivery): Queue {
    q.(dropped := q.dropped + 1, dropBytes := q.dropBytes + |d.data|)
  }

  /** Drops from the front until d fits. */
  function Evict(q: Queue, d: Delivery, lim: Limits): Queue
    requires !TooBig(d, lim)
    decreases |q.items|
  {
    if q.items == [] || Fits(q.items, d, lim) then q
    else Evict(Discard(q, q.items[0]).(items := q.items[1..]), d, lim)
  }

  function Append(q: Queue, d: Delivery): Queue {
    q.(items := q.items + [d])
  }

  function Push(q: Queue, d: Delivery, live: bool, lim: Limits): Queue {
    if Refused(q, d, live, lim) then Discard(q, d).(failed := true)
    else if TooBig(d, lim) then Discard(q, d)
    else Append(Evict(q, d, lim), d)
  }

  predicate Within(q: Queue, lim: Limits) {
    |q.items| <= lim.capacity && Held(q.items) <= lim.byteLimit
  }

  // ---- sums ----

  lemma {:induction false} SumsAppend(a: seq<Delivery>, b: seq<Delivery>)
    ensures Held(a + b) == Held(a) + Held(b)
    ensures Size(a + b) == Size(a) + Size(b)
  {
    if a == [] {
      assert a + b == b;
    } else {
      SumsAppend(a[1..], b);
      assert (a + b)[1..] == a[1..] + b;
    }
  }

  lemma SumsOne(d: Delivery)
    ensures Held([d]) == d.Cap() && Size([d]) == |d.data|
  {
    assert [d][1..] == [];
  }

  /** A delivery fits exactly if the queue keeps both limits with it. */
  lemma FitsExact(q: Queue, d: Delivery, lim: Limits)
    ensures Fits(q.items, d, lim) <==> Within(Append(q, d), lim)
    ensures TooBig(d, lim) <==> !Fits([], d, lim)
  {
    SumsAppend(q.items, [d]);
    SumsOne(d);
  }

  /** A reliable push is taken exactly if the limits hold with it; otherwise the queue fails and keeps what it has. */
  lemma ReliablePush(q: Queue, d: Delivery, lim: Limits)
    requires !q.failed
    ensures var r := Push(q, d, false, lim);
            && (Within(Append(q, d), lim) ==> r == Append(q, d))
            && (!Within(Append(q, d), lim) ==>
                  r == Queue(q.items, true, q.dropped + 1, q.dropBytes + |d.data|))
  {
    FitsExact(q, d, lim);
  }

  /** A failed queue takes nothing more, in either mode. */
  lemma FailedPush(q: Queue, d: Delivery, live: bool, lim: Limits)
    requires q.failed
    ensures Push(q, d, live, lim) == Queue(q.items, true, q.dropped + 1, q.dropBytes + |d.data|)
  {
  }

  // ---- eviction keeps the longest suffix that fits ----

  ghost predicate LongestFitting(items: seq<Delivery>, k: nat, d: Delivery, lim: Limits) {
    && k <= |items|
    && Fits(items[k..], d, lim)
    && forall i :: 0 <= i < k ==> !Fits(items[i..], d, lim)
  }

  /** Eviction stops at the longest suffix that fits together with d, and counts what it drops. */
  lemma {:induction false} EvictExact(q: Queue, d: Delivery, lim: Limits) returns (k: nat)
    requires !TooBig(d, lim)
    ensures LongestFitting(q.items, k, d, lim)
    ensures Evict(q, d, lim) == q.(items := q.items[k..], dropped := q.dropped + k,
                                   dropBytes := q.dropBytes + Size(q.items[..k]))
    decreases |q.items|
  {
    if q.items == [] || Fits(q.items, d, lim) {
      k := 0;
      assert q.items[0..] == q.items;
    } else {
      var r := Discard(q, q.items[0]).(items := q.items[1..]);
      var j := EvictExact(r, d, lim);
      k := j + 1;
      assert r.items[j..] == q.items[k..];
      assert q.items[..k] == [q.items[0]] + r.items[..j];
      SumsAppend([q.items[0]], r.items[..j]);
      SumsOne(q.items[0]);
      forall i | 0 <= i < k
        ensures !Fits(q.items[i..], d, lim)
      {
        if i == 0 {
          assert q.items[0..] == q.items;
        } else {
          assert q.items[i..] == r.items[i - 1..];
        }
      }
    }
  }

  /** A live push always gets in unless no eviction could make room, behind the longest suffix that fits with it. */
  lemma LivePush(q: Queue, d: Delivery, lim: Limits) returns (k: nat)
    requires !q.failed
    ensures !Push(q, d, true, lim).failed
    ensures if TooBig(d, lim) then Push(q, d, true, lim).items == q.items
            else LongestFitting(q.items, k, d, lim) && Push(q, d, true, lim).items == q.items[k..] + [d]
  {
    k := 0;
    if !TooBig(d, lim) {
      k := EvictExact(q, d, lim);
    }
  }

  lemma PushWithin(q: Queue, d: Delivery, live: bool, lim: Limits)
    requires Within(q, lim)
    ensures Within(Push(q, d, live, lim), lim)
  {
    if !Refused(q, d, live, lim) && !TooBig(d, lim) {
      var k := EvictExact(q, d, lim);
      SumsAppend(q.items[k..], [d]);
      SumsOne(d);
    }
  }

  // ---- runs ----

  datatype Step = PushStep(d: Delivery, live: bool) | PopStep

  /** The queue with its history; order lists the push indices of what was popped and of what is queued. */
  datatype Run = Run(q: Queue, pushed: seq<Delivery>, popped: seq<Delivery>, order: seq<nat>)

  const START := Run(EMPTY, [], [], [])

  function Kept(r: Run): seq<Delivery> {
    r.popped + r.q.items
  }

  function PushedOrder(r: Run, q': Queue): seq<nat>
    requires |r.popped| <= |r.order|
  {
    var n := |r.popped|;
    if |q'.items| == 0 || Gone(r, q') > |r.order| - n then r.order
    else Spliced(r.order, n, Gone(r, q'), |r.pushed|)
  }

  /** How many queued deliveries an accepting push evicted. */
  function Gone(r: Run, q': Queue): nat {
    if |r.q.items| + 1 <= |q'.items| then 0 else |r.q.items| + 1 - |q'.items|
  }

  function Do(r: Run, s: Step, lim: Limits): Run
    requires |r.popped| <= |r.order|
  {
    match s
    case PushStep(d, live) =>
      var q' := Push(r.q, d, live, lim);
      Run(q', r.pushed + [d], r.popped,
          if Refused(r.q, d, live, lim) || TooBig(d, lim) then r.order else PushedOrder(r, q'))
    case PopStep =>
      if r.q.items == [] then r
      else r.(q := r.q.(items := r.q.items[1..]), popped := r.popped + [r.q.items[0]])
  }

  /** What was popped and what is queued are pushed deliveries in the order of the pushes. */
  ghost predicate InOrder(r: Run) {
    && |r.order| == |r.popped| + |r.q.items|
    && (forall i, j :: 0 <= i < j < |r.order| ==> r.order[i] < r.order[j])
    && (forall i :: 0 <= i < |r.order| ==> r.order[i] < |r.pushed| && Kept(r)[i] == r.pushed[r.order[i]])
  }

  ghost predicate Conserves(r: Run) {
    && |r.pushed| == |r.popped| + |r.q.items| + r.q.dropped
    && Size(r.pushed) == Size(r.popped) + Size(r.q.items) + r.q.dropBytes
  }

  ghost predicate Inv(r: Run, lim: Limits) {
    Within(r.q, lim) && InOrder(r) && Conserves(r)
  }

  lemma PushConserves(r: Run, d: Delivery, live: bool, lim: Limits)
    requires Conserves(r) && |r.popped| <= |r.order|
    ensures Conserves(Do(r, PushStep(d, live), lim))
  {
    SumsAppend(r.pushed, [d]);
    SumsOne(d);
    if !Refused(r.q, d, live, lim) && !TooBig(d, lim) {
      var k := EvictExact(r.q, d, lim);
      assert r.q.items == r.q.items[..k] + r.q.items[k..];
      SumsAppend(r.q.items[..k], r.q.items[k..]);
      SumsAppend(r.q.items[k..], [d]);
    }
  }

  lemma PushInOrder(r: Run, d: Delivery, live: bool, lim: Limits)
    requires InOrder(r)
    ensures InOrder(Do(r, PushStep(d, live), lim))
  {
    var r' := Do(r, PushStep(d, live), lim);
    assert forall i :: 0 <= i < |r.pushed| ==> r'.pushed[i] == r.pushed[i];
    if !Refused(r.q, d, live, lim) && !TooBig(d, lim) {
      var k := EvictExact(r.q, d, lim);
      AcceptInOrder(r, d, k, r');
    }
  }

  function Spliced(o: seq<nat>, n: nat, k: nat, x: nat): seq<nat>
    requires n + k <= |o|
  {
    o[..n] + o[n + k..] + [x]
  }

  /** Leaving out a stretch of rising numbers and adding a larger one keeps them rising. */
  lemma SplicedRises(o: seq<nat>, n: nat, k: nat, x: nat)
    requires n + k <= |o|
    requires forall i, j :: 0 <= i < j < |o| ==> o[i] < o[j]
    requires forall i :: 0 <= i < |o| ==> o[i] < x
    ensures var s := Spliced(o, n, k, x);
            && |s| == |o| - k + 1
            && (forall i, j :: 0 <= i < j < |s| ==> s[i] < s[j])
            && (forall i :: 0 <= i < |s| ==> s[i] == if i < n then o[i] else if i < |o| - k then o[i + k] else x)
  {
  }

  lemma AcceptInOrder(r: Run, d: Delivery, k: nat, r': Run)
    requires InOrder(r) && k <= |r.q.items|
    requires r'.q.items == r.q.items[k..] + [d] && r'.popped == r.popped && r'.pushed == r.pushed + [d]
    requires r'.order == PushedOrder(r, r'.q)
    ensures InOrder(r')
  {
    hide Kept;
    var n := |r.popped|;
    assert Gone(r, r'.q) == k;
    assert r'.order == Spliced(r.order, n, k, |r.pushed|);
    SplicedRises(r.order, n, k, |r.pushed|);
    KeptLength(r);
    KeptLength(r');
    forall i | 0 <= i < |r'.order|
      ensures r'.order[i] < |r'.pushed| && Kept(r')[i] == r'.pushed[r'.order[i]]
    {
      KeptAfter(r, d, k, r', i);
    }
  }

  lemma KeptLength(r: Run)
    ensures |Kept(r)| == |r.popped| + |r.q.items|
  {
  }

  /** Entry i after an accepting push that evicts k. */
  lemma KeptAfter(r: Run, d: Delivery, k: nat, r': Run, i: nat)
    requires k <= |r.q.items| && r'.q.items == r.q.items[k..] + [d] && r'.popped == r.popped
    requires i < |r.popped| + |r.q.items| - k + 1
    ensures Kept(r')[i] == if i < |r.popped| then Kept(r)[i] else if i < |Kept(r)| - k then Kept(r)[i + k] else d
  {
  }

  lemma PopKeeps(r: Run, lim: Limits)
    requires Inv(r, lim)
    ensures Inv(Do(r, PopStep, lim), lim)
  {
    if r.q.items != [] {
      var r' := Do(r, PopStep, lim);
      var d := r.q.items[0];
      assert r.q.items == [d] + r.q.items[1..];
      SumsAppend(r.popped, [d]);
      SumsOne(d);
      assert Kept(r') == Kept(r);
    }
  }

  lemma DoKeeps(r: Run, s: Step, lim: Limits)
    requires Inv(r, lim)
    ensures Inv(Do(r, s, lim), lim)
  {
    hide InOrder, Conserves, Within;
    assert |r.popped| <= |r.order| by {
      OrderLength(r);
    }
    match s
    case PushStep(d, live) =>
      PushWithin(r.q, d, live, lim);
      PushInOrder(r, d, live, lim);
      PushConserves(r, d, live, lim);
    case PopStep =>
      PopKeeps(r, lim);
  }

  lemma OrderLength(r: Run)
    requires InOrder(r)
    ensures |r.popped| <= |r.order|
  {
  }

  function After(steps: seq<Step>, lim: Limits): (r: Run)
    ensures Inv(r, lim)
  {
    if steps == [] then START
    else
      var r := After(steps[..|steps| - 1], lim);
      DoKeeps(r, steps[|steps| - 1], lim);
      Do(r, steps[|steps| - 1], lim)
  }

  /**
   * After every run of pushes and pops, in any mix of modes: the limits hold, deliveries come out in
   * the order they went in, and every push is popped, queued or counted as dropped.
   */
  lemma {:induction false} QueueBounded(steps: seq<Step>, lim: Limits)
    ensures var r := After(steps, lim);
            && |r.q.items| <= lim.capacity && Held(r.q.items) <= lim.byteLimit
            && |r.pushed| == |r.popped| + |r.q.items| + r.q.dropped
            && Size(r.pushed) == Size(r.popped) + Size(r.q.items) + r.q.dropBytes
            && InOrder(r)
  {
    assert Inv(After(steps, lim), lim);
  }

  ghost predicate Reliable(steps: seq<Step>) {
    forall i :: 0 <= i < |steps| && steps[i].PushStep? ==> !steps[i].live
  }

  /**
   * Reliable mode never evicts: pops followed by the queue are a prefix of the pushes, the whole of
   * them as long as the queue has not failed, and the pushes after a failure are what is missing.
   */
  lemma {:induction false} ReliablePrefix(steps: seq<Step>, lim: Limits)
    requires Reliable(steps)
    ensures var r := After(steps, lim);
            Kept(r) <= r.pushed && (!r.q.failed ==> Kept(r) == r.pushed && r.q.dropped == 0)
  {
    if steps != [] {
      var init, s := steps[..|steps| - 1], steps[|steps| - 1];
      ReliablePrefix(init, lim);
      var r := After(init, lim);
      assert After(steps, lim) == Do(r, s, lim);
      ReliableStep(r, s, lim);
    }
  }

  lemma ReliableStep(r: Run, s: Step, lim: Limits)
    requires |r.popped| <= |r.order| && (s.PushStep? ==> !s.live)
    requires Kept(r) <= r.pushed && (!r.q.failed ==> Kept(r) == r.pushed && r.q.dropped == 0)
    ensures var r' := Do(r, s, lim);
            Kept(r') <= r'.pushed && (!r'.q.failed ==> Kept(r') == r'.pushed && r'.q.dropped == 0)
  {
    var r' := Do(r, s, lim);
    match s
    case PushStep(d, live) =>
      if !Refused(r.q, d, live, lim) {
        assert r'.q.items == r.q.items + [d];
        assert Kept(r') == Kept(r) + [d];
      }
    case PopStep =>
      if r.q.items != [] {
        assert r.q.items == [r.q.items[0]] + r.q.items[1..];
        assert Kept(r') == Kept(r);
      }
  }
}

module QueueRing {
  import opened Packets
  import opened QueueRuns
  import opened Ring

  /** The ring holds items from head on, and nothing in its other slots; an empty ring holds nothing. */
  ghost predicate Stores(ring: seq<Delivery>, head: nat, items: seq<Delivery>) {
    if |ring| == 0 then head == 0 && items == [] else head < |ring| && Holds(ring, head, items, NONE)
  }

  lemma StoresPop(ring: seq<Delivery>, head: nat, items: seq<Delivery>)
    requires Stores(ring, head, items) && items != []
    ensures head < |ring| && Stores(ring[head := NONE], Spot(head + 1, |ring|), items[1..])
  {
    hide Holds;
    Room(ring, head, items);
    HoldsPop(ring, head, items, NONE);
    HoldsFromSlot(ring[head := NONE], head + 1, items[1..], NONE);
  }

  lemma StoresPut(ring: seq<Delivery>, head: nat, items: seq<Delivery>, d: Delivery)
    requires Stores(ring, head, items) && |items| < |ring|
    ensures Stores(ring[(head + |items|) % |ring| := d], head, items + [d])
  {
    hide Holds;
    HoldsPut(ring, head, items, NONE, |items|, d);
    assert Put(items, |items|, d, NONE) == items + [d];
  }

  lemma StoresAt(ring: seq<Delivery>, head: nat, items: seq<Delivery>, i: nat)
    requires Stores(ring, head, items) && i < |items|
    ensures |ring| > 0 && ring[(head + i) % |ring|] == items[i]
  {
    hide Holds;
    Room(ring, head, items);
    HoldsAt(ring, head, items, NONE, i);
  }

  lemma HeadAt(ring: seq<Delivery>, head: nat, items: seq<Delivery>)
    requires Stores(ring, head, items) && items != []
    ensures head < |ring| && ring[head] == items[0]
  {
    StoresAt(ring, head, items, 0);
    Room(ring, head, items);
  }

  lemma Room(ring: seq<Delivery>, head: nat, items: seq<Delivery>)
    requires Stores(ring, head, items)
    ensures |items| <= |ring| && (|ring| > 0 ==> head < |ring|)
  {
  }

  class DeliveryQueue {
    var buf: array<Delivery>
    var head: nat
    var size: nat
    var bytes: nat
    var failed: bool
    var dropped: nat
    var dropBytes: nat
    const limits: Limits
    ghost var view: Queue

    ghost predicate Valid()
      reads this, buf
    {
      && Within(view, limits)
      && Stores(buf[..], head, view.items)
      && size == |view.items|
      && bytes == Held(view.items)
      && failed == view.failed
      && dropped == view.dropped
      && dropBytes == view.dropBytes
    }

    constructor (ready: nat, backlog: nat, bytes: nat)
      ensures Valid() && fresh(buf) && view == EMPTY && limits == Limits(ready + backlog, bytes)
    {
      buf := new Delivery[0];
      head, size, this.bytes, failed, dropped, dropBytes := 0, 0, 0, false, 0, 0;
      limits := Limits(ready + backlog, bytes);
      view := EMPTY;
    }

    method PopLocked() returns (d: Delivery)
      requires Valid() && size > 0
      modifies this`head, this`size, this`bytes, this`view, buf
      ensures Valid() && buf == old(buf)
      ensures old(view).items == [d] + view.items && view == old(view).(items := view.items)
    {
      hide Within, Stores, Held, Size, Spot;
      ghost var items := view.items;
      Room(buf[..], head, items);
      HeadAt(buf[..], head, items);
      StoresPop(buf[..], head, items);
      TailWithin(items, limits);
      d := buf[head];
      assert items == [d] + items[1..];
      ghost var ring := buf[..];
      buf[head] := NONE;
      assert buf[..] == ring[head := NONE];
      head := Spot(head + 1, buf.Length);
      size := size - 1;
      bytes := bytes - d.Cap();
      view := view.(items := items[1..]);
    }

    method Discard(d: Delivery)
      requires Valid()
      modifies this`dropped, this`dropBytes, this`view
      ensures Valid() && view == QueueRuns.Discard(old(view), d)
    {
      dropped := dropped + 1;
      dropBytes := dropBytes + |d.data|;
      view := QueueRuns.Discard(view, d);
    }

    predicate FitsNow(d: Delivery)
      requires Valid()
      reads this, buf
      ensures FitsNow(d) == Fits(view.items, d, limits)
    {
      size < limits.capacity && d.Cap() <= limits.byteLimit - bytes
    }

    /** Takes d: appended, or discarded, with the oldest evicted for it only in live mode. */
    method Push(d: Delivery, live: bool) returns (ok: bool)
      requires Valid()
      modifies this, buf
      ensures Valid() && view == QueueRuns.Push(old(view), d, live, limits)
      ensures ok == !Refused(old(view), d, live, limits)
      ensures fresh(buf) || buf == old(buf)
    {
      hide Stores, Evict, Held;
      if failed {
        Discard(d);
        return false;
      }
      if !FitsNow(d) && !live {
        failed := true;
        view := view.(failed := true);
        Discard(d);
        return false;
      }
      if d.Cap() > limits.byteLimit || limits.capacity == 0 {
        Discard(d);
        return true;
      }
      MakeRoom(d);
      Room(buf[..], head, view.items);
      if size == buf.Length {
        Grow();
      }
      Store(d);
      return true;
    }

    method MakeRoom(d: Delivery)
      requires Valid() && !TooBig(d, limits)
      modifies this`head, this`size, this`bytes, this`view, this`dropped, this`dropBytes, buf
      ensures Valid() && view == Evict(old(view), d, limits) && Fits(view.items, d, limits)
      ensures buf == old(buf)
    {
      hide Stores, Within;
      while !FitsNow(d)
        invariant Valid() && buf == old(buf) && Evict(view, d, limits) == Evict(old(view), d, limits)
        decreases size
      {
        ghost var was := view;
        var e := PopLocked();
        Discard(e);
        assert was.items[1..] == view.items;
      }
    }

    method SlotAt(i: nat) returns (d: Delivery)
      requires Valid() && i < size
      ensures d == view.items[i]
    {
      hide Within, Stores;
      StoresAt(buf[..], head, view.items, i);
      d := buf[..][(head + i) % buf.Length];
    }

    /** Moves the contents, in order, to the start of a larger ring. */
    method Grow()
      requires Valid() && size == buf.Length < limits.capacity
      modifies this`buf, this`head
      ensures Valid() && fresh(buf) && buf.Length > old(buf.Length)
    {
      hide Within, Stores, Held;
      var doubled := if 64 > buf.Length * 2 then 64 else buf.Length * 2;
      var n := if limits.capacity < doubled then limits.capacity else doubled;
      var next := new Delivery[n](_ => NONE);
      for i := 0 to size
        modifies next
        invariant forall j :: 0 <= j < i ==> next[j] == view.items[j]
        invariant forall j :: i <= j < n ==> next[j] == NONE
      {
        next[i] := SlotAt(i);
      }
      StoresFromZero(next[..], view.items);
      buf := next;
      head := 0;
    }

    method Store(d: Delivery)
      requires Valid() && size < buf.Length && Fits(view.items, d, limits)
      modifies this`size, this`bytes, this`view, buf
      ensures Valid() && view == Append(old(view), d) && buf == old(buf)
    {
      hide Stores;
      Room(buf[..], head, view.items);
      StoresPut(buf[..], head, view.items, d);
      ghost var ring := buf[..];
      buf[(head + size) % buf.Length] := d;
      assert buf[..] == ring[(head + size) % buf.Length := d];
      size := size + 1;
      bytes := bytes + d.Cap();
      SumsAppend(view.items, [d]);
      SumsOne(d);
      view := Append(view, d);
    }

    /** Takes the oldest delivery, if there is one. */
    method Pop() returns (d: Option<Delivery>)
      requires Valid()
      modifies this`head, this`size, this`bytes, this`view, buf
      ensures Valid() && buf == old(buf)
      ensures view.failed == old(view.failed) && view.dropped == old(view.dropped)
              && view.dropBytes == old(view.dropBytes)
      ensures if old(view).items == [] then d == None && view == old(view)
              else d == Some(old(view).items[0]) && view.items == old(view).items[1..]
    {
      if size == 0 {
        return None;
      }
      var e := PopLocked();
      return Some(e);
    }
  }

  lemma StoresFromZero(ring: seq<Delivery>, items: seq<Delivery>)
    requires |items| <= |ring|
    requires forall i :: 0 <= i < |items| ==> ring[i] == items[i]
    requires forall i :: |items| <= i < |ring| ==> ring[i] == NONE
    ensures Stores(ring, 0, items)
  {
  }

  lemma {:induction false} TailWithin(items: seq<Delivery>, lim: Limits)
    requires items != []
    ensures forall q: Queue :: Within(q, lim) && q.items == items ==> Within(q.(items := items[1..]), lim)
    ensures Held(items[1..]) == Held(items) - items[0].Cap()
  {
  }
}
