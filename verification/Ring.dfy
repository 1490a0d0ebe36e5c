/**
 * Power-of-two rings indexed by `sequence number & mask`, as both packet buffers use them.
 * A ring of slots represents a window of an unbounded sequence of slots.
 */
module Ring {
  import opened SeqNum
  import opened Bits

  /** Ring sizes for which 31-bit comparison is exact inside the window: powers of two below 2^30. */
  ghost predicate IsCapacity(cap: nat) {
    exists k: nat :: k <= 29 && cap == Pow2(k)
  }

  /** The source's slot computation: the 31-bit number masked with capacity - 1. */
  function Index(s: Num, mask: nat): nat {
    And(s, mask)
  }

  lemma SpaceIsPow2()
    ensures Pow2(31) == SPACE && Pow2(29) < HALF
  {
    assert Pow2(7) == 128;
    Pow2Add(7, 7);
    Pow2Add(14, 14);
    assert Pow2(28) == 0x1000_0000;
    assert Pow2(31) == 8 * Pow2(28) && Pow2(29) == 2 * Pow2(28);
  }

  lemma CapacityBounds(cap: nat)
    requires IsCapacity(cap)
    ensures 1 <= cap < HALF
  {
    var k: nat :| k <= 29 && cap == Pow2(k);
    SpaceIsPow2();
    Pow2Mono(k, 29);
  }

  /** Slot of an unbounded number in a ring of n slots. */
  function Spot(u: int, n: nat): (i: nat)
    requires n > 0
    ensures i < n
  {
    u % n
  }

  /** Masking the wire number finds the slot of the unbounded number. */
  lemma IndexIsSlot(u: int, cap: nat)
    requires IsCapacity(cap)
    ensures cap >= 1 && Index(Wrap(u), cap - 1) == Spot(u, cap) < cap
  {
    var k: nat :| k <= 29 && cap == Pow2(k);
    SpaceIsPow2();
    MaskIsMod(Wrap(u), k);
    ModOfMod(u, k, 31);
  }

  function At<T>(s: seq<T>, u: int): T
    requires |s| > 0
  {
    s[Spot(u, |s|)]
  }

  lemma SlotInjective(u: int, v: int, n: int)
    requires n > 0 && -n < v - u < n
    ensures Spot(u, n) == Spot(v, n) <==> u == v
  {
    var q, r := u / n, v / n;
    assert u == q * n + u % n && v == r * n + v % n;
    assert v - u == (r - q) * n + (v % n - u % n);
    if r - q >= 1 { MulGe(r - q, n); }
    if q - r >= 1 { MulGe(q - r, n); assert (q - r) * n == -((r - q) * n); }
  }

  lemma SpotShift(u: int, q: int, n: nat)
    requires n > 0
    ensures Spot(u + q * n, n) == Spot(u, n)
  {
    assert u == (u / n) * n + u % n;
    assert u + q * n == (u / n + q) * n + u % n;
    DivModUnique(u + q * n, n, u / n + q, u % n);
  }

  lemma SpotPeriodic(u: int, n: nat)
    requires n > 0
    ensures Spot(u + n, n) == Spot(u, n)
  {
    SpotShift(u, 1, n);
  }

  /** What slot u of the unbounded sequence holds: win from base on, `empty` past it. */
  ghost function Content<T>(base: int, win: seq<T>, empty: T, u: int): T {
    if base <= u < base + |win| then win[u - base] else empty
  }

  /** The ring s holds the window win starting at base, and every other slot is empty. */
  ghost predicate Holds<T>(s: seq<T>, base: int, win: seq<T>, empty: T) {
    && 0 < |s| && |win| <= |s|
    && forall u :: base <= u < base + |s| ==> At(s, u) == Content(base, win, empty, u)
  }

  /** win with slot i set, extended with empties if i lies past its end. */
  function Put<T>(win: seq<T>, i: nat, x: T, empty: T): (r: seq<T>)
    ensures |r| == if i < |win| then |win| else i + 1
  {
    if i < |win| then win[i := x] else win + seq(i - |win|, _ => empty) + [x]
  }

  lemma HoldsPut<T>(s: seq<T>, base: int, win: seq<T>, empty: T, i: nat, x: T)
    requires Holds(s, base, win, empty) && i < |s|
    ensures Holds(s[Spot(base + i, |s|) := x], base, Put(win, i, x, empty), empty)
  {
    var s' := s[Spot(base + i, |s|) := x];
    var win' := Put(win, i, x, empty);
    forall u | base <= u < base + |s|
      ensures At(s', u) == Content(base, win', empty, u)
    {
      SlotInjective(base + i, u, |s|);
      assert At(s, u) == Content(base, win, empty, u);
    }
  }

  /** Clearing the head slot and advancing the base drops the head of the window. */
  lemma HoldsPop<T>(s: seq<T>, base: int, win: seq<T>, empty: T)
    requires Holds(s, base, win, empty) && |win| > 0
    ensures At(s, base) == win[0]
    ensures Holds(s[Spot(base, |s|) := empty], base + 1, win[1..], empty)
  {
    var s' := s[Spot(base, |s|) := empty];
    assert At(s, base) == Content(base, win, empty, base);
    forall u | base + 1 <= u < base + 1 + |s|
      ensures At(s', u) == Content(base + 1, win[1..], empty, u)
    {
      if u == base + |s| {
        SpotPeriodic(base, |s|);
      } else {
        SlotInjective(base, u, |s|);
        assert At(s, u) == Content(base, win, empty, u);
      }
    }
  }

  /** The window may as well be counted from the slot of its base. */
  lemma HoldsFromSlot<T>(s: seq<T>, base: int, win: seq<T>, empty: T)
    requires Holds(s, base, win, empty)
    ensures Holds(s, Spot(base, |s|), win, empty)
  {
    var n, head := |s|, Spot(base, |s|);
    var q := base / n;
    assert base == q * n + head;
    hide Spot;
    forall u | head <= u < head + n
      ensures At(s, u) == Content(head, win, empty, u)
    {
      var v := u + q * n;
      assert At(s, v) == Content(base, win, empty, v);
      SpotShift(u, q, n);
    }
  }

  lemma HoldsNothing<T>(s: seq<T>, base: int, empty: T)
    requires |s| > 0 && forall j :: 0 <= j < |s| ==> s[j] == empty
    ensures Holds(s, base, [], empty)
  {
  }

  lemma HoldsAt<T>(s: seq<T>, base: int, win: seq<T>, empty: T, i: nat)
    requires Holds(s, base, win, empty) && i < |s|
    ensures At(s, base + i) == if i < |win| then win[i] else empty
  {
    var u := base + i;
    assert At(s, u) == Content(base, win, empty, u);
  }
}
