/**
 * 31-bit wrapping sequence numbers (internal/seq/seq.go) and their relation to the
 * unbounded sequence numbers that the protocol proofs count with.
 */
module SeqNum {

  const SPACE: int := 0x8000_0000      // number of distinct sequence numbers, 2^31
  const MAX: int := 0x7FFF_FFFF
  const THRESHOLD: int := 0x3FFF_FFFF
  const HALF: int := 0x4000_0000       // 2^30
  const WORD: int := 0x1_0000_0000     // 2^32, the width of the source's uint32

  type Num = n: int | 0 <= n < SPACE

  /** The wire image of an unbounded sequence number. */
  function Wrap(u: int): Num {
    u % SPACE
  }

  function Inc(a: Num): Num {
    if a >= MAX then 0 else a + 1
  }

  function Dec(a: Num): Num {
    if a == 0 then MAX else a - 1
  }

  /** uint32 addition followed by one conditional subtraction. */
  function Add(a: Num, n: nat): Num
    requires n < WORD
  {
    var sum := (a + n) % WORD;
    if sum > MAX then sum - SPACE else sum
  }

  function Distance(a: Num, b: Num): int {
    if a == b then 0
    else
      var d := if b > a then b - a else a - b;
      if d <= THRESHOLD then (if b > a then d else -d)
      else
        var wrapped := MAX - d + 1;
        if b > a then -wrapped else wrapped
  }

  predicate LessThan(a: Num, b: Num) {
    if a == b then false
    else
      var aLessNumerically := !(a > b);
      var d := if a > b then a - b else b - a;
      if d <= THRESHOLD then aLessNumerically else !aLessNumerically
  }

  predicate LessThanOrEqual(a: Num, b: Num) {
    a == b || LessThan(a, b)
  }

  predicate GreaterThan(a: Num, b: Num) {
    a != b && !LessThan(a, b)
  }

  /** Wrapping commutes with every step of the source's arithmetic. */
  lemma WrapArith(u: int, n: nat)
    requires n < WORD
    ensures Inc(Wrap(u)) == Wrap(u + 1)
    ensures Dec(Wrap(u)) == Wrap(u - 1)
    ensures Add(Wrap(u), n) == Wrap(u + n)
  {
    var q := u / SPACE;
    assert u == q * SPACE + Wrap(u);
    var sum := (Wrap(u) + n) % WORD;
    assert sum == Wrap(u) + n || sum == Wrap(u) + n - WORD;
  }

  /** Distance is the representative of b - a modulo 2^31 of least magnitude, and the order is its sign. */
  lemma DistanceCongruent(a: Num, b: Num)
    ensures -HALF <= Distance(a, b) <= HALF
    ensures Wrap(a + Distance(a, b)) == b
    ensures Distance(b, a) == -Distance(a, b)
    ensures LessThan(a, b) <==> Distance(a, b) > 0
  {
  }

  /** The documented bound on Distance, "at most Threshold", fails exactly for antipodal numbers. */
  lemma DistanceWithinThreshold(a: Num, b: Num)
    ensures -THRESHOLD <= Distance(a, b) <= THRESHOLD <==> b != Wrap(a + HALF)
  {
    DistanceCongruent(a, b);
  }

  lemma DistanceExceedsThreshold()
    ensures Distance(HALF, 0) == HALF > THRESHOLD
  {
  }

  /** On numbers less than 2^30 apart, wire comparison and unbounded comparison agree. */
  lemma WireOrderIsTrueOrder(u: int, v: int)
    requires -HALF < v - u < HALF
    ensures Distance(Wrap(u), Wrap(v)) == v - u
    ensures LessThan(Wrap(u), Wrap(v)) <==> u < v
    ensures LessThanOrEqual(Wrap(u), Wrap(v)) <==> u <= v
    ensures GreaterThan(Wrap(u), Wrap(v)) <==> u > v
    ensures Wrap(u) == Wrap(v) <==> u == v
  {
    var q, r := u / SPACE, v / SPACE;
    assert u == q * SPACE + Wrap(u) && v == r * SPACE + Wrap(v);
    assert r - q == -1 || r - q == 0 || r - q == 1;
  }

  /** Unbounded numbers less than 2^31 apart have the same wire image only if they are the same. */
  lemma WrapInjective(u: int, v: int)
    requires -SPACE < v - u < SPACE
    ensures Wrap(u) == Wrap(v) <==> u == v
  {
    var q, r := u / SPACE, v / SPACE;
    assert u == q * SPACE + Wrap(u) && v == r * SPACE + Wrap(v);
  }

  lemma WrapOfSum(u: int, d: int)
    ensures Wrap(Wrap(u) + d) == Wrap(u + d)
  {
    var q := u / SPACE;
    assert u == q * SPACE + Wrap(u);
    var r := (Wrap(u) + d) / SPACE;
    assert Wrap(u) + d == r * SPACE + Wrap(Wrap(u) + d);
    assert u + d == (q + r) * SPACE + Wrap(Wrap(u) + d);
  }
}
