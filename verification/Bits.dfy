/**
 * Bitwise operations on unbounded naturals, ring masks and nextPow2 (internal/buffer/send.go).
 */
module Bits {

  /** Exclusive or of two bytes. */
  function Xor8(x: bv8, y: bv8): bv8 {
    x ^ y
  }

  function Pow2(k: nat): (p: nat)
    ensures p >= 1
  {
    if k == 0 then 1 else 2 * Pow2(k - 1)
  }

  function And(x: nat, y: nat): nat {
    if x == 0 || y == 0 then 0
    else 2 * And(x / 2, y / 2) + (if x % 2 == 1 && y % 2 == 1 then 1 else 0)
  }

  function Or(x: nat, y: nat): nat
    decreases x + y
  {
    if x == 0 then y
    else if y == 0 then x
    else 2 * Or(x / 2, y / 2) + (if x % 2 == 1 || y % 2 == 1 then 1 else 0)
  }

  function ShiftRight(x: nat, k: nat): nat {
    if k == 0 then x else ShiftRight(x / 2, k - 1)
  }

  predicate Bit(x: nat, i: nat) {
    ShiftRight(x, i) % 2 == 1
  }

  // ---- masks and remainders ----

  lemma DivModUnique(x: int, d: int, q: int, r: int)
    requires d > 0 && 0 <= r < d && x == q * d + r
    ensures x / d == q && x % d == r
  {
    var q', r' := x / d, x % d;
    assert x == q' * d + r';
    assert (q' - q) * d == r - r' && (q - q') * d == r' - r;
    if q' > q {
      MulGe(q' - q, d);
    } else if q' < q {
      MulGe(q - q', d);
    }
  }

  lemma MulGe(k: int, d: int)
    requires k >= 1 && d > 0
    ensures k * d >= d
  {
  }

  lemma HalveMod(x: nat, m: nat)
    requires m >= 1
    ensures x % (2 * m) == 2 * ((x / 2) % m) + x % 2
  {
    var h := x / 2;
    var q, r := h / m, h % m;
    assert h == q * m + r;
    assert q * (2 * m) == 2 * (q * m);
    DivModUnique(x, 2 * m, q, 2 * r + x % 2);
  }

  lemma AndOdd(x: nat, m: nat)
    requires m >= 1
    ensures And(x, 2 * m - 1) == 2 * And(x / 2, m - 1) + x % 2
  {
    assert (2 * m - 1) / 2 == m - 1 && (2 * m - 1) % 2 == 1;
  }

  /** Masking with 2^k - 1 is the remainder modulo 2^k. */
  lemma {:induction false} MaskIsMod(x: nat, k: nat)
    ensures And(x, Pow2(k) - 1) == x % Pow2(k)
  {
    if k > 0 {
      MaskIsMod(x / 2, k - 1);
      AndOdd(x, Pow2(k - 1));
      HalveMod(x, Pow2(k - 1));
    }
  }

  lemma {:induction false} Pow2Add(j: nat, k: nat)
    ensures Pow2(j + k) == Pow2(j) * Pow2(k)
  {
    if j > 0 {
      Pow2Add(j - 1, k);
      assert 2 * (Pow2(j - 1) * Pow2(k)) == (2 * Pow2(j - 1)) * Pow2(k);
    }
  }

  lemma {:induction false} Pow2Mono(j: nat, k: nat)
    requires j <= k
    ensures Pow2(j) <= Pow2(k)
  {
    if j < k {
      Pow2Mono(j, k - 1);
    }
  }

  lemma ModOfProduct(u: int, a: int, b: int)
    requires a >= 1 && b >= 1 && a * b >= 1
    ensures (u % (a * b)) % a == u % a
  {
    var m := a * b;
    var q, r := u / m, u % m;
    assert u == q * m + r;
    var s, t := r / a, r % a;
    assert r == s * a + t;
    assert q * (a * b) == (q * b) * a;
    assert (q * b) * a + s * a == (q * b + s) * a;
    DivModUnique(u, a, q * b + s, t);
  }

  /** A ring of 2^k <= 2^m slots divides the sequence space 2^m, so wrapping does not move a slot. */
  lemma {:induction false} ModOfMod(u: int, k: nat, m: nat)
    requires k <= m
    ensures (u % Pow2(m)) % Pow2(k) == u % Pow2(k)
  {
    Pow2Add(k, m - k);
    ModOfProduct(u, Pow2(k), Pow2(m - k));
  }

  // ---- nextPow2 ----

  lemma {:induction false} BitOfShift(x: nat, k: nat, i: nat)
    ensures Bit(ShiftRight(x, k), i) <==> Bit(x, i + k)
  {
    if k > 0 {
      BitOfShift(x / 2, k - 1, i);
    }
  }

  lemma {:induction false} BitOfZero(i: nat)
    ensures !Bit(0, i)
  {
    if i > 0 {
      BitOfZero(i - 1);
    }
  }

  lemma {:induction false} BitOfOr(x: nat, y: nat, i: nat)
    ensures Bit(Or(x, y), i) <==> Bit(x, i) || Bit(y, i)
    decreases x + y, i
  {
    if x == 0 || y == 0 {
      BitOfZero(i);
    } else if i > 0 {
      BitOfOr(x / 2, y / 2, i - 1);
      assert Or(x, y) / 2 == Or(x / 2, y / 2);
    }
  }

  /** Below 2^len, a number with every bit set is 2^len - 1, and only that number has them all. */
  lemma {:induction false} AllBitsSet(x: nat, len: nat)
    requires x < Pow2(len)
    ensures (forall i :: 0 <= i < len ==> Bit(x, i)) <==> x == Pow2(len) - 1
  {
    if len > 0 {
      AllBitsSet(x / 2, len - 1);
      if forall i :: 0 <= i < len ==> Bit(x, i) {
        assert Bit(x, 0);
        forall i | 0 <= i < len - 1
          ensures Bit(x / 2, i)
        {
          assert Bit(x, i + 1);
        }
      }
      if x == Pow2(len) - 1 {
        forall i | 0 <= i < len
          ensures Bit(x, i)
        {
          if i > 0 {
            assert Bit(x / 2, i - 1);
          }
        }
      }
    }
  }

  /** The five or-shift assignments of nextPow2. */
  function Smear(n: nat): nat {
    var n1 := Or(n, ShiftRight(n, 1));
    var n2 := Or(n1, ShiftRight(n1, 2));
    var n3 := Or(n2, ShiftRight(n2, 4));
    var n4 := Or(n3, ShiftRight(n3, 8));
    Or(n4, ShiftRight(n4, 16))
  }

  function NextPow2(n: int): nat {
    if n <= 1 then 1 else Smear(n - 1) + 1
  }

  /** One of the w bits of x at i and above is set. */
  ghost predicate BitWithin(x: nat, i: nat, w: nat) {
    exists j :: i <= j < i + w && Bit(x, j)
  }

  /** If m's bits say "x has a bit within w", then or-ing m with m >> w says "within 2w". */
  lemma {:induction false} SmearStep(x: nat, m: nat, w: nat, r: nat)
    requires forall i: nat :: Bit(m, i) <==> BitWithin(x, i, w)
    requires r == Or(m, ShiftRight(m, w))
    ensures forall i: nat :: Bit(r, i) <==> BitWithin(x, i, 2 * w)
  {
    forall i: nat
      ensures Bit(r, i) <==> BitWithin(x, i, 2 * w)
    {
      BitOfOr(m, ShiftRight(m, w), i);
      BitOfShift(m, w, i);
      assert Bit(r, i) <==> BitWithin(x, i, w) || BitWithin(x, i + w, w);
      if BitWithin(x, i, 2 * w) {
        var j :| i <= j < i + 2 * w && Bit(x, j);
        assert j < i + w || i + w <= j;
      }
    }
  }

  lemma SmearBits(x: nat)
    ensures forall i: nat :: Bit(Smear(x), i) <==> BitWithin(x, i, 32)
  {
    forall i: nat
      ensures Bit(x, i) <==> BitWithin(x, i, 1)
    {
    }
    var n1 := Or(x, ShiftRight(x, 1));
    SmearStep(x, x, 1, n1);
    var n2 := Or(n1, ShiftRight(n1, 2));
    SmearStep(x, n1, 2, n2);
    var n3 := Or(n2, ShiftRight(n2, 4));
    SmearStep(x, n2, 4, n3);
    var n4 := Or(n3, ShiftRight(n3, 8));
    SmearStep(x, n3, 8, n4);
    SmearStep(x, n4, 16, Smear(x));
  }

  lemma {:induction false} OrBelow(x: nat, y: nat, len: nat)
    requires x < Pow2(len) && y < Pow2(len)
    ensures x <= Or(x, y) < Pow2(len)
    decreases x + y
  {
    if x != 0 && y != 0 {
      OrBelow(x / 2, y / 2, len - 1);
    }
  }

  lemma {:induction false} ShiftShrinks(x: nat, k: nat)
    ensures ShiftRight(x, k) <= x
  {
    if k > 0 {
      ShiftShrinks(x / 2, k - 1);
    }
  }

  lemma {:induction false} OrShiftBelow(x: nat, k: nat, len: nat)
    requires x < Pow2(len)
    ensures x <= Or(x, ShiftRight(x, k)) < Pow2(len)
  {
    ShiftShrinks(x, k);
    OrBelow(x, ShiftRight(x, k), len);
  }

  lemma {:induction false} SmearBelow(x: nat, len: nat)
    requires x < Pow2(len)
    ensures x <= Smear(x) < Pow2(len)
  {
    var n1 := Or(x, ShiftRight(x, 1));
    var n2 := Or(n1, ShiftRight(n1, 2));
    var n3 := Or(n2, ShiftRight(n2, 4));
    var n4 := Or(n3, ShiftRight(n3, 8));
    OrShiftBelow(x, 1, len);
    OrShiftBelow(n1, 2, len);
    OrShiftBelow(n2, 4, len);
    OrShiftBelow(n3, 8, len);
    OrShiftBelow(n4, 16, len);
  }

  /** x has len bits: its top bit is bit len - 1. */
  ghost predicate HasLength(x: nat, len: nat) {
    x < Pow2(len) && (len > 0 ==> Pow2(len - 1) <= x)
  }

  lemma {:induction false} TopBitSet(x: nat, len: nat)
    requires len > 0 && HasLength(x, len)
    ensures Bit(x, len - 1)
  {
    if len > 1 {
      TopBitSet(x / 2, len - 1);
    }
  }

  /** x = n - 1 has no 32 consecutive zero bits below its top bit. */
  ghost predicate NoLongZeroRun(x: nat, len: nat) {
    forall i :: 0 <= i < len ==> BitWithin(x, i, 32)
  }

  /**
   * nextPow2(n) is the least power of two that is at least n if and only if n - 1 has no 32
   * consecutive zero bits below its top bit.
   */
  lemma NextPow2Exact(n: int, len: nat)
    requires n > 1 && HasLength(n - 1, len)
    ensures len > 0 && Pow2(len - 1) < n <= Pow2(len)
    ensures NextPow2(n) == Pow2(len) <==> NoLongZeroRun(n - 1, len)
  {
    SmearBelow(n - 1, len);
    SmearBits(n - 1);
    AllBitsSet(Smear(n - 1), len);
  }

  /** Every capacity up to 2^32 rounds up correctly. */
  lemma NextPow2Rounds(n: int, len: nat)
    requires n > 1 && HasLength(n - 1, len) && len <= 32
    ensures NextPow2(n) == Pow2(len) && Pow2(len - 1) < n <= Pow2(len)
  {
    NextPow2Exact(n, len);
    var x := n - 1;
    TopBitSet(x, len);
    forall i | 0 <= i < len
      ensures BitWithin(x, i, 32)
    {
      assert i <= len - 1 < i + 32 && Bit(x, len - 1);
    }
  }

  /** Past 2^32 the rounding breaks: with len = 33, n = 2^32 + 1 is not rounded up to 2^33. */
  lemma NextPow2Fails(len: nat)
    requires len > 32
    ensures NextPow2(Pow2(len - 1) + 1) != Pow2(len)
  {
    var x := Pow2(len - 1);
    forall j | 0 <= j < 32
      ensures !Bit(x, j)
    {
      LowBitsOfPow2(len - 1, j);
    }
    assert !BitWithin(x, 0, 32);
    NextPow2Exact(x + 1, len);
  }

  lemma {:induction false} LowBitsOfPow2(k: nat, j: nat)
    requires j < k
    ensures !Bit(Pow2(k), j)
  {
    assert Pow2(k) / 2 == Pow2(k - 1) && Pow2(k) % 2 == 0;
    if j > 0 {
      LowBitsOfPow2(k - 1, j - 1);
    }
  }

  // ---- exclusive or ----

  function XorNat(x: nat, y: nat): nat
    decreases x + y
  {
    if x == 0 then y
    else if y == 0 then x
    else 2 * XorNat(x / 2, y / 2) + (if x % 2 != y % 2 then 1 else 0)
  }

  lemma {:induction false} XorHalves(x: nat, y: nat)
    ensures XorNat(x, y) / 2 == XorNat(x / 2, y / 2)
    ensures XorNat(x, y) % 2 == (if x % 2 != y % 2 then 1 else 0)
  {
  }

  lemma {:induction false} XorNatComm(x: nat, y: nat)
    ensures XorNat(x, y) == XorNat(y, x)
    decreases x + y
  {
    if x != 0 && y != 0 {
      XorNatComm(x / 2, y / 2);
    }
  }

  lemma {:induction false} XorNatSelf(x: nat)
    ensures XorNat(x, x) == 0
  {
    if x != 0 {
      XorNatSelf(x / 2);
    }
  }

  lemma {:induction false} XorNatAssoc(x: nat, y: nat, z: nat)
    ensures XorNat(XorNat(x, y), z) == XorNat(x, XorNat(y, z))
    decreases x + y + z
  {
    if x != 0 && y != 0 && z != 0 {
      XorNatAssoc(x / 2, y / 2, z / 2);
      XorHalves(x, y);
      XorHalves(y, z);
      XorHalves(XorNat(x, y), z);
      XorHalves(x, XorNat(y, z));
    }
  }

  lemma {:induction false} XorNatBelow(x: nat, y: nat, k: nat)
    requires x < Pow2(k) && y < Pow2(k)
    ensures XorNat(x, y) < Pow2(k)
    decreases x + y
  {
    if x != 0 && y != 0 {
      XorNatBelow(x / 2, y / 2, k - 1);
    }
  }
}
