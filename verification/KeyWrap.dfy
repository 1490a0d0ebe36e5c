/**
 * Key wrap of RFC 3394 (internal/crypto/keywrap.go) over an abstract block cipher.
 */
module KeyWrapSpec {
  import opened Bits
  import opened Packets

  const ROUNDS: nat := 6
  const IV: Bytes := [0xA6, 0xA6, 0xA6, 0xA6, 0xA6, 0xA6, 0xA6, 0xA6]

  datatype Result = Ok(value: Bytes) | BadPlaintext | BadCiphertext | BadKey | IntegrityFailed

  /** The key lengths for which the block cipher exists. */
  predicate IsKey(kek: Bytes) {
    |kek| == 16 || |kek| == 24 || |kek| == 32
  }

  /** A block cipher: both directions for a key, as functions on 16-byte blocks. */
  datatype Cipher = Cipher(enc: Bytes -> Bytes, dec: Bytes -> Bytes)

  ghost predicate Permutes(c: Cipher) {
    forall b: Bytes :: |b| == 16 ==>
      && |c.enc(b)| == 16 && |c.dec(b)| == 16
      && c.dec(c.enc(b)) == b && c.enc(c.dec(b)) == b
  }

  // ---- the counter ----

  /** Byte k of the big-endian 64-bit counter. */
  function CounterByte(t: nat, k: nat): bv8
    requires k < 8
  {
    (t / Power(7 - k) % 256) as bv8
  }

  function Power(k: nat): (p: nat)
    ensures p > 0
  {
    if k == 0 then 1 else 256 * Power(k - 1)
  }

  function XorCounter(a: Bytes, t: nat): (r: Bytes)
    requires |a| == 8
    ensures |r| == 8
  {
    seq(8, k requires 0 <= k < 8 => Xor8(a[k], CounterByte(t, k)))
  }

  lemma XorTwice(a: Bytes, t: nat)
    requires |a| == 8
    ensures XorCounter(XorCounter(a, t), t) == a
  {
    var b := XorCounter(a, t);
    forall k | 0 <= k < 8
      ensures XorCounter(b, t)[k] == a[k]
    {
      XorCancels(a[k], CounterByte(t, k));
    }
  }

  lemma XorCancels(x: bv8, y: bv8)
    ensures Xor8(Xor8(x, y), y) == x
  {
  }

  // ---- one step on the integrity register a and the n eight-byte registers r ----

  datatype Regs = Regs(a: Bytes, r: Bytes)

  ghost predicate Shaped(st: Regs, n: nat) {
    |st.a| == 8 && |st.r| == 8 * n
  }

  function Counter(n: nat, j: nat, i: nat): nat {
    n * j + i + 1
  }

  function WrapStep(c: Cipher, st: Regs, i: nat, t: nat): Regs
    requires Permutes(c) && |st.a| == 8 && 8 * i + 8 <= |st.r|
  {
    var b := c.enc(st.a + Reg(st.r, i));
    Regs(XorCounter(b[..8], t), Replaced(st.r, i, b[8..]))
  }

  function UnwrapStep(c: Cipher, st: Regs, i: nat, t: nat): Regs
    requires Permutes(c) && |st.a| == 8 && 8 * i + 8 <= |st.r|
  {
    var b := c.dec(XorCounter(st.a, t) + Reg(st.r, i));
    Regs(b[..8], Replaced(st.r, i, b[8..]))
  }

  /** Register i. */
  function Reg(r: Bytes, i: nat): Bytes
    requires 8 * i + 8 <= |r|
  {
    r[8 * i..8 * i + 8]
  }

  function Replaced(r: Bytes, i: nat, x: Bytes): Bytes
    requires 8 * i + 8 <= |r| && |x| == 8
  {
    r[..8 * i] + x + r[8 * i + 8..]
  }

  lemma ReplaceBack(r: Bytes, i: nat, x: Bytes)
    requires 8 * i + 8 <= |r| && |x| == 8
    ensures |Replaced(r, i, x)| == |r|
    ensures Reg(Replaced(r, i, x), i) == x
    ensures Replaced(Replaced(r, i, x), i, Reg(r, i)) == r
  {
  }

  lemma Halves(x: Bytes, y: Bytes)
    requires |x| == 8
    ensures (x + y)[..8] == x && (x + y)[8..] == y
  {
  }

  lemma WrapThenUnwrap(c: Cipher, st: Regs, i: nat, t: nat)
    requires Permutes(c) && |st.a| == 8 && 8 * i + 8 <= |st.r|
    ensures |WrapStep(c, st, i, t).r| == |st.r|
    ensures UnwrapStep(c, WrapStep(c, st, i, t), i, t) == st
  {
    hide XorCounter;
    var block := Reg(st.r, i);
    var b := c.enc(st.a + block);
    ReplaceBack(st.r, i, b[8..]);
    XorTwice(b[..8], t);
    assert b[..8] + b[8..] == b;
    Halves(st.a, block);
  }

  lemma UnwrapThenWrap(c: Cipher, st: Regs, i: nat, t: nat)
    requires Permutes(c) && |st.a| == 8 && 8 * i + 8 <= |st.r|
    ensures |UnwrapStep(c, st, i, t).r| == |st.r|
    ensures WrapStep(c, UnwrapStep(c, st, i, t), i, t) == st
  {
    hide XorCounter;
    var block, a := Reg(st.r, i), XorCounter(st.a, t);
    var b := c.dec(a + block);
    ReplaceBack(st.r, i, b[8..]);
    assert b[..8] + b[8..] == b;
    Halves(a, block);
    XorTwice(st.a, t);
  }

  // ---- rounds, in the order of the loops ----

  /** The first i steps of round j. */
  function WrapRound(c: Cipher, st: Regs, n: nat, j: nat, i: nat): (st': Regs)
    requires Permutes(c) && Shaped(st, n) && i <= n
    ensures Shaped(st', n)
  {
    if i == 0 then st else WrapStep(c, WrapRound(c, st, n, j, i - 1), i - 1, Counter(n, j, i - 1))
  }

  function WrapRounds(c: Cipher, st: Regs, n: nat, j: nat): (st': Regs)
    requires Permutes(c) && Shaped(st, n)
    ensures Shaped(st', n)
  {
    if j == 0 then st else WrapRound(c, WrapRounds(c, st, n, j - 1), n, j - 1, n)
  }

  /** Round j undone down to step i. */
  function UnwrapRound(c: Cipher, st: Regs, n: nat, j: nat, i: nat): (st': Regs)
    requires Permutes(c) && Shaped(st, n) && i <= n
    ensures Shaped(st', n)
    decreases n - i
  {
    if i == n then st else UnwrapStep(c, UnwrapRound(c, st, n, j, i + 1), i, Counter(n, j, i))
  }

  /** The rounds undone down to round j. */
  function UnwrapRounds(c: Cipher, st: Regs, n: nat, j: nat): (st': Regs)
    requires Permutes(c) && Shaped(st, n) && j <= ROUNDS
    ensures Shaped(st', n)
    decreases ROUNDS - j
  {
    if j == ROUNDS then st else UnwrapRound(c, UnwrapRounds(c, st, n, j + 1), n, j, 0)
  }

  lemma {:induction false} UndoRound(c: Cipher, st: Regs, n: nat, j: nat, i: nat)
    requires Permutes(c) && Shaped(st, n) && i <= n
    ensures UnwrapRound(c, WrapRound(c, st, n, j, n), n, j, i) == WrapRound(c, st, n, j, i)
    decreases n - i
  {
    hide WrapStep, UnwrapStep, Permutes, Counter;
    if i < n {
      UndoRound(c, st, n, j, i + 1);
      WrapThenUnwrap(c, WrapRound(c, st, n, j, i), i, Counter(n, j, i));
    }
  }

  lemma {:induction false} UndoRounds(c: Cipher, st: Regs, n: nat, j: nat)
    requires Permutes(c) && Shaped(st, n) && j <= ROUNDS
    ensures UnwrapRounds(c, WrapRounds(c, st, n, ROUNDS), n, j) == WrapRounds(c, st, n, j)
    decreases ROUNDS - j
  {
    hide Permutes, WrapRound, UnwrapRound;
    if j < ROUNDS {
      UndoRounds(c, st, n, j + 1);
      UndoRound(c, WrapRounds(c, st, n, j), n, j, 0);
      NoSteps(c, WrapRounds(c, st, n, j), n, j);
    }
  }

  lemma {:induction false} RedoRound(c: Cipher, st: Regs, n: nat, j: nat, i: nat)
    requires Permutes(c) && Shaped(st, n) && i <= n
    ensures WrapRound(c, UnwrapRound(c, st, n, j, 0), n, j, i) == UnwrapRound(c, st, n, j, i)
  {
    hide WrapStep, UnwrapStep, Permutes, Counter;
    if i > 0 {
      RedoRound(c, st, n, j, i - 1);
      UnwrapThenWrap(c, UnwrapRound(c, st, n, j, i), i - 1, Counter(n, j, i - 1));
    }
  }

  lemma {:induction false} RedoRounds(c: Cipher, st: Regs, n: nat, j: nat)
    requires Permutes(c) && Shaped(st, n) && j <= ROUNDS
    ensures WrapRounds(c, UnwrapRounds(c, st, n, 0), n, j) == UnwrapRounds(c, st, n, j)
  {
    hide Permutes, WrapRound, UnwrapRound;
    if j > 0 {
      RedoRounds(c, st, n, j - 1);
      RedoRound(c, UnwrapRounds(c, st, n, j), n, j - 1, n);
      AllSteps(c, UnwrapRounds(c, st, n, j), n, j - 1);
    }
  }

  lemma {:induction false} NoSteps(c: Cipher, st: Regs, n: nat, j: nat)
    requires Permutes(c) && Shaped(st, n)
    ensures WrapRound(c, st, n, j, 0) == st
  {
  }

  lemma {:induction false} AllSteps(c: Cipher, st: Regs, n: nat, j: nat)
    requires Permutes(c) && Shaped(st, n)
    ensures UnwrapRound(c, st, n, j, n) == st
  {
  }

  // ---- wrap and unwrap ----

  predicate Wrappable(p: Bytes) {
    |p| % 8 == 0 && p != []
  }

  function Wrap(c: Cipher, kek: Bytes, p: Bytes): Result
    requires Permutes(c)
  {
    if !Wrappable(p) then BadPlaintext
    else if !IsKey(kek) then BadKey
    else
      var st := WrapRounds(c, Regs(IV, p), |p| / 8, ROUNDS);
      Ok(st.a + st.r)
  }

  function Unwrap(c: Cipher, kek: Bytes, w: Bytes): Result
    requires Permutes(c)
  {
    if |w| % 8 != 0 || |w| < 16 then BadCiphertext
    else if !IsKey(kek) then BadKey
    else
      var st := UnwrapRounds(c, Regs(w[..8], w[8..]), |w| / 8 - 1, 0);
      if st.a != IV then IntegrityFailed else Ok(st.r)
  }

  /** Unwrapping a wrapped key returns it, for every plaintext of a positive multiple of 8 bytes. */
  lemma RoundTrip(c: Cipher, kek: Bytes, p: Bytes)
    requires Permutes(c) && Wrappable(p) && IsKey(kek)
    ensures Wrap(c, kek, p).Ok? && |Wrap(c, kek, p).value| == |p| + 8
    ensures Unwrap(c, kek, Wrap(c, kek, p).value) == Ok(p)
  {
    hide Permutes, WrapRounds, UnwrapRounds;
    var n := |p| / 8;
    var st := WrapRounds(c, Regs(IV, p), n, ROUNDS);
    var w := st.a + st.r;
    assert w[..8] == st.a && w[8..] == st.r && |w| / 8 - 1 == n;
    UndoRounds(c, Regs(IV, p), n, 0);
    NoRounds(c, Regs(IV, p), n);
  }

  /** Only wrapped keys unwrap: unwrapping succeeds exactly on what wrapping produces. */
  lemma UnwrapsOnlyWrapped(c: Cipher, kek: Bytes, w: Bytes, p: Bytes)
    requires Permutes(c)
    ensures Unwrap(c, kek, w) == Ok(p) <==> Wrap(c, kek, p) == Ok(w)
  {
    hide Permutes, WrapRounds, UnwrapRounds;
    if Wrap(c, kek, p) == Ok(w) {
      RoundTrip(c, kek, p);
    }
    if Unwrap(c, kek, w) == Ok(p) {
      var n := |w| / 8 - 1;
      var st := Regs(w[..8], w[8..]);
      RedoRounds(c, st, n, ROUNDS);
      AllRounds(c, st, n);
      assert UnwrapRounds(c, st, n, 0) == Regs(IV, p);
      assert |p| / 8 == n;
      assert st.a + st.r == w;
    }
  }

  lemma {:induction false} NoRounds(c: Cipher, st: Regs, n: nat)
    requires Permutes(c) && Shaped(st, n)
    ensures WrapRounds(c, st, n, 0) == st
  {
  }

  lemma {:induction false} AllRounds(c: Cipher, st: Regs, n: nat)
    requires Permutes(c) && Shaped(st, n)
    ensures UnwrapRounds(c, st, n, ROUNDS) == st
  {
  }

  // ---- the shift-register form of section 2.2.1 of RFC 3394 ----

  /** The registers as a queue: the first leaves, its image enters at the end. */
  function Shifted(c: Cipher, st: Regs, t: nat): Regs
    requires Permutes(c) && |st.a| == 8 && |st.r| >= 8
  {
    var b := c.enc(st.a + st.r[..8]);
    Regs(XorCounter(b[..8], t), st.r[8..] + b[8..])
  }

  function ShiftRun(c: Cipher, st: Regs, n: nat, s: nat): (st': Regs)
    requires Permutes(c) && Shaped(st, n) && n > 0
    ensures Shaped(st', n)
  {
    if s == 0 then st else Shifted(c, ShiftRun(c, st, n, s - 1), s)
  }

  function Rotated(st: Regs, i: nat): Regs
    requires 8 * i <= |st.r|
  {
    Regs(st.a, Turned(st.r, i))
  }

  function Turned(r: Bytes, i: nat): Bytes
    requires 8 * i <= |r|
  {
    r[8 * i..] + r[..8 * i]
  }

  lemma StepIsShift(c: Cipher, st: Regs, n: nat, i: nat, t: nat)
    requires Permutes(c) && Shaped(st, n) && i < n
    ensures Rotated(WrapStep(c, st, i, t), i + 1) == Shifted(c, Rotated(st, i), t)
  {
    hide XorCounter, Replaced, Turned, Permutes;
    CipherLength(c, st.a + Reg(st.r, i));
    TurnedReplaced(st.r, i, c.enc(st.a + Reg(st.r, i))[8..]);
  }

  lemma CipherLength(c: Cipher, b: Bytes)
    requires Permutes(c) && |b| == 16
    ensures |c.enc(b)| == 16 && |c.dec(b)| == 16
  {
  }

  /** Replacing register i and turning past it is taking it from the front and adding at the end. */
  lemma TurnedReplaced(r: Bytes, i: nat, x: Bytes)
    requires 8 * i + 8 <= |r| && |x| == 8
    ensures |Reg(r, i)| == 8 && |Replaced(r, i, x)| == |r| && |Turned(r, i)| == |r|
    ensures Turned(r, i)[..8] == Reg(r, i)
    ensures Turned(Replaced(r, i, x), i + 1) == Turned(r, i)[8..] + x
  {
    var w := Replaced(r, i, x);
    assert w[8 * (i + 1)..] == r[8 * i + 8..];
    assert w[..8 * (i + 1)] == r[..8 * i] + x;
    assert Turned(r, i)[8..] == r[8 * i + 8..] + r[..8 * i];
  }

  lemma {:induction false} RoundIsShifts(c: Cipher, st: Regs, n: nat, j: nat, i: nat)
    requires Permutes(c) && Shaped(st, n) && i <= n && n > 0
    ensures Rotated(WrapRound(c, WrapRounds(c, st, n, j), n, j, i), i) == ShiftRun(c, st, n, n * j + i)
    decreases j, i
  {
    hide Permutes, WrapStep, Shifted, XorCounter, Turned, WrapRounds;
    if i > 0 {
      RoundIsShifts(c, st, n, j, i - 1);
      StepIsShift(c, WrapRound(c, WrapRounds(c, st, n, j), n, j, i - 1), n, i - 1, Counter(n, j, i - 1));
    } else if j > 0 {
      RoundIsShifts(c, st, n, j - 1, n);
      NextRound(c, st, n, j);
      FullTurn(WrapRounds(c, st, n, j).r, n);
      assert n * j + 0 == n * (j - 1) + n;
    } else {
      NoRounds(c, st, n);
      FullTurn(st.r, n);
      assert n * 0 + 0 == 0;
    }
  }

  lemma NextRound(c: Cipher, st: Regs, n: nat, j: nat)
    requires Permutes(c) && Shaped(st, n) && j > 0
    ensures WrapRounds(c, st, n, j) == WrapRound(c, WrapRounds(c, st, n, j - 1), n, j - 1, n)
  {
    hide Permutes, WrapRound;
  }

  lemma FullTurn(r: Bytes, n: nat)
    requires |r| == 8 * n
    ensures Turned(r, n) == r == Turned(r, 0)
  {
  }

  /** The indexed loops compute what the shift registers of the standard compute in 6n steps. */
  lemma {:induction false} IndexedIsShifted(c: Cipher, st: Regs, n: nat)
    requires Permutes(c) && Shaped(st, n) && n > 0
    ensures WrapRounds(c, st, n, ROUNDS) == ShiftRun(c, st, n, n * ROUNDS)
  {
    hide Permutes, WrapRound;
    RoundIsShifts(c, st, n, ROUNDS, 0);
    var end := WrapRounds(c, st, n, ROUNDS);
    NoSteps(c, end, n, ROUNDS);
    assert Rotated(end, 0) == end;
  }

  /**
   * Wrapping is the procedure of section 2.2.1 of RFC 3394: 6n shift steps from the initial value
   * A6A6A6A6A6A6A6A6, for keys of 16, 24 or 32 bytes and plaintexts of n > 0 blocks of eight bytes.
   */
  lemma {:induction false} WrapIsStandard(c: Cipher, kek: Bytes, p: Bytes)
    requires Permutes(c)
    ensures Wrap(c, kek, p).Ok? <==> |p| > 0 && |p| % 8 == 0 && (|kek| == 16 || |kek| == 24 || |kek| == 32)
    ensures Wrap(c, kek, p).Ok? ==>
              var n := |p| / 8; var start := Regs(seq(8, _ => 0xA6), p);
              && Shaped(start, n)
              && var st := ShiftRun(c, start, n, 6 * n); Wrap(c, kek, p).value == st.a + st.r
  {
    hide Permutes, WrapRounds, ShiftRun;
    if Wrap(c, kek, p).Ok? {
      assert IV == seq(8, _ => 0xA6);
      IndexedIsShifted(c, Regs(IV, p), |p| / 8);
    }
  }
}

module KeyWrapping {
  import opened Packets
  import opened KeyWrapSpec

  /** Copies src to dst[at..]. */
  method CopyTo(dst: array<bv8>, at: nat, src: Bytes)
    requires at + |src| <= dst.Length
    modifies dst
    ensures dst[..] == old(dst[..at]) + src + old(dst[at + |src|..])
  {
    for k := 0 to |src|
      invariant dst[..] == old(dst[..at]) + src[..k] + old(dst[at + k..])
    {
      dst[at + k] := src[k];
    }
  }

  /** One forward step, in place. */
  method Forward(c: Cipher, a: array<bv8>, r: array<bv8>, i: nat, t: nat)
    requires Permutes(c) && a.Length == 8 && 8 * i + 8 <= r.Length && a != r
    modifies a, r
    ensures Regs(a[..], r[..]) == WrapStep(c, Regs(old(a[..]), old(r[..])), i, t)
  {
    hide Permutes, XorCounter;
    CipherLength(c, a[..] + r[8 * i..8 * i + 8]);
    var b := c.enc(a[..] + r[8 * i..8 * i + 8]);
    assert old(r[..])[8 * i..8 * i + 8] == r[8 * i..8 * i + 8];
    CopyTo(a, 0, XorCounter(b[..8], t));
    CopyTo(r, 8 * i, b[8..]);
  }

  /** One backward step, in place. */
  method Backward(c: Cipher, a: array<bv8>, r: array<bv8>, i: nat, t: nat)
    requires Permutes(c) && a.Length == 8 && 8 * i + 8 <= r.Length && a != r
    modifies a, r
    ensures Regs(a[..], r[..]) == UnwrapStep(c, Regs(old(a[..]), old(r[..])), i, t)
  {
    hide Permutes, XorCounter;
    CipherLength(c, XorCounter(a[..], t) + r[8 * i..8 * i + 8]);
    var b := c.dec(XorCounter(a[..], t) + r[8 * i..8 * i + 8]);
    assert old(r[..])[8 * i..8 * i + 8] == r[8 * i..8 * i + 8];
    CopyTo(a, 0, b[..8]);
    CopyTo(r, 8 * i, b[8..]);
  }

  method Wrap(c: Cipher, kek: Bytes, plaintext: Bytes) returns (res: Result)
    requires Permutes(c)
    ensures res == KeyWrapSpec.Wrap(c, kek, plaintext)
  {
    hide Permutes, WrapStep;
    if |plaintext| % 8 != 0 || |plaintext| == 0 {
      return BadPlaintext;
    }
    if !IsKey(kek) {
      return BadKey;
    }
    var n := |plaintext| / 8;
    var a := new bv8[8](k requires 0 <= k < 8 => IV[k]);
    var r := new bv8[|plaintext|](k requires 0 <= k < |plaintext| => plaintext[k]);
    ghost var st := Regs(IV, plaintext);
    assert a[..] == IV && r[..] == plaintext;
    for j := 0 to ROUNDS
      invariant a != r && Regs(a[..], r[..]) == WrapRounds(c, st, n, j)
    {
      ghost var before := Regs(a[..], r[..]);
      for i := 0 to n
        invariant a != r && Regs(a[..], r[..]) == WrapRound(c, before, n, j, i)
      {
        Forward(c, a, r, i, Counter(n, j, i));
      }
    }
    return Ok(a[..] + r[..]);
  }

  method Unwrap(c: Cipher, kek: Bytes, ciphertext: Bytes) returns (res: Result)
    requires Permutes(c)
    ensures res == KeyWrapSpec.Unwrap(c, kek, ciphertext)
  {
    hide Permutes, UnwrapStep;
    if |ciphertext| % 8 != 0 || |ciphertext| < 16 {
      return BadCiphertext;
    }
    if !IsKey(kek) {
      return BadKey;
    }
    var n := |ciphertext| / 8 - 1;
    var a := new bv8[8](k requires 0 <= k < 8 => ciphertext[k]);
    var r := new bv8[8 * n](k requires 0 <= k < 8 * n => ciphertext[8 + k]);
    ghost var st := Regs(ciphertext[..8], ciphertext[8..]);
    assert a[..] == st.a && r[..] == st.r;
    for j := ROUNDS downto 0
      invariant a != r && Regs(a[..], r[..]) == UnwrapRounds(c, st, n, j)
    {
      ghost var before := Regs(a[..], r[..]);
      for i := n downto 0
        invariant a != r && Regs(a[..], r[..]) == UnwrapRound(c, before, n, j, i)
      {
        Backward(c, a, r, i, Counter(n, j, i));
      }
    }
    if a[..] != IV {
      return IntegrityFailed;
    }
    return Ok(r[..]);
  }
}
