/**
 * XOR accumulation of packets (internal/filter/fec.go): the four clips of a group as one value, and
 * the parity of any subset of a run of packets.
 */
module FecXor {
  import opened Bits
  import opened Packets

  /** A source packet as the FEC engine sees it. */
  datatype Source = Source(timestamp: bv32, flag: bv8, payload: Bytes)

  /** A group's accumulators: XOR of lengths, flags, timestamps and padded payloads. */
  datatype Clip = Clip(length: nat, flag: bv8, timestamp: bv32, payload: Bytes)

  function XorBytes(a: Bytes, b: Bytes): (r: Bytes)
    requires |a| == |b|
    ensures |r| == |a|
  {
    seq(|a|, i requires 0 <= i < |a| => Xor8(a[i], b[i]))
  }

  /** A payload cut or zero-padded to n bytes. */
  function Pad(p: Bytes, n: nat): (r: Bytes)
    ensures |r| == n
  {
    seq(n, i requires 0 <= i < n => if i < |p| then p[i] else 0)
  }

  function Xor(a: Clip, b: Clip): (r: Clip)
    requires |a.payload| == |b.payload|
    ensures |r.payload| == |a.payload|
  {
    Clip(XorNat(a.length, b.length), a.flag ^ b.flag, a.timestamp ^ b.timestamp, XorBytes(a.payload, b.payload))
  }

  function Zero(n: nat): (r: Clip)
    ensures |r.payload| == n
  {
    Clip(0, 0, 0, seq(n, _ => 0))
  }

  /** uint16 of a payload length. */
  function Length16(n: nat): nat {
    n % 0x1_0000
  }

  function ClipOf(s: Source, n: nat): (r: Clip)
    ensures |r.payload| == n
  {
    Clip(Length16(|s.payload|), s.flag, s.timestamp, Pad(s.payload, n))
  }

  lemma Xor8Laws(a: bv8, b: bv8, c: bv8)
    ensures Xor8(Xor8(a, b), c) == Xor8(a, Xor8(b, c))
    ensures Xor8(a, b) == Xor8(b, a)
    ensures Xor8(a, a) == 0 && Xor8(a, 0) == a
  {
  }

  lemma XorAssoc(a: Clip, b: Clip, c: Clip)
    requires |a.payload| == |b.payload| == |c.payload|
    ensures Xor(Xor(a, b), c) == Xor(a, Xor(b, c))
  {
    XorNatAssoc(a.length, b.length, c.length);
    var l, r := Xor(Xor(a, b), c).payload, Xor(a, Xor(b, c)).payload;
    hide Xor8;
    forall i | 0 <= i < |a.payload|
      ensures l[i] == r[i]
    {
      Xor8Laws(a.payload[i], b.payload[i], c.payload[i]);
    }
  }

  lemma XorComm(a: Clip, b: Clip)
    requires |a.payload| == |b.payload|
    ensures Xor(a, b) == Xor(b, a)
  {
    XorNatComm(a.length, b.length);
  }

  lemma XorSelf(a: Clip)
    ensures Xor(a, a) == Zero(|a.payload|)
  {
    XorNatSelf(a.length);
  }

  lemma XorZero(a: Clip)
    ensures Xor(a, Zero(|a.payload|)) == a
    ensures Xor(Zero(|a.payload|), a) == a
  {
  }

  /** a ^ (a ^ b) == b */
  lemma XorCancel(a: Clip, b: Clip)
    requires |a.payload| == |b.payload|
    ensures Xor(a, Xor(a, b)) == b
  {
    XorAssoc(a, a, b);
    XorSelf(a);
    XorZero(b);
  }

  lemma XorSwap(a: Clip, b: Clip, c: Clip)
    requires |a.payload| == |b.payload| == |c.payload|
    ensures Xor(Xor(a, b), c) == Xor(Xor(a, c), b)
  {
    XorAssoc(a, b, c);
    XorComm(b, c);
    XorAssoc(a, c, b);
  }

  /** Parity of the packets lo .. hi - 1 of the stream f that are in s. */
  ghost function Parity(f: int -> Source, lo: int, hi: int, s: set<int>, n: nat): (r: Clip)
    requires lo <= hi
    ensures |r.payload| == n
    decreases hi - lo
  {
    if lo == hi then Zero(n)
    else if hi - 1 in s then Xor(Parity(f, lo, hi - 1, s, n), ClipOf(f(hi - 1), n))
    else Parity(f, lo, hi - 1, s, n)
  }

  /** Accumulated lengths stay 16-bit numbers. */
  lemma XorLength(a: Clip, b: Clip)
    requires |a.payload| == |b.payload| && a.length < 0x1_0000 && b.length < 0x1_0000
    ensures Xor(a, b).length < 0x1_0000
  {
    hide XorBytes;
    assert Pow2(4) == 16 && Pow2(8) == 256 && Pow2(12) == 4096 && Pow2(16) == 0x1_0000;
    XorNatBelow(a.length, b.length, 16);
  }

  lemma {:induction false} ParityLength(f: int -> Source, lo: int, hi: int, s: set<int>, n: nat)
    requires lo <= hi
    ensures Parity(f, lo, hi, s, n).length < 0x1_0000
    decreases hi - lo
  {
    hide Xor;
    if lo < hi {
      ParityLength(f, lo, hi - 1, s, n);
      if hi - 1 in s {
        XorLength(Parity(f, lo, hi - 1, s, n), ClipOf(f(hi - 1), n));
      }
    }
  }

  /** A packet can be clipped in at any time: the order of arrival does not matter. */
  lemma {:induction false} ParityAdd(f: int -> Source, lo: int, hi: int, s: set<int>, n: nat, u: int)
    requires lo <= u < hi && u !in s
    ensures Parity(f, lo, hi, s + {u}, n) == Xor(Parity(f, lo, hi, s, n), ClipOf(f(u), n))
    decreases hi - lo
  {
    hide Xor, ClipOf;
    if u == hi - 1 {
      ParitySame(f, lo, hi - 1, s, s + {u}, n);
    } else {
      ParityAdd(f, lo, hi - 1, s, n, u);
      if hi - 1 in s {
        XorSwap(Parity(f, lo, hi - 1, s, n), ClipOf(f(u), n), ClipOf(f(hi - 1), n));
      }
    }
  }

  lemma {:induction false} ParitySame(f: int -> Source, lo: int, hi: int, s: set<int>, t: set<int>, n: nat)
    requires lo <= hi && forall u :: lo <= u < hi ==> (u in s <==> u in t)
    ensures Parity(f, lo, hi, s, n) == Parity(f, lo, hi, t, n)
    decreases hi - lo
  {
    if lo < hi {
      ParitySame(f, lo, hi - 1, s, t, n);
    }
  }

  /** The parity of a whole run, and the parity of all but one of it, differ by the one. */
  lemma {:induction false} ParityMissing(f: int -> Source, lo: int, hi: int, all: set<int>, n: nat, u: int)
    requires lo <= u < hi && u in all
    ensures Xor(Parity(f, lo, hi, all - {u}, n), Parity(f, lo, hi, all, n)) == ClipOf(f(u), n)
  {
    hide Xor, ClipOf, Parity;
    assert all - {u} + {u} == all;
    ParityAdd(f, lo, hi, all - {u}, n, u);
    XorCancel(Parity(f, lo, hi, all - {u}, n), ClipOf(f(u), n));
  }

  /** Parity of a sequence of packets. */
  function XorAll(ss: seq<Source>, n: nat): (r: Clip)
    ensures |r.payload| == n
  {
    if ss == [] then Zero(n) else Xor(XorAll(ss[..|ss| - 1], n), ClipOf(ss[|ss| - 1], n))
  }

  /** The parity a sender computes over a row it was fed is the parity of the whole run. */
  lemma {:induction false} ParityOfRun(f: int -> Source, lo: int, ss: seq<Source>, s: set<int>, n: nat)
    requires forall i :: 0 <= i < |ss| ==> ss[i] == f(lo + i)
    requires forall u :: lo <= u < lo + |ss| ==> u in s
    ensures Parity(f, lo, lo + |ss|, s, n) == XorAll(ss, n)
  {
    hide Xor, ClipOf;
    if ss != [] {
      var init := ss[..|ss| - 1];
      ParityOfRun(f, lo, init, s, n);
      assert ss[|ss| - 1] == f(lo + (|ss| - 1));
    }
  }

  /** The run lo .. hi - 1 as a set of offsets. */
  function Span(lo: int, hi: int): (r: set<int>)
    ensures forall u :: u in r <==> lo <= u < hi
    ensures |r| == if lo < hi then hi - lo else 0
    decreases hi - lo
  {
    if lo >= hi then {} else Span(lo, hi - 1) + {hi - 1}
  }

  // ---- the clipping loop ----

  /** clipData: the payload is XORed in byte by byte; bytes past either end are left alone. */
  method ClipData(clip: Clip, length: nat, flag: bv8, timestamp: bv32, payload: Bytes) returns (r: Clip)
    ensures r == Xor(clip, Clip(length, flag, timestamp, Pad(payload, |clip.payload|)))
  {
    var acc := new bv8[|clip.payload|](i requires 0 <= i < |clip.payload| => clip.payload[i]);
    assert acc[..] == clip.payload;
    ClipBytes(acc, payload);
    r := Clip(XorNat(clip.length, length), clip.flag ^ flag, clip.timestamp ^ timestamp, acc[..]);
  }

  /** The in-place byte loop. */
  method ClipBytes(acc: array<bv8>, payload: Bytes)
    modifies acc
    ensures acc[..] == XorBytes(old(acc[..]), Pad(payload, acc.Length))
  {
    hide Xor8;
    ghost var before := acc[..];
    var i := 0;
    while i < |payload| && i < acc.Length
      invariant 0 <= i <= acc.Length && i <= |payload|
      invariant forall j :: 0 <= j < i ==> acc[j] == Xor8(before[j], payload[j])
      invariant forall j :: i <= j < acc.Length ==> acc[j] == before[j]
    {
      acc[i] := Xor8(acc[i], payload[i]);
      i := i + 1;
    }
    forall j | 0 <= j < acc.Length
      ensures acc[j] == XorBytes(before, Pad(payload, acc.Length))[j]
    {
      Xor8Laws(before[j], 0, 0);
    }
  }

  // ---- what a cleared clip gives back ----

  /** The packet read off a clip: as many payload bytes as the length says. */
  function Restore(c: Clip): Option<Source> {
    var len := c.length;
    if len > |c.payload| then None else Some(Source(c.timestamp, c.flag, c.payload[..len]))
  }

  /** A packet's own clip restores it exactly if it fits the FEC payload size, and restores nothing otherwise. */
  lemma RestoreExact(s: Source, n: nat)
    requires |s.payload| < 0x1_0000 && n < 0x1_0000
    ensures Restore(ClipOf(s, n)) == if |s.payload| <= n then Some(s) else None
  {
    assert Length16(|s.payload|) == |s.payload|;
    if |s.payload| <= n {
      assert Pad(s.payload, n)[..|s.payload|] == s.payload;
    }
  }
}
