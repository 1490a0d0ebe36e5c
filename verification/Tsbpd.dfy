/**
 * Timestamp-based packet delivery (internal/tsbpd/tsbpd.go): decoding 32-bit timestamps across
 * wraps, and drift correction.
 */
module Tsbpd {
  const MAX_TIMESTAMP: int := 0xFFFF_FFFF
  const WRAP: int := 0x1_0000_0000
  const THRESHOLD: int := 30_000_000
  const DRIFT_SAMPLES: int := 1000
  const DRIFT_MAX: int := 5000

  type Stamp = t: int | 0 <= t < WRAP

  /** The wire image of a true timestamp. */
  function Wire(t: nat): Stamp {
    t % WRAP
  }

  /** The wrap state machine: in a wrap period or not, and the offset of completed wraps. */
  datatype Wrapping = Wrapping(period: bool, offset: int)

  function Update(w: Wrapping, ts: Stamp): Wrapping {
    if !w.period then
      if ts > MAX_TIMESTAMP - THRESHOLD then w.(period := true) else w
    else
      if THRESHOLD <= ts <= 2 * THRESHOLD then Wrapping(false, w.offset + WRAP) else w
  }

  /** The full timestamp a wire timestamp stands for. */
  function Decode(w: Wrapping, ts: Stamp): int {
    w.offset + (if w.period && ts <= 2 * THRESHOLD then WRAP else 0) + ts
  }

  // ---- what decodes ----

  /** The offset counts whole wraps. */
  ghost predicate Aligned(w: Wrapping) {
    exists e: nat :: w.offset == e * WRAP
  }

  /** The true timestamps a state decodes: one wrap's worth, the last minute of it carried over during a wrap period. */
  predicate Decodable(w: Wrapping, t: nat) {
    if w.period then w.offset + 2 * THRESHOLD < t <= w.offset + WRAP + 2 * THRESHOLD
    else w.offset <= t < w.offset + WRAP
  }

  lemma WireIn(t: nat, e: nat)
    requires e * WRAP <= t < (e + 1) * WRAP
    ensures Wire(t) == t - e * WRAP
  {
    assert (e + 1) * WRAP == e * WRAP + WRAP;
    var q := t / WRAP;
    assert t == q * WRAP + Wire(t);
    assert q == e;
  }

  /** The wire image of t, seen from a wrap count e. */
  lemma WireFrom(t: nat, e: nat)
    ensures t < e * WRAP ==> exists k: nat :: k > 0 && Wire(t) == t - e * WRAP + k * WRAP
    ensures e * WRAP <= t < e * WRAP + WRAP ==> Wire(t) == t - e * WRAP
    ensures e * WRAP + WRAP <= t < e * WRAP + 2 * WRAP ==> Wire(t) == t - e * WRAP - WRAP
    ensures t >= e * WRAP + 2 * WRAP ==> exists k: nat :: k > 1 && Wire(t) == t - e * WRAP - k * WRAP
  {
    var q := t / WRAP;
    assert t == q * WRAP + Wire(t);
    assert (q - e) * WRAP == q * WRAP - e * WRAP;
    if q < e {
      var k: nat := e - q;
      assert k * WRAP == e * WRAP - q * WRAP;
    } else if q > e + 1 {
      var k: nat := q - e;
      assert k > 1 && Wire(t) == t - e * WRAP - k * WRAP;
    } else if q == e {
      WireIn(t, e);
    } else {
      assert (e + 1) * WRAP == e * WRAP + WRAP;
    }
  }

  /** Decoding is exact for the decodable timestamps and for no others. */
  lemma DecodeExact(w: Wrapping, t: nat)
    requires Aligned(w)
    ensures Decode(w, Wire(t)) == t <==> Decodable(w, t)
  {
    hide Wire;
    var e: nat :| w.offset == e * WRAP;
    WireFrom(t, e);
  }

  /** Taking a timestamp into account does not change how it decodes. */
  lemma UpdateKeepsDecoding(w: Wrapping, ts: Stamp)
    ensures Decode(Update(w, ts), ts) == Decode(w, ts)
  {
  }

  lemma UpdateAligned(w: Wrapping, ts: Stamp)
    requires Aligned(w)
    ensures Aligned(Update(w, ts))
  {
    var e: nat :| w.offset == e * WRAP;
    assert (e + 1) * WRAP == e * WRAP + WRAP;
    assert Update(w, ts).offset == e * WRAP || Update(w, ts).offset == (e + 1) * WRAP;
  }

  // ---- keeping track of the newest timestamp ----

  predicate Near(t: int, m: int) {
    m - THRESHOLD <= t <= m + THRESHOLD
  }

  /** Where m must lie for everything within 30 s of it to decode. */
  predicate Tracks(w: Wrapping, m: nat) {
    if w.period then w.offset + 3 * THRESHOLD < m <= w.offset + WRAP + THRESHOLD
    else (if w.offset == 0 then 0 else w.offset + THRESHOLD) <= m < w.offset + WRAP - THRESHOLD
  }

  /** Tracking m is exactly decoding everything within 30 s of m. */
  lemma TracksExact(w: Wrapping, m: nat)
    requires Aligned(w)
    ensures Tracks(w, m) <==> forall t: nat :: Near(t, m) ==> Decode(w, Wire(t)) == t
  {
    hide Wire, Decode;
    var e: nat :| w.offset == e * WRAP;
    forall t: nat
      ensures Decode(w, Wire(t)) == t <==> Decodable(w, t)
    {
      DecodeExact(w, t);
    }
    var low: nat := if m < THRESHOLD then 0 else m - THRESHOLD;
    var high: nat := m + THRESHOLD;
    assert Near(low, m) && Near(high, m);
    assert Decode(w, Wire(low)) == low <==> Decodable(w, low);
    assert Decode(w, Wire(high)) == high <==> Decodable(w, high);
  }

  /**
   * The arrivals that keep the machine in step when m is the newest timestamp so far. A newer one must
   * decode. An older one must not be mistaken for the end of the wrap period, nor for the start of the
   * next one while m is too fresh for that.
   */
  predicate InStep(w: Wrapping, m: nat, t: nat) {
    if t > m then Decodable(w, t)
    else if w.period then
      !(THRESHOLD <= Wire(t) <= 2 * THRESHOLD && t < w.offset + WRAP && m != w.offset + WRAP + THRESHOLD)
    else !(t < w.offset && Wire(t) > MAX_TIMESTAMP - THRESHOLD && m <= w.offset + 3 * THRESHOLD)
  }

  function Newest(m: nat, t: nat): nat {
    if t > m then t else m
  }

  /** The machine stays in step for exactly these arrivals. */
  lemma UpdateTracks(w: Wrapping, m: nat, t: nat)
    requires Aligned(w) && Tracks(w, m)
    ensures Tracks(Update(w, Wire(t)), Newest(m, t)) <==> InStep(w, m, t)
  {
    hide Wire;
    var e: nat :| w.offset == e * WRAP;
    WireFrom(t, e);
  }

  lemma NearIsInStep(w: Wrapping, m: nat, t: nat)
    requires Aligned(w) && Tracks(w, m) && Near(t, m)
    ensures InStep(w, m, t)
  {
    hide Wire;
    var e: nat :| w.offset == e * WRAP;
    WireFrom(t, e);
  }

  // ---- runs ----

  function MaxOf(ts: seq<nat>): nat
    requires ts != []
  {
    if |ts| == 1 then ts[0] else Newest(MaxOf(ts[..|ts| - 1]), ts[|ts| - 1])
  }

  function After(ts: seq<nat>): Wrapping {
    if ts == [] then Wrapping(false, 0)
    else Update(After(ts[..|ts| - 1]), Wire(ts[|ts| - 1]))
  }

  lemma {:induction false} AfterAligned(ts: seq<nat>)
    ensures Aligned(After(ts))
  {
    hide Update;
    if ts == [] {
      assert After(ts).offset == 0 * WRAP;
    } else {
      AfterAligned(ts[..|ts| - 1]);
      UpdateAligned(After(ts[..|ts| - 1]), Wire(ts[|ts| - 1]));
    }
  }

  /** Every arrival of the run is in step with the ones before it; the first is in the first wrap. */
  ghost predicate Kept(ts: seq<nat>) {
    && (ts != [] ==> ts[0] < WRAP)
    && forall i :: 1 <= i < |ts| ==> InStep(After(ts[..i]), MaxOf(ts[..i]), ts[i])
  }

  ghost predicate TracksAt(ts: seq<nat>, i: nat)
    requires 1 <= i <= |ts|
  {
    Tracks(After(ts[..i]), MaxOf(ts[..i]))
  }

  lemma FirstTracks(t: nat)
    ensures Tracks(After([t]), t) <==> t < WRAP
  {
    hide Wire;
    assert [t][..0] == [];
    assert After([t]) == Update(After([]), Wire(t));
    WireFrom(t, 0);
  }

  lemma NextTracks(ts: seq<nat>, i: nat)
    requires 1 <= i < |ts| && TracksAt(ts, i)
    ensures TracksAt(ts, i + 1) <==> InStep(After(ts[..i]), MaxOf(ts[..i]), ts[i])
  {
    hide Update, Tracks, InStep, Wire;
    AfterAligned(ts[..i]);
    UpdateTracks(After(ts[..i]), MaxOf(ts[..i]), ts[i]);
    assert ts[..i + 1][..i] == ts[..i];
  }

  lemma StartTracks(ts: seq<nat>)
    requires ts != []
    ensures TracksAt(ts, 1) <==> ts[0] < WRAP
  {
    hide Tracks;
    assert ts[..1] == [ts[0]];
    FirstTracks(ts[0]);
  }

  lemma {:induction false} KeptTracks(ts: seq<nat>, i: nat)
    requires Kept(ts) && 1 <= i <= |ts|
    ensures TracksAt(ts, i)
  {
    hide TracksAt, InStep;
    if i == 1 {
      StartTracks(ts);
    } else {
      KeptTracks(ts, i - 1);
      NextTracks(ts, i - 1);
    }
  }

  /**
   * The run theorem, exactly: after every arrival of a run everything within 30 s of the newest
   * timestamp decodes, through any number of wraps, if and only if every arrival was in step.
   */
  lemma RunTracksExactly(ts: seq<nat>)
    ensures Kept(ts) <==> forall i :: 1 <= i <= |ts| ==> TracksAt(ts, i)
  {
    hide TracksAt, InStep;
    if Kept(ts) {
      forall i | 1 <= i <= |ts|
        ensures TracksAt(ts, i)
      {
        KeptTracks(ts, i);
      }
    }
    if ts != [] && forall i :: 1 <= i <= |ts| ==> TracksAt(ts, i) {
      StartTracks(ts);
      assert TracksAt(ts, 1);
      forall i | 1 <= i < |ts|
        ensures InStep(After(ts[..i]), MaxOf(ts[..i]), ts[i])
      {
        assert TracksAt(ts, i) && TracksAt(ts, i + 1);
        NextTracks(ts, i);
      }
    }
  }

  /** Every timestamp lies within 30 s of the newest before it; the first is in the first wrap. */
  ghost predicate Steady(ts: seq<nat>) {
    && (ts != [] ==> ts[0] < WRAP)
    && forall i :: 1 <= i < |ts| ==> Near(ts[i], MaxOf(ts[..i]))
  }

  lemma {:induction false} SteadyIsKept(ts: seq<nat>)
    requires Steady(ts)
    ensures Kept(ts)
  {
    hide InStep, After, MaxOf, Near;
    if |ts| > 1 {
      var n := |ts| - 1;
      var init := ts[..n];
      assert forall i :: 1 <= i < n ==> init[..i] == ts[..i];
      SteadyIsKept(init);
      KeptTracks(init, n);
      assert init[..n] == init;
      AfterAligned(init);
      NearIsInStep(After(init), MaxOf(init), ts[n]);
    }
  }

  /** With every timestamp within 30 s of the newest before it, every timestamp within 30 s of the newest decodes. */
  lemma {:induction false} RunDecodes(ts: seq<nat>, t: nat)
    requires ts != [] && Steady(ts) && Near(t, MaxOf(ts))
    ensures Decode(After(ts), Wire(t)) == t
  {
    hide Kept, Steady, Tracks, Decode;
    SteadyIsKept(ts);
    KeptTracks(ts, |ts|);
    assert ts[..|ts|] == ts;
    AfterAligned(ts);
    TracksExact(After(ts), MaxOf(ts));
  }

  /**
   * How long a silence may last, exactly: after any run that kept track, the next newer timestamp
   * decodes, and keeps track, if and only if it comes before the next wrap, or within 60 s after it
   * when the wrap period has begun.
   */
  lemma {:induction false} SilenceExact(ts: seq<nat>, t: nat)
    requires ts != [] && Kept(ts) && t > MaxOf(ts)
    ensures var w := After(ts);
            && (Decode(After(ts + [t]), Wire(t)) == t <==>
                  t < w.offset + WRAP + (if w.period then 2 * THRESHOLD + 1 else 0))
            && (Tracks(After(ts + [t]), t) <==> t < w.offset + WRAP + (if w.period then 2 * THRESHOLD + 1 else 0))
  {
    hide Wire, Kept;
    KeptTracks(ts, |ts|);
    assert ts[..|ts|] == ts;
    assert (ts + [t])[..|ts|] == ts;
    AfterAligned(ts);
    UpdateTracks(After(ts), MaxOf(ts), t);
    UpdateKeepsDecoding(After(ts), Wire(t));
    DecodeExact(After(ts), t);
  }

  /** The shortest silence that breaks decoding: one microsecond more than 60 s after the wrap. */
  lemma SilenceBreaks()
    ensures Decode(After([WRAP - 1, WRAP + 2 * THRESHOLD + 1]), Wire(WRAP + 2 * THRESHOLD + 1)) == 2 * THRESHOLD + 1
    ensures Decode(After([WRAP - 1, WRAP + 2 * THRESHOLD]), Wire(WRAP + 2 * THRESHOLD)) == WRAP + 2 * THRESHOLD
  {
    WireIn(WRAP - 1, 0);
    assert [WRAP - 1][..0] == [];
    assert After([WRAP - 1]) == Update(After([]), Wire(WRAP - 1));
    WireIn(WRAP + 2 * THRESHOLD + 1, 1);
    WireIn(WRAP + 2 * THRESHOLD, 1);
    assert [WRAP - 1, WRAP + 2 * THRESHOLD + 1][..1] == [WRAP - 1];
    assert [WRAP - 1, WRAP + 2 * THRESHOLD][..1] == [WRAP - 1];
  }

  // ---- the timer ----

  /** Division truncating toward zero. */
  function TruncDiv(a: int, b: int): int
    requires b > 0
  {
    if a >= 0 then a / b else -((-a) / b)
  }

  /** The remainder is smaller than the divisor and has the sign of the dividend. */
  lemma TruncDivExact(a: int, b: int)
    requires b > 0
    ensures var r := a - TruncDiv(a, b) * b; -b < r < b && (a >= 0 ==> r >= 0) && (a <= 0 ==> r <= 0)
  {
    var n := if a >= 0 then a else -a;
    var k, m := n / b, n % b;
    assert n == k * b + m && 0 <= m < b;
    assert (-k) * b == -(k * b);
  }

  /** What an average drift moves the time base by: 5 ms in its direction, once it exceeds them. */
  function Overdrift(avg: int): int {
    if avg > DRIFT_MAX then DRIFT_MAX else if avg < -DRIFT_MAX then -DRIFT_MAX else 0
  }

  class Timer {
    var delay: int
    var timeBase: int
    var driftEnabled: bool
    var driftSum: int
    var driftCount: nat
    var driftOffset: int
    var firstRTT: int
    var wrapPeriod: bool
    var wrapOffset: int

    ghost function Wraps(): Wrapping
      reads this
    {
      Wrapping(wrapPeriod, wrapOffset)
    }

    constructor (delay: int, timeBase: int)
      ensures this.delay == delay && this.timeBase == timeBase && driftOffset == 0 && driftCount == 0 && driftSum == 0
      ensures Wraps() == After([]) && driftEnabled && firstRTT == -1
    {
      this.delay, this.timeBase := delay, timeBase;
      driftEnabled, driftSum, driftCount, driftOffset, firstRTT := true, 0, 0, 0, -1;
      wrapPeriod, wrapOffset := false, 0;
    }

    method UpdateWrap(ts: Stamp, ghost seen: seq<nat>, ghost t: nat)
      requires Wraps() == After(seen) && ts == Wire(t)
      modifies this`wrapPeriod, this`wrapOffset
      ensures Wraps() == After(seen + [t])
    {
      assert (seen + [t])[..|seen|] == seen;
      if !wrapPeriod {
        if ts > MAX_TIMESTAMP - THRESHOLD {
          wrapPeriod := true;
        }
      } else {
        if ts >= THRESHOLD && ts <= 2 * THRESHOLD {
          wrapPeriod := false;
          wrapOffset := wrapOffset + WRAP;
        }
      }
    }

    /** The playout instant of a packet sent at true time t is right for exactly the decodable timestamps. */
    method DeliveryTime(ts: Stamp, ghost seen: seq<nat>, ghost t: nat) returns (at: int)
      requires Wraps() == After(seen) && ts == Wire(t)
      ensures at == timeBase + t + delay + driftOffset <==> Decodable(Wraps(), t)
      ensures at == timeBase + Decode(Wraps(), ts) + delay + driftOffset
    {
      hide Wire, Decodable, After;
      AfterAligned(seen);
      DecodeExact(After(seen), t);
      var offset := wrapOffset;
      if wrapPeriod && ts <= 2 * THRESHOLD {
        offset := offset + WRAP;
      }
      var fullTS := offset + ts;
      at := timeBase + (fullTS + delay + driftOffset);
    }

    /**
     * A drift sample. The first 999 of an epoch only accumulate; the 1000th moves the clock: of an
     * average beyond 5 ms, 5 ms go into the time base, the rest into the drift offset, and the two
     * together always amount to the average.
     */
    method OnACK(ts: Stamp, localRecvTime: int, rttSample: int)
      requires driftCount < DRIFT_SAMPLES
      modifies this`firstRTT, this`driftSum, this`driftCount, this`timeBase, this`driftOffset
      ensures driftCount < DRIFT_SAMPLES
      ensures !driftEnabled ==> driftSum == old(driftSum) && driftCount == old(driftCount)
                                && timeBase == old(timeBase) && driftOffset == old(driftOffset)
      ensures driftEnabled ==>
                var base := if old(firstRTT) == -1 then rttSample else old(firstRTT);
                var delta := if rttSample >= 0 && base >= 0 then TruncDiv(rttSample - base, 2) else 0;
                var sum := old(driftSum) + (localRecvTime - (old(timeBase) + Decode(Wraps(), ts)) - delta);
                firstRTT == base
                && if old(driftCount) + 1 < DRIFT_SAMPLES
                   then driftSum == sum && driftCount == old(driftCount) + 1
                        && timeBase == old(timeBase) && driftOffset == old(driftOffset)
                   else driftSum == 0 && driftCount == 0
                        && timeBase + driftOffset == old(timeBase) + TruncDiv(sum, DRIFT_SAMPLES)
                        && timeBase - old(timeBase) == Overdrift(TruncDiv(sum, DRIFT_SAMPLES))
    {
      hide TruncDiv, Decode;
      if !driftEnabled {
        return;
      }
      if firstRTT == -1 {
        firstRTT := rttSample;
      }
      var expectedArrival := timeBase + Decode(Wrapping(wrapPeriod, wrapOffset), ts);
      var rttDelta := 0;
      if rttSample >= 0 && firstRTT >= 0 {
        rttDelta := TruncDiv(rttSample - firstRTT, 2);
      }
      var drift := localRecvTime - expectedArrival - rttDelta;
      driftSum := driftSum + drift;
      driftCount := driftCount + 1;
      if driftCount >= DRIFT_SAMPLES {
        var avgDrift := TruncDiv(driftSum, driftCount);
        driftSum := 0;
        driftCount := 0;
        if avgDrift > DRIFT_MAX {
          timeBase := timeBase + DRIFT_MAX;
          avgDrift := avgDrift - DRIFT_MAX;
        } else if avgDrift < -DRIFT_MAX {
          timeBase := timeBase - DRIFT_MAX;
          avgDrift := avgDrift + DRIFT_MAX;
        }
        driftOffset := avgDrift;
      }
    }
  }
}
