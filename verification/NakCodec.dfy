/**
 * The loss list of a NAK (internal/packet/packet.go, Appendix A of draft-sharabayko-srt): single
 * numbers and ranges, the first number of a range marked by its high bit.
 */
module NakSpec {
  import opened SeqNum
  import opened Wire

  const MARK: int := 0x8000_0000
  const MAX_LOSSES: nat := 8192

  datatype Result = Ok(losses: seq<Num>) | RangeIncomplete | TooLarge

  function Succ(n: Num): int {
    n as int + 1
  }

  /** Last index of the run of consecutive numbers that starts at i. */
  function RunEnd(l: seq<Num>, i: nat): (e: nat)
    requires i < |l|
    ensures i <= e < |l|
    decreases |l| - i
  {
    if i + 1 < |l| && l[i + 1] == Succ(l[i]) then RunEnd(l, i + 1) else i
  }

  function RunWords(l: seq<Num>, i: nat, e: nat): seq<Word>
    requires i <= e < |l|
  {
    if i == e then [l[i]] else [l[i] as int + MARK, l[e]]
  }

  function EncodeFrom(l: seq<Num>, i: nat): seq<Word>
    requires i <= |l|
    decreases |l| - i
  {
    if i == |l| then [] else RunWords(l, i, RunEnd(l, i)) + EncodeFrom(l, RunEnd(l, i) + 1)
  }

  lemma EncodeStep(l: seq<Num>, i: nat)
    requires i < |l|
    ensures EncodeFrom(l, i) == RunWords(l, i, RunEnd(l, i)) + EncodeFrom(l, RunEnd(l, i) + 1)
  {
    hide RunEnd, RunWords;
  }

  lemma EncodeRun(l: seq<Num>, i: nat, before: seq<Word>)
    requires i < |l|
    ensures before + EncodeFrom(l, i) == before + RunWords(l, i, RunEnd(l, i)) + EncodeFrom(l, RunEnd(l, i) + 1)
  {
    hide RunEnd, RunWords, EncodeFrom;
    EncodeStep(l, i);
    Join(before, RunWords(l, i, RunEnd(l, i)), EncodeFrom(l, RunEnd(l, i) + 1));
  }

  lemma {:induction false} EncodeEnd(l: seq<Num>, before: seq<Word>)
    ensures before + EncodeFrom(l, |l|) == before
  {
  }

  function Encode(l: seq<Num>): Data {
    Unwords(EncodeFrom(l, 0))
  }

  /** Appends s, s + 1, ... up to but excluding stop; refused as too large beyond 8192 entries. */
  function Expand(s: Num, stop: Num, acc: seq<Num>): Result
    decreases MAX_LOSSES + 1 - |acc|
  {
    if s == stop then Ok(acc)
    else if |acc| >= MAX_LOSSES then TooLarge
    else Expand(Wrap(Succ(s)), stop, acc + [s])
  }

  function DecodeWords(ws: seq<Word>, acc: seq<Num>): Result
    decreases |ws|
  {
    if ws == [] then Ok(acc)
    else if ws[0] < MARK then DecodeWords(ws[1..], acc + [ws[0]])
    else if |ws| == 1 then RangeIncomplete
    else
      var r := Expand(ws[0] - MARK, Wrap(Succ(Wrap(ws[1]))), acc);
      if r.Ok? then DecodeWords(ws[2..], r.losses) else r
  }

  function Decode(d: Data): Result {
    DecodeWords(Words(d), [])
  }

  /** A range without its second number is refused, whatever came before it. */
  lemma {:induction false} LoneRangeRefused(singles: seq<Num>, first: Num, acc: seq<Num>)
    ensures DecodeWords(singles + [first as int + MARK], acc) == RangeIncomplete
  {
    var ws := singles + [first as int + MARK];
    if singles != [] {
      assert ws[1..] == singles[1..] + [first as int + MARK];
      LoneRangeRefused(singles[1..], first, acc + [singles[0]]);
    }
  }

  // ---- runs ----

  lemma {:induction false} RunIsConsecutive(l: seq<Num>, i: nat, k: nat)
    requires i < |l| && i <= k <= RunEnd(l, i)
    ensures l[k] == l[i] as int + (k - i)
    ensures RunEnd(l, k) == RunEnd(l, i)
    decreases k - i
  {
    if k > i {
      RunIsConsecutive(l, i + 1, k);
    }
  }

  /** A run that covers the whole number space; its range reads as empty. */
  ghost predicate FullCircle(l: seq<Num>, i: nat) {
    i < |l| && l[i] == 0 && l[RunEnd(l, i)] == MAX
  }

  /** Expanding the range of a run returns the run, if it stays within the limit. */
  lemma {:induction false} ExpandRun(l: seq<Num>, i: nat, k: nat)
    requires i < |l| && i <= k <= RunEnd(l, i) + 1 && !FullCircle(l, i)
    ensures var e := RunEnd(l, i);
            var stop := Wrap(Succ(l[e]));
            (if k <= e then l[k] else stop) == Wrap(l[i] as int + (k - i))
            && Expand(Wrap(l[i] as int + (k - i)), stop, l[..k])
               == if k == e + 1 || e < MAX_LOSSES then Ok(l[..e + 1]) else TooLarge
    decreases |l| - k
  {
    hide RunEnd;
    var e := RunEnd(l, i);
    var stop := Wrap(Succ(l[e]));
    RunIsConsecutive(l, i, e);
    if k <= e {
      RunIsConsecutive(l, i, k);
      assert l[k] != stop;
      if k < MAX_LOSSES {
        assert l[..k] + [l[k]] == l[..k + 1];
        ExpandRun(l, i, k + 1);
      }
    }
  }

  lemma {:induction false} FullCircleIsLong(l: seq<Num>, i: nat)
    requires FullCircle(l, i)
    ensures RunEnd(l, i) - i == MAX
  {
    RunIsConsecutive(l, i, RunEnd(l, i));
  }

  /** Decoding the words of one run, whatever was decoded before. */
  lemma {:induction false} DecodeRunWords(l: seq<Num>, i: nat, e: nat, rest: seq<Word>, acc: seq<Num>)
    requires i <= e < |l|
    ensures DecodeWords(RunWords(l, i, e) + rest, acc)
         == if i == e then DecodeWords(rest, acc + [l[i]])
            else var r := Expand(l[i], Wrap(Succ(l[e])), acc);
                 if r.Ok? then DecodeWords(rest, r.losses) else r
  {
    hide Expand;
    var ws := RunWords(l, i, e) + rest;
    if i == e {
      assert ws[1..] == rest;
    } else {
      assert ws[2..] == rest;
      assert ws[0] - MARK == l[i] && Wrap(ws[1]) == l[e];
    }
  }

  /** Decoding the words of one run after everything before it. */
  lemma {:induction false} DecodeRun(l: seq<Num>, i: nat, rest: seq<Word>)
    requires i < |l| && !FullCircle(l, i)
    ensures var e := RunEnd(l, i);
            DecodeWords(RunWords(l, i, e) + rest, l[..i])
            == if i == e || e < MAX_LOSSES then DecodeWords(rest, l[..e + 1]) else TooLarge
  {
    hide Expand, DecodeWords;
    var e := RunEnd(l, i);
    DecodeRunWords(l, i, e, rest, l[..i]);
    if i == e {
      assert l[..i] + [l[i]] == l[..i + 1];
    } else {
      ExpandRun(l, i, i);
    }
  }

  // ---- the round trip ----

  /** No two consecutive numbers stand beyond the first 8192. */
  ghost predicate Decodable(l: seq<Num>, from: nat) {
    forall i :: MAX_LOSSES <= i < |l| && from < i ==> l[i] != Succ(l[i - 1])
  }

  lemma {:induction false} RunWithin(l: seq<Num>, i: nat)
    requires i < |l| && Decodable(l, i)
    ensures RunEnd(l, i) == i || RunEnd(l, i) < MAX_LOSSES
    ensures !FullCircle(l, i)
  {
    var e := RunEnd(l, i);
    if e > i {
      RunIsConsecutive(l, i, e);
      RunIsConsecutive(l, i, e - 1);
      assert e < MAX_LOSSES;
    }
  }

  lemma {:induction false} DecodesFrom(l: seq<Num>, i: nat)
    requires i <= |l| && Decodable(l, i)
    ensures DecodeWords(EncodeFrom(l, i), l[..i]) == Ok(l)
    decreases |l| - i
  {
    if i == |l| {
      assert l[..i] == l;
    } else {
      var e := RunEnd(l, i);
      RunWithin(l, i);
      DecodeRun(l, i, EncodeFrom(l, e + 1));
      DecodesFrom(l, e + 1);
    }
  }

  /** Decoding never yields more numbers than were encoded. */
  lemma {:induction false} NeverLonger(l: seq<Num>, i: nat, acc: seq<Num>)
    requires i <= |l|
    ensures var r := DecodeWords(EncodeFrom(l, i), acc); r.Ok? ==> |r.losses| <= |acc| + |l| - i
    decreases |l| - i
  {
    hide Expand, DecodeWords, RunEnd;
    if i == |l| {
      NothingLeft(acc);
    } else {
      var e := RunEnd(l, i);
      DecodeRunWords(l, i, e, EncodeFrom(l, e + 1), acc);
      if i == e {
        NeverLonger(l, e + 1, acc + [l[i]]);
      } else {
        var r := Expand(l[i], Wrap(Succ(l[e])), acc);
        if r.Ok? {
          RunLength(l, i, acc);
          NeverLonger(l, e + 1, r.losses);
        }
      }
    }
  }

  lemma {:induction false} NothingLeft(acc: seq<Num>)
    ensures DecodeWords([], acc) == Ok(acc)
  {
  }

  lemma {:induction false} RunLength(l: seq<Num>, i: nat, acc: seq<Num>)
    requires i < |l|
    ensures var r := Expand(l[i], Wrap(Succ(l[RunEnd(l, i)])), acc);
            r.Ok? ==> |r.losses| <= |acc| + (RunEnd(l, i) + 1 - i)
  {
    var e := RunEnd(l, i);
    RunIsConsecutive(l, i, e);
    ExpandLength(l[i], e + 1 - i, Wrap(Succ(l[e])), acc);
  }

  lemma {:induction false} ExpandLength(s: Num, n: nat, stop: Num, acc: seq<Num>)
    requires stop == Wrap(s as int + n)
    ensures var r := Expand(s, stop, acc); r.Ok? ==> |r.losses| <= |acc| + n
    decreases n
  {
    if n > 0 && s != stop && |acc| < MAX_LOSSES {
      WrapOfSum(Succ(s), n - 1);
      ExpandLength(Wrap(Succ(s)), n - 1, stop, acc + [s]);
    }
  }

  lemma {:induction false} FailsFrom(l: seq<Num>, i: nat)
    requires i <= |l| && !Decodable(l, i) && (0 < i < |l| ==> l[i] != Succ(l[i - 1]))
    ensures DecodeWords(EncodeFrom(l, i), l[..i]) != Ok(l)
    decreases |l| - i
  {
    hide DecodeWords, RunEnd, EncodeFrom;
    if i < |l| {
      var e := RunEnd(l, i);
      var rest := EncodeFrom(l, e + 1);
      EncodeStep(l, i);
      if FullCircle(l, i) {
        FullCircleIsLong(l, i);
        DecodeRunWords(l, i, e, rest, l[..i]);
        NeverLonger(l, e + 1, l[..i]);
      } else {
        DecodeRun(l, i, rest);
        if i == e || e < MAX_LOSSES {
          RunStops(l, i);
          NextFails(l, i);
          FailsFrom(l, e + 1);
        }
      }
    }
  }

  lemma {:induction false} RunStops(l: seq<Num>, i: nat)
    requires i < |l|
    ensures var e := RunEnd(l, i); e + 1 < |l| ==> l[e + 1] != Succ(l[e])
    decreases |l| - i
  {
    if i + 1 < |l| && l[i + 1] == Succ(l[i]) {
      RunStops(l, i + 1);
    }
  }

  lemma NextFails(l: seq<Num>, i: nat)
    requires i < |l| && !Decodable(l, i) && (i == RunEnd(l, i) || RunEnd(l, i) < MAX_LOSSES)
    ensures !Decodable(l, RunEnd(l, i) + 1)
  {
    var e := RunEnd(l, i);
    RunStops(l, i);
    var k :| MAX_LOSSES <= k < |l| && i < k && l[k] == Succ(l[k - 1]);
    assert k != e + 1;
    assert k > e + 1;
  }

  /** Decoding an encoded list of at most 8192 numbers, sorted or not, returns it. */
  lemma RoundTrip(l: seq<Num>)
    requires |l| <= MAX_LOSSES
    ensures Decode(Encode(l)) == Ok(l)
  {
    RoundTripExact(l);
  }

  /** For lists of any length: the round trip works exactly when no consecutive pair stands beyond the first 8192. */
  lemma RoundTripExact(l: seq<Num>)
    ensures Decode(Encode(l)) == Ok(l) <==> forall i :: MAX_LOSSES <= i < |l| ==> l[i] != Succ(l[i - 1])
  {
    WordsRoundTrip(EncodeFrom(l, 0));
    assert l[..0] == [];
    assert Decodable(l, 0) <==> forall i :: MAX_LOSSES <= i < |l| ==> l[i] != Succ(l[i - 1]);
    if Decodable(l, 0) {
      DecodesFrom(l, 0);
    } else {
      FailsFrom(l, 0);
    }
  }

  /** A gap of consecutive numbers that is longer than 8192 is refused as a whole. */
  lemma LongRunRefused(l: seq<Num>)
    requires MAX_LOSSES < |l| < SPACE && forall i :: 0 < i < |l| ==> l[i] == Succ(l[i - 1])
    ensures Decode(Encode(l)) == TooLarge
  {
    hide DecodeWords, EncodeFrom;
    RunToEnd(l, 0);
    WordsRoundTrip(EncodeFrom(l, 0));
    RunIsConsecutive(l, 0, |l| - 1);
    EncodeStep(l, 0);
    assert l[..0] == [];
    DecodeRun(l, 0, EncodeFrom(l, |l|));
  }

  lemma {:induction false} RunToEnd(l: seq<Num>, i: nat)
    requires i < |l| && forall k :: 0 < k < |l| ==> l[k] == Succ(l[k - 1])
    ensures RunEnd(l, i) == |l| - 1
    decreases |l| - i
  {
    if i + 1 < |l| {
      assert l[i + 1] == Succ(l[i]);
      RunToEnd(l, i + 1);
    }
  }
}

module NakCodec {
  import opened SeqNum
  import opened Wire
  import opened NakSpec

  method MarshalCIF(lossList: seq<Num>) returns (buf: Data)
    ensures buf == Encode(lossList)
  {
    hide Words, GetWord, PutWord, Unwords, RunEnd, EncodeFrom;
    NoLosses();
    if |lossList| == 0 {
      return [];
    }
    var encoded: seq<Word> := [];
    var i := 0;
    assert encoded + EncodeFrom(lossList, 0) == EncodeFrom(lossList, 0);
    while i < |lossList|
      invariant 0 <= i <= |lossList|
      invariant encoded + EncodeFrom(lossList, i) == EncodeFrom(lossList, 0)
    {
      var e := FindRun(lossList, i);
      var start, end := lossList[i], lossList[e];
      ghost var was, words := encoded, RunWords(lossList, i, e);
      if start == end {
        encoded := encoded + [start];
      } else {
        encoded := encoded + [start as int + MARK, end];
      }
      assert encoded == was + words;
      EncodeRun(lossList, i, was);
      i := e + 1;
    }
    EncodeEnd(lossList, encoded);
    buf := PutWords(encoded);
  }

  /** Walks to the last number of the run that starts at i. */
  method FindRun(lossList: seq<Num>, i: nat) returns (e: nat)
    requires i < |lossList|
    ensures e == RunEnd(lossList, i) && (lossList[i] == lossList[e] <==> i == e)
  {
    e := i;
    var end := lossList[i];
    while e + 1 < |lossList| && lossList[e + 1] == Succ(end)
      invariant i <= e < |lossList| && end == lossList[e] == lossList[i] as int + (e - i)
      invariant RunEnd(lossList, e) == RunEnd(lossList, i)
    {
      e := e + 1;
      end := lossList[e];
    }
  }

  lemma NoLosses()
    ensures Encode([]) == []
  {
  }

  method PutWords(encoded: seq<Word>) returns (buf: Data)
    ensures buf == Unwords(encoded)
  {
    buf := [];
    for j := 0 to |encoded|
      invariant buf == Unwords(encoded[..j])
    {
      assert encoded[..j + 1] == encoded[..j] + [encoded[j]];
      UnwordsAppend(encoded[..j], [encoded[j]]);
      buf := buf + PutWord(encoded[j]);
    }
    assert encoded[..|encoded|] == encoded;
  }

  method UnmarshalCIF(data: Data) returns (r: Result)
    ensures r == Decode(data)
  {
    hide Words, GetWord, Expand;
    var lossList: seq<Num> := [];
    var i := 0;
    ghost var k := 0;
    while i + 3 < |data|
      invariant i == 4 * k <= |data| && |Words(data)| >= k
      invariant DecodeWords(Words(data)[k..], lossList) == Decode(data)
    {
      WordsAt(data, k);
      var val := GetWord(data[i..]);
      assert Words(data)[k..][0] == val;
      if val >= MARK {
        if i + 7 >= |data| {
          return RangeIncomplete;
        }
        assert Words(data)[k..][2..] == Words(data)[k + 2..];
        var start, end := val - MARK, Wrap(GetWord(data[i + 4..]));
        var part := ExpandRange(start, Wrap(Succ(end)), lossList);
        if !part.Ok? {
          return part;
        }
        lossList := part.losses;
        i, k := i + 8, k + 2;
      } else {
        assert Words(data)[k..][1..] == Words(data)[k + 1..];
        lossList := lossList + [val];
        i, k := i + 4, k + 1;
      }
    }
    WordsAt(data, k);
    return Ok(lossList);
  }

  method ExpandRange(start: Num, stop: Num, lossList: seq<Num>) returns (r: Result)
    ensures r == Expand(start, stop, lossList)
  {
    var s, acc := start, lossList;
    while s != stop
      invariant Expand(s, stop, acc) == Expand(start, stop, lossList)
      decreases MAX_LOSSES + 1 - |acc|
    {
      acc := acc + [s];
      if |acc| > MAX_LOSSES {
        return TooLarge;
      }
      s := Wrap(Succ(s));
    }
    return Ok(acc);
  }
}

/**
 * The immediate NAK of the receiver against the decoder of the sender: the receiver lists up to
 * 10000 lost numbers, the decoder takes 8192 (internal/core/conn.go, internal/packet/packet.go).
 */
module NakExchange {
  import opened SeqNum
  import opened NakSpec
  import opened Connection

  /** Neighbours in a gap differ by one except where the numbers wrap to zero. */
  lemma {:induction false} Neighbours(start: Num, n: nat, i: nat)
    requires 0 < i < n
    ensures var l := Consecutive(start, n); l[i] == Succ(l[i - 1]) <==> l[i] != 0
  {
    hide Consecutive;
    ConsecutiveAt(start, n, i);
    ConsecutiveAt(start, n, i - 1);
    WrapArith(start as int + i - 1, 1);
  }

  lemma {:induction false} OneWrap(start: Num, n: nat)
    requires 8194 <= n
    ensures Consecutive(start, n)[8192] != 0 || Consecutive(start, n)[8193] != 0
  {
    hide Consecutive;
    ConsecutiveAt(start, n, 8192);
    ConsecutiveAt(start, n, 8193);
    WrapArith(start as int + 8192, 1);
  }

  /**
   * An immediate NAK reaches the sender intact exactly when its gap has at most 8192 numbers, or one
   * more with the numbers wrapping at that one; any longer gap is refused.
   */
  lemma GapAnswered(start: Num, end: Num)
    ensures var l := GapList(start, end);
            Decode(Encode(l)) == Ok(l) <==> |l| <= MAX_LOSSES || (|l| == MAX_LOSSES + 1 && l[MAX_LOSSES] == 0)
  {
    hide Consecutive, Encode, Decode, Distance;
    var l := GapList(start, end);
    RoundTripExact(l);
    forall i | 0 < i < |l|
      ensures l[i] == Succ(l[i - 1]) <==> l[i] != 0
    {
      Neighbours(start, |l|, i);
    }
    if |l| > MAX_LOSSES + 1 {
      OneWrap(start, |l|);
      assert l[8192] == Succ(l[8191]) || l[8193] == Succ(l[8192]);
    } else if |l| == MAX_LOSSES + 1 {
      assert l[8192] == Succ(l[8191]) <==> l[8192] != 0;
    }
  }
}
