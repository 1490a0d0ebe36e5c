/**
 * Big-endian words in byte strings, shared by the codecs (encoding/binary in the source).
 */
module Wire {
  type Octet = n: int | 0 <= n < 256
  type Word = n: int | 0 <= n < 0x1_0000_0000
  type Half = n: int | 0 <= n < 0x1_0000
  type Data = seq<Octet>

  function PutHalf(h: Half): (d: Data)
    ensures |d| == 2
  {
    [h / 0x100, h % 0x100]
  }

  function GetHalf(d: Data): Half
    requires |d| >= 2
  {
    d[0] as int * 0x100 + d[1] as int
  }

  lemma HalfRoundTrip(h: Half, rest: Data)
    ensures GetHalf(PutHalf(h) + rest) == h
    ensures (PutHalf(h) + rest)[2..] == rest
  {
  }

  function PutWord(w: Word): (d: Data)
    ensures |d| == 4
  {
    PutHalf(w / 0x1_0000) + PutHalf(w % 0x1_0000)
  }

  function GetWord(d: Data): Word
    requires |d| >= 4
  {
    GetHalf(d) as int * 0x1_0000 + GetHalf(d[2..]) as int
  }

  lemma WordRoundTrip(w: Word, rest: Data)
    ensures GetWord(PutWord(w) + rest) == w
    ensures (PutWord(w) + rest)[4..] == rest
  {
    hide PutHalf, GetHalf;
    var lo := PutHalf(w % 0x1_0000) + rest;
    assert PutWord(w) + rest == PutHalf(w / 0x1_0000) + lo;
    HalfRoundTrip(w / 0x1_0000, lo);
    HalfRoundTrip(w % 0x1_0000, rest);
  }

  /** Two half words next to each other are one word. */
  lemma WordOfHalves(hi: Half, lo: Half)
    ensures PutWord(hi as int * 0x1_0000 + lo as int) == PutHalf(hi) + PutHalf(lo)
  {
  }

  /** The most significant byte comes first. */
  lemma WordBytes(a: Octet, b: Octet, c: Octet, d: Octet)
    ensures PutWord(a as int * 0x100_0000 + b as int * 0x1_0000 + c as int * 0x100 + d as int) == [a, b, c, d]
  {
    var hi, lo := a as int * 0x100 + b as int, c as int * 0x100 + d as int;
    var w := hi * 0x1_0000 + lo;
    assert w / 0x1_0000 == hi && w % 0x1_0000 == lo;
    assert hi / 0x100 == a && hi % 0x100 == b && lo / 0x100 == c && lo % 0x100 == d;
  }

  /** The whole words of a byte string; a trailing part of a word is ignored. */
  function Words(d: Data): (ws: seq<Word>)
    ensures |ws| == |d| / 4
  {
    if |d| < 4 then [] else [GetWord(d)] + Words(d[4..])
  }

  function Unwords(ws: seq<Word>): (d: Data)
    ensures |d| == 4 * |ws|
  {
    if ws == [] then [] else PutWord(ws[0]) + Unwords(ws[1..])
  }

  lemma {:induction false} WordsRoundTrip(ws: seq<Word>)
    ensures Words(Unwords(ws)) == ws
  {
    hide GetWord, PutWord;
    if ws != [] {
      WordRoundTrip(ws[0], Unwords(ws[1..]));
      WordsRoundTrip(ws[1..]);
    }
  }

  /** Word k of a list lies at offset 4 k. */
  lemma {:induction false} WordPlace(ws: seq<Word>, k: nat)
    requires k < |ws|
    ensures Unwords(ws)[4 * k..4 * k + 4] == PutWord(ws[k])
  {
    hide PutWord;
    var d, tail := Unwords(ws), Unwords(ws[1..]);
    if k > 0 {
      WordPlace(ws[1..], k - 1);
      assert d[4..] == tail;
      assert d[4 * k..4 * k + 4] == tail[4 * (k - 1)..4 * (k - 1) + 4];
    }
  }

  lemma Join<T>(a: seq<T>, b: seq<T>, c: seq<T>)
    ensures a + (b + c) == a + b + c
  {
  }

  lemma {:induction false} UnwordsAppend(a: seq<Word>, b: seq<Word>)
    ensures Unwords(a + b) == Unwords(a) + Unwords(b)
  {
    hide PutWord;
    if a == [] {
      assert a + b == b;
    } else {
      UnwordsAppend(a[1..], b);
      assert (a + b)[1..] == a[1..] + b;
      Join(PutWord(a[0]), Unwords(a[1..]), Unwords(b));
    }
  }

  lemma {:induction false} WordsStep(d: Data)
    requires |d| >= 4
    ensures Words(d) == [GetWord(d)] + Words(d[4..])
  {
    hide GetWord;
  }

  lemma DropDrop(d: Data, i: nat, j: nat)
    requires i + j <= |d|
    ensures d[i..][j..] == d[i + j..]
  {
  }

  lemma DropOne(w: Word, ws: seq<Word>, k: nat)
    requires 0 < k <= |ws| + 1
    ensures ([w] + ws)[k..] == ws[k - 1..]
  {
  }

  lemma {:induction false} WordsFrom(d: Data, k: nat)
    requires 4 * k <= |d|
    ensures |Words(d)| >= k && Words(d)[k..] == Words(d[4 * k..])
  {
    hide GetWord, Words;
    if k == 0 {
      assert d[0..] == d;
    } else {
      WordsStep(d);
      WordsFrom(d[4..], k - 1);
      DropDrop(d, 4, 4 * (k - 1));
      DropOne(GetWord(d), Words(d[4..]), k);
    }
  }

  /** Words at a byte offset. */
  lemma {:induction false} WordsAt(d: Data, k: nat)
    requires 4 * k <= |d|
    ensures |Words(d)| >= k
    ensures 4 * k + 3 < |d| <==> k < |Words(d)|
    ensures k < |Words(d)| ==> Words(d)[k] == GetWord(d[4 * k..])
    ensures 4 * k + 7 < |d| <==> k + 1 < |Words(d)|
    ensures k + 1 < |Words(d)| ==> Words(d)[k + 1] == GetWord(d[4 * k + 4..])
  {
    hide GetWord;
    WordsFrom(d, k);
    if k < |Words(d)| {
      assert Words(d)[k] == Words(d)[k..][0];
      WordsFrom(d, k + 1);
      if k + 1 < |Words(d)| {
        assert Words(d)[k + 1] == Words(d)[k + 1..][0];
      }
    }
  }
}
