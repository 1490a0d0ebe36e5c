/**
 * The handshake message and its extension blocks (internal/packet/cif.go).
 */
module HandshakeSpec {
  import opened Wire
  import opened Packets
  import opened HandshakeParts

  const CONCLUSION: Word := 0xFFFF_FFFF
  const HSREQ: Half := 1
  const HSRSP: Half := 2
  const KMREQ: Half := 3
  const KMRSP: Half := 4
  const SID: Half := 5
  const CONGESTION: Half := 6
  const FILTER: Half := 7
  const GROUP: Half := 8
  const MAX_SID: nat := 512
  const MAX_BLOCK: nat := 4 * 0xFFFF

  datatype Handshake = Handshake(
    version: Word,
    encryption: Half,
    extension: Half,
    isn: Word,
    mtu: Word,
    flowWindow: Word,
    kind: Word,
    socketId: Word,
    cookie: Word,
    peerIP: Data,
    isRequest: bool,
    hs: Option<HsExt>,
    km: Option<KeyMaterial>,
    sid: Option<Data>,
    congestion: Option<Data>,
    filter: Option<Data>,
    group: Option<Group>)

  datatype Error =
    | TooShort | BadEncryption | Truncated | Duplicate | BadHsLength | SidTooLong | BadKm(error: KmError)

  datatype Result = Ok(hs: Handshake) | Err(error: Error)

  // ---- printing ----

  function ExtensionBits(h: Handshake): Half {
    (if h.hs.Some? then 1 else 0)
    + (if h.km.Some? then 2 else 0)
    + (if h.sid.Some? || h.congestion.Some? || h.filter.Some? || h.group.Some? then 4 else 0)
  }

  /** What printing makes of the message first: no empty stream ID, and the computed extension field. */
  function Normalized(h: Handshake): Handshake {
    var s := if h.sid == Some([]) then h.(sid := None) else h;
    if h.version == 5 && h.kind == CONCLUSION then s.(extension := ExtensionBits(s))
    else if h.version == 4 then s.(encryption := 0, extension := 2)
    else s
  }

  function Block(kind: Half, data: Data): Data {
    PutHalf(kind) + PutHalf(|data| / 4 % 0x1_0000) + data
  }

  function HsBlock(h: Handshake): Data {
    if h.hs.Some? then Block(if h.isRequest then HSREQ else HSRSP, PutHs(h.hs.value)) else []
  }

  function KmBlock(h: Handshake): Data {
    if h.km.Some? then Block(if h.isRequest then KMREQ else KMRSP, PutKm(h.km.value)) else []
  }

  function SidBlock(h: Handshake): Data {
    if h.sid.Some? then Block(SID, PutString(h.sid.value)) else []
  }

  function CongestionBlock(h: Handshake): Data {
    if h.congestion.Some? then Block(CONGESTION, PutString(h.congestion.value)) else []
  }

  function FilterBlock(h: Handshake): Data {
    if h.filter.Some? && h.filter.value != [] then Block(FILTER, PutString(h.filter.value)) else []
  }

  function GroupBlock(h: Handshake): Data {
    if h.group.Some? && h.group.value.id != 0 then Block(GROUP, PutGroup(h.group.value)) else []
  }

  function BaseWords(h: Handshake): seq<Word> {
    [h.version, h.encryption as int * 0x1_0000 + h.extension as int, h.isn % 0x8000_0000, h.mtu, h.flowWindow, h.kind,
     h.socketId, h.cookie]
  }

  /** The 48 bytes every handshake has; the two 16-bit fields share the second word. */
  function Base(h: Handshake): (d: Data)
    ensures |d| == 48
  {
    Unwords(BaseWords(h)) + PutIP(h.peerIP)
  }

  /** The extension blocks in their order on the wire, key material last. */
  function Blocks(n: Handshake): Data {
    HsBlock(n) + (SidBlock(n) + (CongestionBlock(n) + (FilterBlock(n) + (GroupBlock(n) + KmBlock(n)))))
  }

  function Print(h: Handshake): Data {
    Base(Normalized(h)) + Blocks(Normalized(h))
  }

  // ---- parsing ----

  function ParseBase(d: Data): Handshake
    requires |d| >= 48
  {
    Handshake(GetWord(d), GetHalf(d[4..]), GetHalf(d[6..]), GetWord(d[8..]) % 0x8000_0000, GetWord(d[12..]),
              GetWord(d[16..]), GetWord(d[20..]), GetWord(d[24..]), GetWord(d[28..]), GetIP(d[32..48]),
              false, None, None, None, None, None, None)
  }

  /** What one extension block does to the message. */
  function Apply(h: Handshake, kind: Half, data: Data): Result {
    if kind == HSREQ || kind == HSRSP then
      if |data| != 12 then Err(BadHsLength) else Ok(h.(isRequest := kind == HSREQ, hs := Some(GetHs(data))))
    else if kind == KMREQ || kind == KMRSP then
      match GetKm(data)
      case KmOk(km) => Ok(h.(isRequest := kind == KMREQ, km := Some(km)))
      case KmErr(e) => Err(BadKm(e))
    else if kind == SID then
      if |data| > MAX_SID then Err(SidTooLong) else Ok(h.(sid := Some(GetString(data))))
    else if kind == CONGESTION then Ok(h.(congestion := Some(GetString(data))))
    else if kind == FILTER then Ok(h.(filter := Some(GetString(data))))
    else if kind == GROUP then
      if |data| >= 8 then Ok(h.(group := Some(GetGroup(data)))) else Ok(h)
    else Ok(h)
  }

  /** A block is refused for its length or for the key material in it, and for nothing else. */
  lemma ApplyRefuses(h: Handshake, kind: Half, data: Data)
    ensures Apply(h, kind, data).Err? <==>
              || ((kind == 1 || kind == 2) && |data| != 12)
              || ((kind == 3 || kind == 4) && GetKm(data).KmErr?)
              || (kind == 5 && |data| > 512)
  {
    hide GetHs, GetKm, GetString, GetGroup;
  }

  /** Blocks of unknown types, and group blocks too short for one, are passed over. */
  lemma ApplyIgnores(h: Handshake, kind: Half, data: Data)
    requires kind == 0 || kind > 8 || (kind == 8 && |data| < 8)
    ensures Apply(h, kind, data) == Ok(h)
  {
  }

  /** Walks the blocks; seen holds the bits of the types met so far. */
  function ParseBlocks(d: Data, seen: set<int>, h: Handshake): Result
    decreases |d|
  {
    if |d| < 4 then Ok(h)
    else
      var kind, n, rest := GetHalf(d), GetHalf(d[2..]) as int * 4, d[4..];
      if |rest| < n then Err(Truncated)
      else if kind % 32 in seen then Err(Duplicate)
      else
        var r := Apply(h, kind, rest[..n]);
        if r.Err? then r
        else ParseBlocks(rest[n..], seen + {kind % 32}, r.hs)
  }

  predicate KnownEncryption(e: Half) {
    e == 0 || e == 2 || e == 3 || e == 4
  }

  function Parse(d: Data): Result {
    if |d| < 48 then Err(Error.TooShort)
    else
      var h := ParseBase(d);
      if h.kind != CONCLUSION || h.extension == 0 || |d| == 48 then Ok(h)
      else if !KnownEncryption(h.encryption) then Err(BadEncryption)
      else ParseBlocks(d[48..], {}, h)
  }

  // ---- well-formed messages ----

  predicate Extended(h: Handshake) {
    h.hs.Some? || h.km.Some? || h.sid.Some? || h.congestion.Some? || h.filter.Some? || h.group.Some?
  }

  /** The message without its extensions. */
  function Bare(h: Handshake): Handshake {
    h.(isRequest := false, hs := None, km := None, sid := None, congestion := None, filter := None, group := None)
  }

  /** What a parser can have put into the extensions. */
  predicate Sound(h: Handshake) {
    && (h.isRequest ==> h.hs.Some? || h.km.Some?)
    && (h.km.Some? ==> ValidKm(h.km.value) || h.km.value == NO_KM)
    && (h.sid.Some? ==> NoTrailingNul(h.sid.value) && |h.sid.value| <= MAX_SID)
    && (h.congestion.Some? ==> NoTrailingNul(h.congestion.value) && |h.congestion.value| <= MAX_BLOCK)
    && (h.filter.Some? ==> NoTrailingNul(h.filter.value) && |h.filter.value| <= MAX_BLOCK)
  }

  /** The normalized messages that survive being printed. */
  predicate WellFormed(n: Handshake) {
    && n.isn < 0x8000_0000 && PlainIP(n.peerIP) && Sound(n)
    && (Extended(n) ==> n.kind == CONCLUSION && n.extension != 0 && KnownEncryption(n.encryption))
    && (n.km.Some? ==> ValidKm(n.km.value))
    && (n.filter.Some? ==> n.filter.value != [])
    && (n.group.Some? ==> n.group.value.id != 0)
  }

  // ---- the base ----

  lemma {:induction false} BaseWordAt(ws: seq<Word>, rest: Data, k: nat)
    requires k < |ws|
    ensures GetWord((Unwords(ws) + rest)[4 * k..]) == ws[k]
  {
    hide GetWord, PutWord, Unwords;
    var tail := Unwords(ws[1..]) + rest;
    FirstWord(ws, rest);
    var d := Unwords(ws) + rest;
    if k == 0 {
      assert d[0..] == d;
    } else {
      DropDrop(d, 4, 4 * (k - 1));
      BaseWordAt(ws[1..], rest, k - 1);
    }
  }

  lemma {:induction false} FirstWord(ws: seq<Word>, rest: Data)
    requires ws != []
    ensures var d := Unwords(ws) + rest; GetWord(d) == ws[0] && d[4..] == Unwords(ws[1..]) + rest
  {
    hide GetWord, PutWord;
    Join(PutWord(ws[0]), Unwords(ws[1..]), rest);
    WordRoundTrip(ws[0], Unwords(ws[1..]) + rest);
  }

  lemma HalvesOfWord(d: Data, hi: Half, lo: Half)
    requires |d| >= 4 && GetWord(d) == hi as int * 0x1_0000 + lo as int
    ensures GetHalf(d) == hi && GetHalf(d[2..]) == lo
  {
    hide GetHalf;
  }

  /** What the fixed part of a printed message is read as. */
  lemma BaseRead(h: Handshake, rest: Data)
    ensures ParseBase(Base(h) + rest) == Bare(h).(isn := h.isn % 0x8000_0000, peerIP := GetIP(PutIP(h.peerIP)))
  {
    hide GetWord, GetHalf, PutIP, GetIP, Unwords;
    var ws, tail := BaseWords(h), PutIP(h.peerIP) + rest;
    var d := Base(h) + rest;
    assert d == Unwords(ws) + tail by {
      Join(Unwords(ws), PutIP(h.peerIP), rest);
    }
    forall k: nat | k < 8
      ensures GetWord(d[4 * k..]) == ws[k]
    {
      BaseWordAt(ws, tail, k);
    }
    assert d[0..] == d;
    assert GetWord(d[4 * 0..]) == h.version;
    assert GetWord(d[4 * 1..]) == ws[1];
    HalvesOfWord(d[4..], h.encryption, h.extension);
    DropDrop(d, 4, 2);
    assert GetWord(d[4 * 2..]) == h.isn % 0x8000_0000;
    assert GetWord(d[4 * 3..]) == h.mtu && GetWord(d[4 * 4..]) == h.flowWindow && GetWord(d[4 * 5..]) == h.kind;
    assert GetWord(d[4 * 6..]) == h.socketId && GetWord(d[4 * 7..]) == h.cookie;
    assert d[32..48] == PutIP(h.peerIP);
  }

  /** The fixed part reads back exactly when the number has 31 bits and the address is plain. */
  lemma BaseRoundTrip(h: Handshake, rest: Data)
    ensures ParseBase(Base(h) + rest) == Bare(h) <==> h.isn < 0x8000_0000 && PlainIP(h.peerIP)
  {
    hide ParseBase, Base, GetIP, PutIP, PlainIP;
    BaseRead(h, rest);
    IPRoundTrip(h.peerIP);
  }

  /** Where the fields of the fixed part lie. */
  lemma BaseLayout(h: Handshake)
    ensures var d := Base(h);
            && d[0..4] == PutWord(h.version) && d[4..6] == PutHalf(h.encryption) && d[6..8] == PutHalf(h.extension)
            && d[8..12] == PutWord(h.isn % 0x8000_0000) && d[12..16] == PutWord(h.mtu)
            && d[16..20] == PutWord(h.flowWindow) && d[20..24] == PutWord(h.kind)
            && d[24..28] == PutWord(h.socketId) && d[28..32] == PutWord(h.cookie) && d[32..48] == PutIP(h.peerIP)
  {
    hide PutWord, PutHalf, PutIP, Base;
    var d := Base(h);
    BaseField(h, 0);
    BaseField(h, 1);
    WordOfHalves(h.encryption, h.extension);
    var second := d[4..8];
    assert second == PutHalf(h.encryption) + PutHalf(h.extension);
    assert d[4..6] == second[..2] && d[6..8] == second[2..];
    BaseField(h, 2);
    BaseField(h, 3);
    BaseField(h, 4);
    BaseField(h, 5);
    BaseField(h, 6);
    BaseField(h, 7);
  }

  lemma BaseField(h: Handshake, k: nat)
    requires k < 8
    ensures Base(h)[4 * k..4 * k + 4] == PutWord(BaseWords(h)[k]) && Base(h)[32..48] == PutIP(h.peerIP)
  {
    hide PutWord, PutIP, BaseWords, Unwords;
    var ws := BaseWords(h);
    WordsLength(h);
    WordPlace(ws, k);
    assert Base(h)[4 * k..4 * k + 4] == Unwords(ws)[4 * k..4 * k + 4];
  }

  lemma WordsLength(h: Handshake)
    ensures |BaseWords(h)| == 8
  {
  }

  /** The type numbers on the wire. */
  lemma BlockTypes(h: Handshake)
    ensures h.hs.Some? ==> HsBlock(h)[0..2] == [0, if h.isRequest then 1 else 2]
    ensures h.km.Some? ==> |KmBlock(h)| >= 4 && KmBlock(h)[0..2] == [0, if h.isRequest then 3 else 4]
    ensures h.sid.Some? ==> |SidBlock(h)| >= 4 && SidBlock(h)[0..2] == [0, 5]
    ensures h.congestion.Some? ==> |CongestionBlock(h)| >= 4 && CongestionBlock(h)[0..2] == [0, 6]
    ensures h.filter.Some? && h.filter.value != [] ==> |FilterBlock(h)| >= 4 && FilterBlock(h)[0..2] == [0, 7]
    ensures h.group.Some? && h.group.value.id != 0 ==> GroupBlock(h)[0..2] == [0, 8]
  {
    hide PutHs, PutKm, PutString, PutGroup;
  }

  // ---- one block ----

  /** Reading a printed block applies it and goes on behind it. */
  lemma {:induction false} ParseBlock(kind: Half, data: Data, rest: Data, seen: set<int>, h: Handshake)
    requires |data| % 4 == 0 && |data| <= MAX_BLOCK && kind % 32 !in seen
    ensures var r := Apply(h, kind, data);
            ParseBlocks(Block(kind, data) + rest, seen, h)
            == if r.Err? then r else ParseBlocks(rest, seen + {kind % 32}, r.hs)
  {
    hide PutHalf, GetHalf, Apply;
    var d := Block(kind, data) + rest;
    var n: Half := |data| / 4;
    var d2 := PutHalf(n) + (data + rest);
    assert d == PutHalf(kind) + d2;
    HalfRoundTrip(kind, d2);
    HalfRoundTrip(n, data + rest);
    assert d[4..] == data + rest;
    assert d[4..][..|data|] == data && d[4..][|data|..] == rest;
  }

  /** A block that promises more than is left is refused; fewer than four bytes are no block. */
  lemma {:induction false} ShortBlocks(kind: Half, words: Half, data: Data, seen: set<int>, h: Handshake)
    ensures |data| < 4 * words as int ==>
              ParseBlocks(PutHalf(kind) + (PutHalf(words) + data), seen, h) == Err(Truncated)
    ensures |data| < 4 ==> ParseBlocks(data, seen, h) == Ok(h)
  {
    hide PutHalf, GetHalf, Apply;
    var d := PutHalf(kind) + (PutHalf(words) + data);
    HalfRoundTrip(kind, PutHalf(words) + data);
    HalfRoundTrip(words, data);
    assert d[4..] == data;
  }

  /** When a message is refused or taken without looking at blocks. */
  lemma ParseEdges(d: Data)
    ensures |d| < 48 <==> Parse(d) == Err(Error.TooShort)
    ensures |d| >= 48 && (ParseBase(d).kind != 0xFFFF_FFFF || ParseBase(d).extension == 0 || |d| == 48) ==>
              Parse(d) == Ok(ParseBase(d))
    ensures |d| > 48 && ParseBase(d).kind == 0xFFFF_FFFF && ParseBase(d).extension != 0 ==>
              (ParseBase(d).encryption !in {0, 2, 3, 4} ==> Parse(d) == Err(BadEncryption))
              && (ParseBase(d).encryption in {0, 2, 3, 4} ==> Parse(d) == ParseBlocks(d[48..], {}, ParseBase(d)))
  {
    hide ParseBase, ParseBlocks;
    if |d| >= 48 {
      NeverTooShort(d[48..], {}, ParseBase(d));
    }
  }

  lemma {:induction false} NeverTooShort(d: Data, seen: set<int>, h: Handshake)
    ensures ParseBlocks(d, seen, h) != Err(Error.TooShort)
    decreases |d|
  {
    hide GetHalf, GetHs, GetKm, GetString, GetGroup;
    if |d| >= 4 {
      var kind, n := GetHalf(d), GetHalf(d[2..]) as int * 4;
      var rest := d[4..];
      if |rest| >= n && Apply(h, kind, rest[..n]).Ok? {
        NeverTooShort(rest[n..], seen + {kind % 32}, Apply(h, kind, rest[..n]).hs);
      }
    }
  }

  lemma {:induction false} RefuseSeen(kind: Half, data: Data, seen: set<int>, h: Handshake)
    requires |data| % 4 == 0 && |data| <= MAX_BLOCK && kind % 32 in seen
    ensures ParseBlocks(Block(kind, data), seen, h) == Err(Duplicate)
  {
    hide PutHalf, GetHalf, Apply;
    var n: Half := |data| / 4;
    assert Block(kind, data) == PutHalf(kind) + (PutHalf(n) + data);
    HalfRoundTrip(kind, PutHalf(n) + data);
    HalfRoundTrip(n, data);
    assert Block(kind, data)[4..] == data;
  }

  lemma NeverDuplicate(h: Handshake, kind: Half, data: Data)
    ensures Apply(h, kind, data) != Err(Duplicate)
  {
  }

  /** A second block is refused as a duplicate if and only if the types agree modulo 32, also when they differ. */
  lemma {:induction false} AliasRefused(kind: Half, data: Data, kind': Half, data': Data, h: Handshake)
    requires |data| % 4 == 0 && |data| <= MAX_BLOCK && |data'| % 4 == 0 && |data'| <= MAX_BLOCK
    requires Apply(h, kind, data).Ok?
    ensures ParseBlocks(Block(kind, data) + Block(kind', data'), {}, h) == Err(Duplicate) <==> kind' % 32 == kind % 32
  {
    hide Block, ParseBlocks, Apply;
    var second, g := Block(kind', data'), Apply(h, kind, data).hs;
    ParseBlock(kind, data, second, {}, h);
    if kind' % 32 == kind % 32 {
      RefuseSeen(kind', data', {} + {kind % 32}, g);
    } else {
      ParseBlock(kind', data', [], {} + {kind % 32}, g);
      assert second + [] == second;
      NeverDuplicate(g, kind', data');
      NothingToParse({} + {kind % 32} + {kind' % 32});
    }
  }

  lemma NothingToParse(seen: set<int>)
    ensures forall g :: ParseBlocks([], seen, g) == Ok(g)
  {
  }

  lemma PutStringLength(s: Data)
    ensures |PutString(s)| % 4 == 0 && |s| <= |PutString(s)|
    ensures |s| <= MAX_SID ==> |PutString(s)| <= MAX_SID
    ensures |s| <= MAX_BLOCK ==> |PutString(s)| <= MAX_BLOCK
  {
  }

  lemma PutKmLength(k: KeyMaterial)
    requires ValidKm(k) || k == NO_KM
    ensures |PutKm(k)| % 4 == 0 && |PutKm(k)| <= 104
  {
    hide KmHead, PutWord, Fitted, KmComplaint;
    if k.error == 0 && k != NO_KM {
      KmSizes(k);
      assert |PutKm(k)| == 16 + k.sLen + |k.wrap|;
    }
  }

  lemma KmSizes(k: KeyMaterial)
    requires KmComplaint(k).None?
    ensures (k.sLen == 0 || k.sLen == 16) && (k.kLen == 16 || k.kLen == 24 || k.kLen == 32)
  {
  }

  lemma {:induction false} ReadHs(h: Handshake, rest: Data, seen: set<int>, g: Handshake)
    requires 1 !in seen && 2 !in seen
    ensures var seen' := if h.hs.Some? then seen + {if h.isRequest then 1 else 2} else seen;
            ParseBlocks(HsBlock(h) + rest, seen, g)
            == ParseBlocks(rest, seen', if h.hs.Some? then g.(isRequest := h.isRequest, hs := h.hs) else g)
  {
    hide ParseBlocks, Block, PutHs, GetHs;
    if h.hs.Some? {
      HsRoundTrip(h.hs.value);
      ParseBlock(if h.isRequest then HSREQ else HSRSP, PutHs(h.hs.value), rest, seen, g);
    } else {
      assert [] + rest == rest;
    }
  }

  lemma {:induction false} ReadSid(h: Handshake, rest: Data, seen: set<int>, g: Handshake)
    requires 5 !in seen && Sound(h)
    ensures var seen' := if h.sid.Some? then seen + {5} else seen;
            ParseBlocks(SidBlock(h) + rest, seen, g)
            == ParseBlocks(rest, seen', if h.sid.Some? then g.(sid := h.sid) else g)
  {
    hide ParseBlocks, Block, PutString, GetString;
    if h.sid.Some? {
      StringRoundTrip(h.sid.value);
      PutStringLength(h.sid.value);
      ParseBlock(SID, PutString(h.sid.value), rest, seen, g);
    } else {
      assert [] + rest == rest;
    }
  }

  lemma {:induction false} ReadCongestion(h: Handshake, rest: Data, seen: set<int>, g: Handshake)
    requires 6 !in seen && Sound(h)
    ensures var seen' := if h.congestion.Some? then seen + {6} else seen;
            ParseBlocks(CongestionBlock(h) + rest, seen, g)
            == ParseBlocks(rest, seen', if h.congestion.Some? then g.(congestion := h.congestion) else g)
  {
    hide ParseBlocks, Block, PutString, GetString;
    if h.congestion.Some? {
      StringRoundTrip(h.congestion.value);
      PutStringLength(h.congestion.value);
      ParseBlock(CONGESTION, PutString(h.congestion.value), rest, seen, g);
    } else {
      assert [] + rest == rest;
    }
  }

  /** An empty filter is not printed. */
  lemma {:induction false} ReadFilter(h: Handshake, rest: Data, seen: set<int>, g: Handshake)
    requires 7 !in seen && Sound(h)
    ensures var here := h.filter.Some? && h.filter.value != [];
            ParseBlocks(FilterBlock(h) + rest, seen, g)
            == ParseBlocks(rest, if here then seen + {7} else seen, if here then g.(filter := h.filter) else g)
  {
    hide ParseBlocks, Block, PutString, GetString;
    if h.filter.Some? && h.filter.value != [] {
      StringRoundTrip(h.filter.value);
      PutStringLength(h.filter.value);
      ParseBlock(FILTER, PutString(h.filter.value), rest, seen, g);
    } else {
      assert [] + rest == rest;
    }
  }

  /** Nor is a group without an identifier. */
  lemma {:induction false} ReadGroup(h: Handshake, rest: Data, seen: set<int>, g: Handshake)
    requires 8 !in seen
    ensures var here := h.group.Some? && h.group.value.id != 0;
            ParseBlocks(GroupBlock(h) + rest, seen, g)
            == ParseBlocks(rest, if here then seen + {8} else seen, if here then g.(group := h.group) else g)
  {
    hide ParseBlocks, Block, PutGroup, GetGroup;
    if h.group.Some? && h.group.value.id != 0 {
      GroupRoundTrip(h.group.value);
      ParseBlock(GROUP, PutGroup(h.group.value), rest, seen, g);
    } else {
      assert [] + rest == rest;
    }
  }

  /** The key material comes last; the empty one is refused. */
  lemma {:induction false} ReadKm(h: Handshake, seen: set<int>, g: Handshake)
    requires 3 !in seen && 4 !in seen && Sound(h)
    ensures var r := ParseBlocks(KmBlock(h), seen, g);
            if h.km == Some(NO_KM) then r.Err?
            else r == Ok(if h.km.Some? then g.(isRequest := h.isRequest, km := h.km) else g)
  {
    hide Block, PutKm, GetKm, ValidKm, ParseBlocks;
    NothingToParse(seen);
    if h.km.Some? {
      var kind, data := if h.isRequest then KMREQ else KMRSP, PutKm(h.km.value);
      KmRoundTrip(h.km.value);
      NoKmRefused();
      PutKmLength(h.km.value);
      ParseBlock(kind, data, [], seen, g);
      assert Block(kind, data) + [] == Block(kind, data);
      NothingToParse(seen + {kind % 32});
    }
  }

  lemma NoKmRefused()
    ensures GetKm(PutKm(NO_KM)).KmErr? && !ValidKm(NO_KM)
  {
    hide PutHalf, PutWord, GetHalf, GetWord;
  }

  // ---- the whole message ----

  /** What reading back leaves of a message. */
  function Readable(h: Handshake): Handshake {
    h.(filter := if h.filter == Some([]) then None else h.filter,
       group := if h.group.Some? && h.group.value.id == 0 then None else h.group)
  }

  function Keyed(g: Handshake, h: Handshake): Handshake {
    if h.km.Some? then g.(isRequest := h.isRequest, km := h.km) else g
  }

  lemma {:induction false} TailRead(h: Handshake, seen: set<int>, g: Handshake)
    requires Sound(h) && g.filter == None && g.group == None && forall k :: k in seen ==> k in {1, 2, 5, 6}
    ensures var r := ParseBlocks(FilterBlock(h) + (GroupBlock(h) + KmBlock(h)), seen, g);
            if h.km == Some(NO_KM) then r.Err?
            else r == Ok(Keyed(g.(filter := Readable(h).filter, group := Readable(h).group), h))
  {
    hide ParseBlocks, FilterBlock, GroupBlock, KmBlock, Sound;
    ReadFilter(h, GroupBlock(h) + KmBlock(h), seen, g);
    var s1 := if h.filter.Some? && h.filter.value != [] then seen + {7} else seen;
    var g1 := g.(filter := Readable(h).filter);
    ReadGroup(h, KmBlock(h), s1, g1);
    var s2 := if h.group.Some? && h.group.value.id != 0 then s1 + {8} else s1;
    ReadKm(h, s2, g1.(group := Readable(h).group));
  }

  /** The printed blocks of a sound message are read one after the other. */
  lemma BlocksRead(h: Handshake)
    requires Sound(h)
    ensures var r := ParseBlocks(Blocks(h), {}, Bare(h));
            if h.km == Some(NO_KM) then r.Err? else r == Ok(Readable(h))
  {
    hide ParseBlocks, HsBlock, SidBlock, CongestionBlock, FilterBlock, GroupBlock, KmBlock, ValidKm, NoTrailingNul;
    var d4 := FilterBlock(h) + (GroupBlock(h) + KmBlock(h));
    var d3 := CongestionBlock(h) + d4;
    var d2 := SidBlock(h) + d3;
    var s1 := if h.hs.Some? then {} + {if h.isRequest then 1 else 2} else {};
    var g1 := if h.hs.Some? then Bare(h).(isRequest := h.isRequest, hs := h.hs) else Bare(h);
    ReadHs(h, d2, {}, Bare(h));
    var s2 := if h.sid.Some? then s1 + {5} else s1;
    ReadSid(h, d3, s1, g1);
    var g2 := g1.(sid := h.sid);
    var s3 := if h.congestion.Some? then s2 + {6} else s2;
    ReadCongestion(h, d4, s2, g2);
    TailRead(h, s3, g2.(congestion := h.congestion));
  }

  lemma NoBlocks(h: Handshake)
    ensures Blocks(h) == [] <==> !Extended(Readable(h))
  {
    hide PutHs, PutString, PutGroup, PutKm, PutHalf;
  }

  // ---- what a parser can return ----

  lemma StringIsSound(d: Data)
    ensures NoTrailingNul(GetString(d)) && |GetString(d)| <= |d|
  {
    hide NoTrailingNul;
    TrimShape(Reversed(d));
  }

  lemma KmIsSound(d: Data)
    requires GetKm(d).KmOk?
    ensures ValidKm(GetKm(d).km) || GetKm(d).km == NO_KM
  {
    if |d| != 4 {
      AcceptedIsValid(d);
    }
  }

  lemma ApplyKeeps(h: Handshake, kind: Half, data: Data)
    requires Sound(h) && |data| <= MAX_BLOCK && Apply(h, kind, data).Ok?
    ensures Sound(Apply(h, kind, data).hs) && Bare(Apply(h, kind, data).hs) == Bare(h)
  {
    hide GetKm, GetString, GetHs, GetGroup, ValidKm, NoTrailingNul;
    StringIsSound(data);
    if GetKm(data).KmOk? {
      KmIsSound(data);
    }
  }

  /** Whatever the bytes, what comes out is sound, and the fixed part is not touched. */
  lemma {:induction false} ParsedIsSound(d: Data, seen: set<int>, h: Handshake)
    requires Sound(h) && ParseBlocks(d, seen, h).Ok?
    ensures Sound(ParseBlocks(d, seen, h).hs) && Bare(ParseBlocks(d, seen, h).hs) == Bare(h)
    decreases |d|
  {
    hide Sound, Apply, Bare, GetHalf;
    if |d| >= 4 {
      var kind, n := GetHalf(d), GetHalf(d[2..]) as int * 4;
      var rest := d[4..];
      ApplyKeeps(h, kind, rest[..n]);
      ParsedIsSound(rest[n..], seen + {kind % 32}, Apply(h, kind, rest[..n]).hs);
    }
  }

  /**
   * Parsing a printed handshake returns it, normalized as printing normalizes it, for every combination
   * of extensions and every version, if and only if the normalized message is well formed.
   */
  lemma RoundTrip(h: Handshake)
    ensures Parse(Print(h)) == Ok(Normalized(h)) <==> WellFormed(Normalized(h))
  {
    hide ParseBase, Base, ParseBlocks, Blocks, WellFormed, Normalized, Bare, GetIP, PutIP;
    var n := Normalized(h);
    var d := Base(n) + Blocks(n);
    assert Print(h) == d && d[48..] == Blocks(n);
    BaseRead(n, Blocks(n));
    BaseRoundTrip(n, Blocks(n));
    NoBlocks(n);
    var b := ParseBase(d);
    assert b.kind == n.kind && b.extension == n.extension && b.encryption == n.encryption by {
      BareKeeps(n);
    }
    if n.kind != CONCLUSION || n.extension == 0 || Blocks(n) == [] {
      assert Parse(d) == Ok(b);
      ClosedRoundTrip(n, b);
    } else if !KnownEncryption(n.encryption) {
      UnknownRefused(n);
    } else {
      assert Parse(d) == ParseBlocks(Blocks(n), {}, b);
      OpenRoundTrip(n, b);
    }
  }

  lemma BareKeeps(n: Handshake)
    ensures Bare(n).kind == n.kind && Bare(n).extension == n.extension && Bare(n).encryption == n.encryption
  {
  }

  /** Without blocks to read, the message must have no extensions. */
  lemma ClosedRoundTrip(n: Handshake, b: Handshake)
    requires b == Bare(n).(isn := b.isn, peerIP := b.peerIP)
    requires b == Bare(n) <==> n.isn < 0x8000_0000 && PlainIP(n.peerIP)
    requires n.kind != CONCLUSION || n.extension == 0 || !Extended(Readable(n))
    ensures b == n <==> WellFormed(n)
  {
    hide PlainIP, ValidKm, NoTrailingNul;
  }

  lemma UnknownRefused(n: Handshake)
    requires !KnownEncryption(n.encryption) && Extended(Readable(n))
    ensures !WellFormed(n)
  {
    hide PlainIP, ValidKm, NoTrailingNul;
  }

  lemma {:induction false} OpenRoundTrip(n: Handshake, b: Handshake)
    requires b == Bare(n).(isn := b.isn, peerIP := b.peerIP)
    requires b == Bare(n) <==> n.isn < 0x8000_0000 && PlainIP(n.peerIP)
    requires n.kind == CONCLUSION && n.extension != 0 && KnownEncryption(n.encryption)
    ensures ParseBlocks(Blocks(n), {}, b) == Ok(n) <==> WellFormed(n)
  {
    hide ParseBlocks, Blocks, PlainIP, ValidKm, NoTrailingNul, KnownEncryption;
    NoKmRefused();
    if ParseBlocks(Blocks(n), {}, b) == Ok(n) {
      ParsedIsSound(Blocks(n), {}, b);
      assert Bare(n) == Bare(b) == b;
    }
    if Sound(n) && b == Bare(n) {
      BlocksRead(n);
    }
  }
}

module HandshakeCodec {
  import opened Wire
  import opened Packets
  import opened HandshakeParts
  import opened HandshakeSpec

  function Swapped(d: Data): Data
    requires |d| >= 4
  {
    [d[3], d[2], d[1], d[0]]
  }

  method SwapWord(data: array<Octet>, i: nat)
    requires i + 4 <= data.Length
    modifies data
    ensures data[..] == old(data[..i]) + Swapped(old(data[i..])) + old(data[i..])[4..]
  {
    data[i], data[i + 3] := data[i + 3], data[i];
    data[i + 1], data[i + 2] := data[i + 2], data[i + 1];
  }

  /** Swaps the bytes of every word in place. */
  method ReverseWords(data: array<Octet>)
    requires data.Length % 4 == 0
    modifies data
    ensures data[..] == Reversed(old(data[..]))
  {
    hide Reversed, Swapped;
    var i := 0;
    ghost var rest := data[..];
    assert [] + Reversed(rest) == Reversed(rest);
    while i < data.Length
      invariant 0 <= i <= data.Length && i % 4 == 0 && rest == data[i..]
      invariant data[..i] + Reversed(rest) == Reversed(old(data[..]))
    {
      ghost var done := data[..i];
      SwapWord(data, i);
      ReverseStep(done, rest);
      SplitAt(data[..], done, Swapped(rest), rest[4..]);
      rest := rest[4..];
      i := i + 4;
    }
    assert data[..i] + [] == data[..];
  }

  lemma SplitAt(d: Data, a: Data, b: Data, c: Data)
    requires d == a + b + c
    ensures d[..|a| + |b|] == a + b && d[|a| + |b|..] == c
  {
  }

  lemma {:induction false} ReverseStep(done: Data, rest: Data)
    requires |rest| >= 4
    ensures done + Swapped(rest) + Reversed(rest[4..]) == done + Reversed(rest)
    ensures |Swapped(rest)| == 4
  {
  }

  method MarshalStreamID(sid: Data) returns (res: Data)
    ensures res == PutString(sid)
  {
    var size := |sid|;
    var rem := size % 4;
    if rem != 0 {
      size := size + 4 - rem;
    }
    var data := new Octet[size](_ => 0);
    for i := 0 to |sid|
      invariant data[..] == sid[..i] + Zeros(size - i)
    {
      data[i] := sid[i];
    }
    assert data[..] == Padded(sid);
    ReverseWords(data);
    return data[..];
  }

  method UnmarshalStreamID(data: Data) returns (s: Data)
    ensures s == GetString(data)
  {
    var b: Data := [];
    var i := 0;
    while i + 3 < |data|
      invariant 0 <= i <= |data|
      invariant b + Reversed(data[i..]) == Reversed(data)
    {
      ReverseStep(b, data[i..]);
      b := b + [data[i + 3], data[i + 2], data[i + 1], data[i]];
      assert data[i..][4..] == data[i + 4..];
      i := i + 4;
    }
    assert b + [] == b;
    s := b;
    while s != [] && s[|s| - 1] == 0
      invariant Trimmed(s) == Trimmed(b)
    {
      s := s[..|s| - 1];
    }
  }

  /**
   * From offset n on, a reader finds the kind, and a length field that covers the data exactly when the
   * data is whole words, at most 65535 of them.
   */
  ghost predicate ReadsAs(r: Data, n: nat, kind: Half, data: Data) {
    && |r| == n + 4 + |data| && r[n + 4..] == data
    && GetHalf(r[n..]) == kind
    && (GetHalf(r[n + 2..]) as int * 4 == |data| <==> |data| % 4 == 0 && |data| <= MAX_BLOCK)
  }

  method AppendExtension(buf: Data, kind: Half, data: Data) returns (r: Data)
    ensures r == buf + Block(kind, data)
    ensures r[..|buf|] == buf && ReadsAs(r, |buf|, kind, data)
  {
    hide PutHalf, ReadsAs;
    var hdr := PutHalf(kind) + PutHalf(|data| / 4 % 0x1_0000);
    r := buf + hdr + data;
    Join(buf, hdr, data);
    BlockReads(buf, kind, data);
  }

  lemma BlockReads(buf: Data, kind: Half, data: Data)
    ensures ReadsAs(buf + Block(kind, data), |buf|, kind, data)
  {
    hide PutHalf, GetHalf;
    var size: Half := |data| / 4 % 0x1_0000;
    var r := buf + Block(kind, data);
    assert r[|buf|..] == PutHalf(kind) + (PutHalf(size) + data);
    assert r[|buf| + 2..] == PutHalf(size) + data;
    HalfRoundTrip(kind, PutHalf(size) + data);
    HalfRoundTrip(size, data);
  }

  method AppendString(buf: Data, kind: Half, s: Option<Data>) returns (r: Data)
    ensures r == if s.Some? then buf + Block(kind, PutString(s.value)) else buf + []
  {
    hide Block, PutString, ReadsAs;
    r := buf + [];
    if s.Some? {
      var data := MarshalStreamID(s.value);
      r := AppendExtension(buf, kind, data);
    }
  }

  /** The 48 fixed bytes, field by field. */
  method MarshalBase(c: Handshake) returns (buf: Data)
    ensures buf == Base(c)
  {
    hide PutWord, PutHalf, PutIP, Unwords;
    ghost var ws := BaseWords(c);
    WordOfHalves(c.encryption, c.extension);
    UnwordsTo(ws, 0);
    buf := PutWord(c.version);
    UnwordsTo(ws, 1);
    buf := buf + (PutHalf(c.encryption) + PutHalf(c.extension));
    UnwordsTo(ws, 2);
    buf := buf + PutWord(c.isn % 0x8000_0000);
    UnwordsTo(ws, 3);
    buf := buf + PutWord(c.mtu);
    UnwordsTo(ws, 4);
    buf := buf + PutWord(c.flowWindow);
    UnwordsTo(ws, 5);
    buf := buf + PutWord(c.kind);
    UnwordsTo(ws, 6);
    buf := buf + PutWord(c.socketId);
    UnwordsTo(ws, 7);
    buf := buf + PutWord(c.cookie);
    assert ws[..8] == ws;
    buf := buf + PutIP(c.peerIP);
  }

  lemma UnwordsTo(ws: seq<Word>, k: nat)
    requires k < |ws|
    ensures Unwords(ws[..k + 1]) == Unwords(ws[..k]) + PutWord(ws[k])
    ensures k == 0 ==> Unwords(ws[..1]) == PutWord(ws[0])
  {
    hide PutWord;
    assert ws[..k + 1] == ws[..k] + [ws[k]];
    UnwordsAppend(ws[..k], [ws[k]]);
    assert PutWord(ws[k]) + [] == PutWord(ws[k]);
  }

  /** Clears an empty stream ID and computes the extension field, one bit per kind of block announced. */
  method Normalize(h: Handshake) returns (c: Handshake)
    ensures c == Normalized(h) && c.sid != Some([]) && (c.version == 4 ==> c.encryption == 0 && c.extension == 2)
    ensures c.version == 5 && c.kind == CONCLUSION ==>
              && c.extension < 8
              && (c.extension % 2 == 1 <==> c.hs.Some?) && (c.extension / 2 % 2 == 1 <==> c.km.Some?)
              && (c.extension / 4 == 1 <==> c.sid.Some? || c.congestion.Some? || c.filter.Some? || c.group.Some?)
  {
    c := h;
    if c.sid == Some([]) {
      c := c.(sid := None);
    }
    if c.version == 5 && c.kind == CONCLUSION {
      var bits: Half := 0;
      if c.hs.Some? {
        bits := bits + 1;
      }
      if c.km.Some? {
        bits := bits + 2;
      }
      if c.sid.Some? || c.congestion.Some? || c.filter.Some? || c.group.Some? {
        bits := bits + 4;
      }
      c := c.(extension := bits);
    } else if c.version == 4 {
      c := c.(encryption := 0, extension := 2);
    }
  }

  /** Prints h; what the caller keeps is the normalized message. */
  method MarshalCIF(h: Handshake) returns (buf: Data, c: Handshake)
    ensures buf == Print(h) && c == Normalized(h)
  {
    hide Base, Block, PutHs, PutKm, PutString, PutGroup, ReadsAs, Normalized;
    c := Normalize(h);
    var base := MarshalBase(c);
    var b1 := base + [];
    if c.hs.Some? {
      b1 := AppendExtension(base, if c.isRequest then HSREQ else HSRSP, PutHs(c.hs.value));
    }
    var b2 := AppendString(b1, SID, c.sid);
    var b3 := AppendString(b2, CONGESTION, c.congestion);
    var b4 := AppendString(b3, FILTER, if c.filter == Some([]) then None else c.filter);
    var b5 := b4 + [];
    if c.group.Some? && c.group.value.id != 0 {
      b5 := AppendExtension(b4, GROUP, PutGroup(c.group.value));
    }
    buf := b5 + [];
    if c.km.Some? {
      buf := AppendExtension(b5, if c.isRequest then KMREQ else KMRSP, PutKm(c.km.value));
    }
    Nested(base, HsBlock(c), SidBlock(c), CongestionBlock(c), FilterBlock(c), GroupBlock(c), KmBlock(c));
  }

  lemma Nested(a: Data, b: Data, c: Data, d: Data, e: Data, f: Data, g: Data)
    ensures a + b + c + d + e + f + g == a + (b + (c + (d + (e + (f + g)))))
  {
    Join(e, f, g);
    Join(d, e + f, g);
    Join(c, d + (e + f), g);
    Join(d, e, f);
    Join(c, d + e, f);
    Join(c, d, e);
    Join(b, c + d + e + f, g);
    Join(b, c + d + e, f);
    Join(b, c + d, e);
    Join(b, c, d);
    Join(a, b + c + d + e + f, g);
    Join(a, b + c + d + e, f);
    Join(a, b + c + d, e);
    Join(a, b + c, d);
    Join(a, b, c);
  }

  method UnmarshalCIF(data: Data) returns (r: Result)
    ensures r == Parse(data)
  {
    hide Apply, GetHalf, GetWord, ParseBase;
    if |data| < 48 {
      return Err(Error.TooShort);
    }
    var c := ParseBase(data);
    if c.kind != CONCLUSION {
      return Ok(c);
    }
    if c.extension == 0 || |data| <= 48 {
      return Ok(c);
    }
    if !KnownEncryption(c.encryption) {
      return Err(BadEncryption);
    }
    var pivot, seenExt: set<int> := data[48..], {};
    while |pivot| >= 4
      invariant ParseBlocks(pivot, seenExt, c) == Parse(data)
      decreases |pivot|
    {
      var extType, extLen := GetHalf(pivot), GetHalf(pivot[2..]) as int * 4;
      pivot := pivot[4..];
      if |pivot| < extLen {
        return Err(Truncated);
      }
      var extBit := extType % 32;
      if extBit in seenExt {
        return Err(Duplicate);
      }
      var res := Apply(c, extType, pivot[..extLen]);
      if res.Err? {
        return res;
      }
      seenExt := seenExt + {extBit};
      c := res.hs;
      if |pivot| > extLen {
        pivot := pivot[extLen..];
      } else {
        return Ok(c);
      }
    }
    return Ok(c);
  }
}
