/**
 * The parts of a handshake on the wire (internal/packet/cif.go): word-reversed strings, peer
 * addresses, the handshake, group and key-material extensions.
 */
module HandshakeParts {
  import opened Wire
  import opened Packets

  function Zeros(n: nat): (d: Data)
    ensures |d| == n && forall i :: 0 <= i < n ==> d[i] == 0
  {
    seq(n, _ => 0)
  }

  // ---- strings ----

  /** Zero bytes that complete n bytes to whole words. */
  function PadLength(n: nat): (p: nat)
    ensures p < 4 && (n + p) % 4 == 0
  {
    if n % 4 != 0 then 4 - n % 4 else 0
  }

  function Padded(s: Data): (d: Data)
    ensures |d| % 4 == 0
  {
    s + Zeros(PadLength(|s|))
  }

  /** Reverses the bytes of every word. */
  function Reversed(d: Data): (r: Data)
    ensures |r| == |d| - |d| % 4
  {
    if |d| < 4 then [] else [d[3], d[2], d[1], d[0]] + Reversed(d[4..])
  }

  function Trimmed(d: Data): Data {
    if d != [] && d[|d| - 1] == 0 then Trimmed(d[..|d| - 1]) else d
  }

  function PutString(s: Data): Data {
    Reversed(Padded(s))
  }

  function GetString(d: Data): Data {
    Trimmed(Reversed(d))
  }

  predicate NoTrailingNul(s: Data) {
    s != [] ==> s[|s| - 1] != 0
  }

  lemma {:induction false} ReversedTwice(d: Data)
    requires |d| % 4 == 0
    ensures Reversed(Reversed(d)) == d
  {
    if d != [] {
      var r := Reversed(d);
      assert r[4..] == Reversed(d[4..]);
      ReversedTwice(d[4..]);
      assert Reversed(r) == [r[3], r[2], r[1], r[0]] + Reversed(r[4..]);
      assert d == [d[0], d[1], d[2], d[3]] + d[4..];
    }
  }

  /** Within each word the bytes are in reverse order. */
  lemma {:induction false} ReversedAt(d: Data, k: nat, j: nat)
    requires 4 * k + 3 < |d| && j < 4
    ensures 4 * k + j < |Reversed(d)| && Reversed(d)[4 * k + j] == d[4 * k + 3 - j]
  {
    var word, rest := [d[3], d[2], d[1], d[0]], Reversed(d[4..]);
    assert Reversed(d) == word + rest;
    if k == 0 {
      assert (word + rest)[j] == word[j];
    } else {
      hide Reversed;
      ReversedAt(d[4..], k - 1, j);
      assert (word + rest)[4 * k + j] == rest[4 * (k - 1) + j];
    }
  }

  lemma {:induction false} TrimPadding(s: Data, n: nat)
    ensures Trimmed(s + Zeros(n)) == Trimmed(s)
  {
    if n == 0 {
      assert s + Zeros(0) == s;
    } else {
      assert (s + Zeros(n))[..|s| + n - 1] == s + Zeros(n - 1);
      TrimPadding(s, n - 1);
    }
  }

  lemma {:induction false} TrimShape(d: Data)
    ensures NoTrailingNul(Trimmed(d))
    ensures Trimmed(d) == d <==> NoTrailingNul(d)
    ensures |Trimmed(d)| <= |d|
  {
    if d != [] && d[|d| - 1] == 0 {
      TrimShape(d[..|d| - 1]);
    }
  }

  /** A string survives the word reversal and the padding exactly when it has no trailing NUL. */
  lemma {:induction false} StringRoundTrip(s: Data)
    ensures GetString(PutString(s)) == Trimmed(s)
    ensures GetString(PutString(s)) == s <==> NoTrailingNul(s)
  {
    ReversedTwice(Padded(s));
    TrimPadding(s, PadLength(|s|));
    TrimShape(s);
  }

  // ---- peer addresses ----

  /** The IPv4 form of an address, if it has one. */
  function To4(ip: Data): Option<Data> {
    if |ip| == 4 then Some(ip)
    else if |ip| == 16 && ip[..10] == Zeros(10) && ip[10] == 255 && ip[11] == 255 then Some(ip[12..])
    else None
  }

  function PutIP(ip: Data): (d: Data)
    ensures |d| == 16
  {
    match To4(ip)
    case Some(v4) => v4 + Zeros(12)
    case None => if |ip| == 16 then ip else Zeros(16)
  }

  /** An IPv4 address, mapped or not, is its four bytes and zeros; an IPv6 address its sixteen bytes. */
  lemma IPLayout(ip: Data)
    ensures |ip| == 4 ==> PutIP(ip) == ip + Zeros(12)
    ensures |ip| == 16 && ip[..12] == Zeros(10) + [255, 255] ==> PutIP(ip) == ip[12..] + Zeros(12)
    ensures |ip| == 16 && ip[..12] != Zeros(10) + [255, 255] ==> PutIP(ip) == ip
    ensures |ip| != 4 && |ip| != 16 ==> PutIP(ip) == Zeros(16)
  {
    if |ip| == 16 {
      assert ip[..12] == ip[..10] + [ip[10], ip[11]];
      assert ip[..12][..10] == ip[..10] && ip[..12][10] == ip[10] && ip[..12][11] == ip[11];
    }
  }

  function GetIP(d: Data): Data
    requires |d| == 16
  {
    if d[4..] == Zeros(12) then d[..4] else d
  }

  /** IPv4 addresses, and IPv6 addresses that are neither mapped IPv4 nor zero beyond their first word. */
  predicate PlainIP(ip: Data) {
    |ip| == 4 || (|ip| == 16 && To4(ip).None? && ip[4..] != Zeros(12))
  }

  /** An address survives exactly when it is plain. */
  lemma IPRoundTrip(ip: Data)
    ensures GetIP(PutIP(ip)) == ip <==> PlainIP(ip)
  {
    if |ip| == 4 {
      assert PutIP(ip)[4..] == Zeros(12) && PutIP(ip)[..4] == ip;
    } else if To4(ip).Some? {
      assert PutIP(ip)[4..] == Zeros(12);
    }
  }

  // ---- HSREQ and HSRSP ----

  datatype HsExt = HsExt(srtVersion: Word, flags: Word, recvDelay: Half, sendDelay: Half)

  function PutHs(h: HsExt): (d: Data)
    ensures |d| == 12
  {
    PutWord(h.srtVersion) + PutWord(h.flags) + PutHalf(h.recvDelay) + PutHalf(h.sendDelay)
  }

  function GetHs(d: Data): HsExt
    requires |d| >= 12
  {
    HsExt(GetWord(d), GetWord(d[4..]), GetHalf(d[8..]), GetHalf(d[10..]))
  }

  /** Version, flags, receive and send delay, in this order. */
  lemma HsLayout(h: HsExt)
    ensures var d := PutHs(h);
            && d[0..4] == PutWord(h.srtVersion) && d[4..8] == PutWord(h.flags)
            && d[8..10] == PutHalf(h.recvDelay) && d[10..12] == PutHalf(h.sendDelay)
  {
    hide PutWord, PutHalf;
  }

  lemma HsRoundTrip(h: HsExt)
    ensures GetHs(PutHs(h)) == h
  {
    hide PutWord, PutHalf, GetWord, GetHalf;
    var d := PutHs(h);
    var d3 := PutHalf(h.sendDelay) + [];
    var d2 := PutHalf(h.recvDelay) + d3;
    var d1 := PutWord(h.flags) + d2;
    assert d == PutWord(h.srtVersion) + d1;
    WordRoundTrip(h.srtVersion, d1);
    WordRoundTrip(h.flags, d2);
    HalfRoundTrip(h.recvDelay, d3);
    HalfRoundTrip(h.sendDelay, []);
    assert d[4..] == d1 && d[8..] == d2 && d[10..] == d3;
  }

  // ---- group membership ----

  datatype Group = Group(id: Word, kind: Octet, flags: Octet, weight: Half)

  function PutGroup(g: Group): (d: Data)
    ensures |d| == 8
  {
    PutWord(g.id) + PutWord(GroupWord(g))
  }

  function GetGroup(d: Data): Group
    requires |d| >= 8
  {
    var w := GetWord(d[4..]);
    Group(GetWord(d), w / 0x100_0000, w / 0x1_0000 % 0x100, w % 0x1_0000)
  }

  function GroupWord(g: Group): Word {
    g.kind as int * 0x100_0000 + g.flags as int * 0x1_0000 + g.weight as int
  }

  lemma GroupWordFields(g: Group)
    ensures GroupWord(g) / 0x100_0000 == g.kind
    ensures GroupWord(g) / 0x1_0000 % 0x100 == g.flags
    ensures GroupWord(g) % 0x1_0000 == g.weight
  {
    assert GroupWord(g) / 0x1_0000 == g.kind as int * 0x100 + g.flags as int;
  }

  /** Identifier, kind, flags and weight, in this order. */
  lemma GroupLayout(g: Group)
    ensures PutGroup(g) == PutWord(g.id) + [g.kind, g.flags] + PutHalf(g.weight)
  {
    hide PutWord;
    WordBytes(g.kind, g.flags, g.weight / 0x100, g.weight % 0x100);
    assert GroupWord(g) == g.kind as int * 0x100_0000 + g.flags as int * 0x1_0000
                           + (g.weight / 0x100) as int * 0x100 + (g.weight % 0x100) as int;
  }

  lemma GroupRoundTrip(g: Group)
    ensures GetGroup(PutGroup(g)) == g
  {
    hide PutWord, GetWord, GroupWord;
    var w := GroupWord(g);
    GroupWordFields(g);
    var d1 := PutWord(w) + [];
    assert PutGroup(g) == PutWord(g.id) + d1;
    WordRoundTrip(g.id, d1);
    WordRoundTrip(w, []);
    assert PutGroup(g)[4..] == d1;
  }

  // ---- KMREQ and KMRSP ----

  datatype KeyMaterial = KeyMaterial(
    error: Word,
    s: Octet,
    version: Octet,
    packetType: Octet,
    sign: Half,
    keys: Octet,
    kekIndex: Word,
    cipher: Octet,
    auth: Octet,
    encapsulation: Octet,
    sLen: Half,
    kLen: Half,
    salt: Data,
    wrap: Data)

  const NO_KM := KeyMaterial(0, 0, 0, 0, 0, 0, 0, 0, 0, 0, 0, 0, [], [])

  datatype KmError =
    | TooShort | BadVersion | BadPacketType | BadSignature | NoKey | BadCipher | BadAuth
    | BadEncapsulation | BadKeyLength | BadSaltLength | SaltTruncated | WrapTruncated | BadLength

  datatype KmResult = KmOk(km: KeyMaterial) | KmErr(error: KmError)

  /** d cut or completed with zeros to n bytes, as copying into a fresh field leaves it. */
  function Fitted(d: Data, n: nat): (r: Data)
    ensures |r| == n
  {
    if |d| >= n then d[..n] else d + Zeros(n - |d|)
  }

  /** The S bit, the version and the packet type share the first byte. */
  function KmOctet(k: KeyMaterial): Octet {
    (k.s % 2) as int * 128 + (k.version % 8) as int * 16 + (k.packetType % 16) as int
  }

  lemma KmOctetFields(k: KeyMaterial)
    requires k.s < 2 && k.version < 8 && k.packetType < 16
    ensures KmOctet(k) / 128 == k.s && KmOctet(k) / 16 % 8 == k.version && KmOctet(k) % 16 == k.packetType
  {
    assert KmOctet(k) / 16 == k.s as int * 8 + k.version as int;
  }

  function KmHead(k: KeyMaterial): (d: Data)
    ensures |d| == 16
  {
    [KmOctet(k)]
    + PutHalf(k.sign)
    + [k.keys % 4]
    + PutWord(k.kekIndex)
    + [k.cipher, k.auth, k.encapsulation, 0]
    + PutHalf(0)
    + [k.sLen / 4 % 256, k.kLen / 4 % 256]
  }

  function PutKm(k: KeyMaterial): Data {
    if k.error != 0 then PutWord(k.error) else KmHead(k) + Fitted(k.salt, k.sLen) + k.wrap
  }

  /** Fields of the fixed part, salt and wrapped keys aside. */
  function KmFields(d: Data): KeyMaterial
    requires |d| >= 16
  {
    NO_KM.(s := d[0] / 128, version := d[0] / 16 % 8, packetType := d[0] % 16,
           sign := GetHalf(d[1..]), keys := d[3] % 4, kekIndex := GetWord(d[4..]),
           cipher := d[8], auth := d[9], encapsulation := d[10],
           sLen := d[14] as int * 4, kLen := d[15] as int * 4)
  }

  function WrapLength(k: KeyMaterial): nat {
    (if k.keys == 3 then 2 else 1) * k.kLen + 8
  }

  /** The first complaint about the fixed part. */
  function KmComplaint(k: KeyMaterial): Option<KmError> {
    if k.version != 1 then Some(BadVersion)
    else if k.packetType != 2 then Some(BadPacketType)
    else if k.sign != 0x2029 then Some(BadSignature)
    else if k.keys == 0 then Some(NoKey)
    else if k.cipher != 2 && k.cipher != 4 then Some(BadCipher)
    else if k.cipher == 4 && k.auth != 1 then Some(BadAuth)
    else if k.cipher == 2 && k.auth != 0 then Some(BadAuth)
    else if k.encapsulation != 2 then Some(BadEncapsulation)
    else if k.kLen != 16 && k.kLen != 24 && k.kLen != 32 then Some(BadKeyLength)
    else if k.sLen > 0 && k.sLen != 16 then Some(BadSaltLength)
    else None
  }

  /** What key material must be for nothing to be wrong with its fixed part. */
  lemma KmComplaintExact(k: KeyMaterial)
    ensures KmComplaint(k).None? <==>
              && k.version == 1 && k.packetType == 2 && k.sign == 0x2029 && k.keys != 0
              && ((k.cipher == 2 && k.auth == 0) || (k.cipher == 4 && k.auth == 1)) && k.encapsulation == 2
              && k.kLen in {16, 24, 32} && k.sLen in {0, 16}
  {
  }

  function GetKm(d: Data): KmResult {
    if |d| == 4 then KmOk(NO_KM.(error := GetWord(d)))
    else if |d| < 16 then KmErr(TooShort)
    else
      var k := KmFields(d);
      match KmComplaint(k)
      case Some(e) => KmErr(e)
      case None =>
        var offset := 16 + k.sLen;
        if |d| < offset then KmErr(SaltTruncated)
        else if |d| - offset < WrapLength(k) then KmErr(WrapTruncated)
        else if |d| != offset + WrapLength(k) then KmErr(BadLength)
        else KmOk(k.(salt := d[16..offset], wrap := d[offset..]))
  }

  /** Key material is taken exactly if it is an error response, or if its fields and its length are right. */
  lemma KmAccepted(d: Data)
    ensures GetKm(d).KmOk? <==>
              || |d| == 4
              || (|d| >= 16 && KmComplaint(KmFields(d)).None? && |d| == 16 + KmFields(d).sLen + WrapLength(KmFields(d)))
  {
    hide KmFields, KmComplaint, WrapLength;
  }

  /** Key material a peer accepts: an error response, or keys whose fields and lengths are consistent. */
  predicate ValidKm(k: KeyMaterial) {
    if k.error != 0 then k == NO_KM.(error := k.error)
    else
      && k.s < 2 && k.keys < 4
      && KmComplaint(k).None?
      && |k.salt| == k.sLen
      && |k.wrap| == WrapLength(k)
  }

  /**
   * The bytes of a valid key message: 0x12 (with the S bit), the signature, key flags, the KEK index,
   * cipher, authentication, encapsulation, reserved zeros, the two lengths in words, salt, keys.
   */
  lemma KmLayout(k: KeyMaterial)
    requires ValidKm(k) && k.error == 0
    ensures PutKm(k) == [if k.s == 0 then 0x12 else 0x92, 0x20, 0x29, k.keys] + PutWord(k.kekIndex)
                        + [k.cipher, k.auth, k.encapsulation, 0, 0, 0, k.sLen / 4, k.kLen / 4] + k.salt + k.wrap
    ensures |k.salt| == k.sLen && |k.wrap| == WrapLength(k)
  {
    hide PutWord, WrapLength;
    assert PutHalf(k.sign) == [0x20, 0x29] && PutHalf(0) == [0, 0];
    assert PutKm(k) == KmHead(k) + (k.salt + k.wrap);
  }

  lemma HeadFields(k: KeyMaterial, rest: Data)
    requires k.s < 2 && k.version < 8 && k.packetType < 16 && k.keys < 4
    requires k.sLen % 4 == 0 && k.kLen % 4 == 0 && k.sLen < 1024 && k.kLen < 1024
    ensures KmFields(KmHead(k) + rest) == k.(error := 0, salt := [], wrap := [])
  {
    hide PutHalf, GetHalf, PutWord, GetWord, KmOctet;
    KmOctetFields(k);
    var d := KmHead(k) + rest;
    var after := [k.cipher, k.auth, k.encapsulation, 0] + PutHalf(0) + [k.sLen / 4 % 256, k.kLen / 4 % 256] + rest;
    var word := PutWord(k.kekIndex) + after;
    assert d[4..] == word;
    WordRoundTrip(k.kekIndex, after);
    var half := PutHalf(k.sign) + ([k.keys % 4] + word);
    assert d[1..] == half;
    HalfRoundTrip(k.sign, [k.keys % 4] + word);
    assert d[8] == k.cipher && d[9] == k.auth && d[10] == k.encapsulation;
    assert d[14] == k.sLen / 4 && d[15] == k.kLen / 4 && d[3] == k.keys;
  }

  /** Key material survives exactly when it is valid. */
  lemma KmRoundTrip(k: KeyMaterial)
    ensures GetKm(PutKm(k)) == KmOk(k) <==> ValidKm(k)
  {
    hide PutWord, GetWord, KmFields, KmHead;
    if k.error != 0 {
      WordRoundTrip(k.error, []);
      assert PutWord(k.error) + [] == PutWord(k.error);
    } else if ValidKm(k) {
      var d := PutKm(k);
      HeadFields(k, Fitted(k.salt, k.sLen) + k.wrap);
      assert d == KmHead(k) + (Fitted(k.salt, k.sLen) + k.wrap);
      var offset := 16 + k.sLen;
      assert d[16..offset] == k.salt && d[offset..] == k.wrap;
    } else if GetKm(PutKm(k)) == KmOk(k) {
      AcceptedIsValid(PutKm(k));
    }
  }

  lemma AcceptedIsValid(d: Data)
    requires GetKm(d).KmOk? && |d| != 4
    ensures ValidKm(GetKm(d).km)
  {
  }
}
