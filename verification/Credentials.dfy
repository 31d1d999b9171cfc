/** The shared credential of the gateway console: Base64 (section 4 of RFC 4648),
    constant-time comparison, and the Basic header (section 2 of RFC 7617).
    Headers and credentials are the bytes of the source's strings. */
module Credentials {
  import opened Wrappers

  type byte = bv8
  type Bytes = seq<byte>

  // ---- constant-time comparison --------------------------------------------

  lemma OrIsZero(d: byte, x: byte, y: byte)
    ensures d | (x ^ y) == 0 <==> d == 0 && x == y
  {}

  /** `ct_eq`: the accumulated differences are zero exactly on equal inputs. */
  method CtEq(a: Bytes, b: Bytes) returns (equal: bool)
    ensures equal <==> a == b
  {
    if |a| != |b| {
      return false;
    }
    var diff: byte := 0;
    for i := 0 to |a|
      invariant diff == 0 <==> a[..i] == b[..i]
    {
      OrIsZero(diff, a[i], b[i]);
      assert a[..i + 1] == a[..i] + [a[i]] && b[..i + 1] == b[..i] + [b[i]];
      diff := diff | (a[i] ^ b[i]);
    }
    assert a[..|a|] == a && b[..|b|] == b;
    return diff == 0;
  }

  // ---- the alphabet --------------------------------------------------------

  const AB_UPPER_1: string := "ABCDEFGHIJKLM"
  const AB_UPPER_2: string := "NOPQRSTUVWXYZ"
  const AB_LOWER_1: string := "abcdefghijklm"
  const AB_LOWER_2: string := "nopqrstuvwxyz"
  const AB_REST: string := "0123456789+/"
  const AB: string := AB_UPPER_1 + AB_UPPER_2 + AB_LOWER_1 + AB_LOWER_2 + AB_REST
  const PAD: char := '='

  function CharOf(v: bv6): char {
    AB[v as nat]
  }

  /** Where a character stands in the alphabet. */
  function PlaceOf(c: char): Option<nat> {
    if 'A' <= c <= 'Z' then Some(c as nat - 65)
    else if 'a' <= c <= 'z' then Some(c as nat - 71)
    else if '0' <= c <= '9' then Some(c as nat + 4)
    else if c == '+' then Some(62)
    else if c == '/' then Some(63)
    else None
  }

  lemma PlaceBound(c: char)
    ensures PlaceOf(c).Some? ==> PlaceOf(c).value < 64
  {}

  function ValueOf(c: char): Option<bv6> {
    PlaceBound(c);
    if PlaceOf(c).None? then None else Some(PlaceOf(c).value as bv6)
  }

  lemma UpperRow(k: nat)
    requires k < 13
    ensures AB_UPPER_1[k] as nat == 65 + k && AB_UPPER_2[k] as nat == 78 + k
  {}

  lemma LowerRow(k: nat)
    requires k < 13
    ensures AB_LOWER_1[k] as nat == 97 + k && AB_LOWER_2[k] as nat == 110 + k
  {}

  lemma RestRow(k: nat)
    requires k < 12
    ensures AB_REST[k] as nat == if k < 10 then 48 + k else if k == 10 then 43 else 47
  {}

  lemma Alphabet(k: nat)
    requires k < 64
    ensures AB[k] as nat ==
            if k < 26 then 65 + k else if k < 52 then 71 + k else if k < 62 then k - 4 else if k == 62 then 43 else 47
  {
    if k < 13 {
      UpperRow(k);
    } else if k < 26 {
      UpperRow(k - 13);
    } else if k < 39 {
      LowerRow(k - 26);
    } else if k < 52 {
      LowerRow(k - 39);
    } else {
      RestRow(k - 52);
    }
  }

  lemma PlaceOfChar(k: nat)
    requires k < 64
    ensures PlaceOf(AB[k]) == Some(k) && AB[k] != PAD && AB[k] < 128 as char
  {
    Alphabet(k);
  }

  lemma CharOfPlace(c: char)
    requires PlaceOf(c).Some?
    ensures PlaceOf(c).value < 64 && AB[PlaceOf(c).value] == c && c != PAD
  {
    Alphabet(PlaceOf(c).value);
  }

  lemma ValueOfChar(v: bv6)
    ensures ValueOf(CharOf(v)) == Some(v) && CharOf(v) != PAD && CharOf(v) < 128 as char
  {
    PlaceOfChar(v as nat);
    BackToSixBits(v);
  }

  lemma BackToSixBits(v: bv6)
    ensures (v as nat) as bv6 == v
  {}

  lemma CharOfValue(c: char)
    requires ValueOf(c).Some?
    ensures CharOf(ValueOf(c).value) == c && c != PAD
  {
    CharOfPlace(c);
    SixBits(PlaceOf(c).value);
  }

  lemma SixBits(k: nat)
    requires k < 64
    ensures (k as bv6) as nat == k
  {}

  // ---- one group of 24 bits ------------------------------------------------

  function Group(b0: byte, b1: byte, b2: byte): bv24 {
    (b0 as bv24 << 16) | (b1 as bv24 << 8) | b2 as bv24
  }

  function Digit(n: bv24, shift: nat): bv6
    requires shift <= 18
  {
    ((n >> shift) & 63) as bv6
  }

  function Join(v0: bv6, v1: bv6, v2: bv6, v3: bv6): bv24 {
    (v0 as bv24 << 18) | (v1 as bv24 << 12) | (v2 as bv24 << 6) | v3 as bv24
  }

  function Octet(n: bv24, shift: nat): byte
    requires shift <= 16
  {
    ((n >> shift) & 255) as byte
  }

  lemma DigitsOfJoin(v0: bv6, v1: bv6, v2: bv6, v3: bv6)
    ensures var n := Join(v0, v1, v2, v3);
            Digit(n, 18) == v0 && Digit(n, 12) == v1 && Digit(n, 6) == v2 && Digit(n, 0) == v3
  {}

  /** Narrowing to six bits and back keeps the six lowest. */
  lemma SixKept(x: bv24)
    ensures ((x & 63) as bv6) as bv24 == x & 63
  {}

  lemma SixPieces(n: bv24)
    ensures (((n >> 18) & 63) << 18) | (((n >> 12) & 63) << 12) | (((n >> 6) & 63) << 6) | (n & 63) == n
  {}

  lemma JoinOfDigits(n: bv24)
    ensures Join(Digit(n, 18), Digit(n, 12), Digit(n, 6), Digit(n, 0)) == n
  {
    SixKept(n >> 18);
    SixKept(n >> 12);
    SixKept(n >> 6);
    SixKept(n >> 0);
    SixPieces(n);
  }

  lemma OctetsOfGroup(b0: byte, b1: byte, b2: byte)
    ensures var n := Group(b0, b1, b2); Octet(n, 16) == b0 && Octet(n, 8) == b1 && Octet(n, 0) == b2
  {}

  lemma EightKept(x: bv24)
    ensures ((x & 255) as byte) as bv24 == x & 255
  {}

  lemma EightPieces(n: bv24)
    ensures (((n >> 16) & 255) << 16) | (((n >> 8) & 255) << 8) | (n & 255) == n
  {}

  lemma GroupOfOctets(n: bv24)
    ensures Group(Octet(n, 16), Octet(n, 8), Octet(n, 0)) == n
  {
    EightKept(n >> 16);
    EightKept(n >> 8);
    EightKept(n >> 0);
    EightPieces(n);
  }

  /** With one byte the low half of the second digit is zero and the rest too. */
  lemma OneByte(b0: byte)
    ensures var n := Group(b0, 0, 0); Digit(n, 12) & 15 == 0 && Digit(n, 6) == 0 && Digit(n, 0) == 0
  {}

  lemma OneByteBack(v0: bv6, v1: bv6)
    ensures var n := Join(v0, v1, 0, 0); v1 & 15 == 0 ==> Octet(n, 8) == 0 && Octet(n, 0) == 0
  {}

  lemma TwoBytes(b0: byte, b1: byte)
    ensures var n := Group(b0, b1, 0); Digit(n, 6) & 3 == 0 && Digit(n, 0) == 0
  {}

  lemma TwoBytesBack(v0: bv6, v1: bv6, v2: bv6)
    ensures var n := Join(v0, v1, v2, 0); v2 & 3 == 0 ==> Octet(n, 0) == 0
  {}

  // ---- encoding ------------------------------------------------------------

  /** The four characters of a chunk of up to three bytes; missing bytes are zero. */
  function EncodeGroup(chunk: Bytes): string
    requires 1 <= |chunk| <= 3
  {
    var n := Group(chunk[0], if |chunk| > 1 then chunk[1] else 0, if |chunk| > 2 then chunk[2] else 0);
    [CharOf(Digit(n, 18)), CharOf(Digit(n, 12)),
     if |chunk| > 1 then CharOf(Digit(n, 6)) else PAD,
     if |chunk| > 2 then CharOf(Digit(n, 0)) else PAD]
  }

  function Encode(input: Bytes): string {
    if input == [] then ""
    else if |input| <= 3 then EncodeGroup(input)
    else EncodeGroup(input[..3]) + Encode(input[3..])
  }

  /** `b64`: one group per chunk of three bytes. */
  method B64(input: Bytes) returns (output: string)
    ensures output == Encode(input)
  {
    output := "";
    var at := 0;
    while at < |input|
      invariant 0 <= at <= |input| && output + Encode(input[at..]) == Encode(input)
    {
      var stop := if at + 3 <= |input| then at + 3 else |input|;
      NextGroup(input[at..], stop - at);
      assert input[at..][..stop - at] == input[at..stop] && input[at..][stop - at..] == input[stop..];
      output := output + EncodeGroup(input[at..stop]);
      at := stop;
    }
  }

  lemma NextGroup(input: Bytes, k: nat)
    requires input != [] && k == if |input| < 3 then |input| else 3
    ensures Encode(input) == EncodeGroup(input[..k]) + Encode(input[k..])
  {
    if |input| <= 3 {
      LastGroup(input);
      WholeInput(input, k);
    } else {
      FirstGroup(input);
    }
  }

  lemma WholeInput(input: Bytes, k: nat)
    requires k == |input|
    ensures input[..k] == input && input[k..] == []
  {}

  lemma FirstGroup(input: Bytes)
    requires |input| > 3
    ensures Encode(input) == EncodeGroup(input[..3]) + Encode(input[3..])
  {}

  lemma LastGroup(input: Bytes)
    requires 1 <= |input| <= 3
    ensures Encode(input) == EncodeGroup(input) + Encode([])
  {
    assert EncodeGroup(input) + "" == EncodeGroup(input);
  }

  /** Four characters for every three bytes, rounded up. */
  lemma {:induction false} EncodedLength(input: Bytes)
    ensures |Encode(input)| == 4 * ((|input| + 2) / 3)
  {
    if |input| > 3 {
      EncodedLength(input[3..]);
    }
  }

  // ---- decoding ------------------------------------------------------------

  /** Four characters back to one, two or three bytes. The bits that padding
      leaves over must be zero (section 3.5 of RFC 4648). */
  function DecodeGroup(s: string): Option<Bytes>
    requires |s| == 4
  {
    var v0, v1, v2, v3 := ValueOf(s[0]), ValueOf(s[1]), ValueOf(s[2]), ValueOf(s[3]);
    if v0.None? || v1.None? then None
    else if s[2] == PAD && s[3] == PAD then
      (if v1.value & 15 == 0 then Some([Octet(Join(v0.value, v1.value, 0, 0), 16)]) else None)
    else if v2.None? then None
    else if s[3] == PAD then
      (var n := Join(v0.value, v1.value, v2.value, 0);
       if v2.value & 3 == 0 then Some([Octet(n, 16), Octet(n, 8)]) else None)
    else if v3.None? then None
    else
      var n := Join(v0.value, v1.value, v2.value, v3.value);
      Some([Octet(n, 16), Octet(n, 8), Octet(n, 0)])
  }

  /** Groups of four; only the last may be padded. */
  function Decode(s: string): Option<Bytes> {
    if s == "" then Some([])
    else if |s| < 4 then None
    else if |s| == 4 then DecodeGroup(s)
    else
      match (DecodeGroup(s[..4]), Decode(s[4..]))
      case (Some(g), Some(rest)) => if |g| == 3 then Some(g + rest) else None
      case _ => None
  }

  lemma OneDecodes(chunk: Bytes)
    requires |chunk| == 1
    ensures DecodeGroup(EncodeGroup(chunk)) == Some(chunk)
  {
    var n := Group(chunk[0], 0, 0);
    ValueOfChar(Digit(n, 18));
    ValueOfChar(Digit(n, 12));
    JoinOfDigits(n);
    OctetsOfGroup(chunk[0], 0, 0);
    OneByte(chunk[0]);
    assert chunk == [chunk[0]];
  }

  lemma TwoDecode(chunk: Bytes)
    requires |chunk| == 2
    ensures DecodeGroup(EncodeGroup(chunk)) == Some(chunk)
  {
    var n := Group(chunk[0], chunk[1], 0);
    ValueOfChar(Digit(n, 18));
    ValueOfChar(Digit(n, 12));
    ValueOfChar(Digit(n, 6));
    JoinOfDigits(n);
    OctetsOfGroup(chunk[0], chunk[1], 0);
    TwoBytes(chunk[0], chunk[1]);
    assert chunk == [chunk[0], chunk[1]];
  }

  lemma ThreeDecode(chunk: Bytes)
    requires |chunk| == 3
    ensures DecodeGroup(EncodeGroup(chunk)) == Some(chunk)
  {
    var n := Group(chunk[0], chunk[1], chunk[2]);
    ValueOfChar(Digit(n, 18));
    ValueOfChar(Digit(n, 12));
    ValueOfChar(Digit(n, 6));
    ValueOfChar(Digit(n, 0));
    JoinOfDigits(n);
    OctetsOfGroup(chunk[0], chunk[1], chunk[2]);
    assert chunk == [chunk[0], chunk[1], chunk[2]];
  }

  lemma GroupDecodes(chunk: Bytes)
    requires 1 <= |chunk| <= 3
    ensures DecodeGroup(EncodeGroup(chunk)) == Some(chunk)
  {
    if |chunk| == 1 {
      OneDecodes(chunk);
    } else if |chunk| == 2 {
      TwoDecode(chunk);
    } else {
      ThreeDecode(chunk);
    }
  }

  lemma OneEncodes(s: string)
    requires |s| == 4 && DecodeGroup(s).Some? && s[2] == PAD && s[3] == PAD
    ensures |DecodeGroup(s).value| == 1 && EncodeGroup(DecodeGroup(s).value) == s
  {
    var v0, v1 := ValueOf(s[0]).value, ValueOf(s[1]).value;
    CharOfValue(s[0]);
    CharOfValue(s[1]);
    OneByteBack(v0, v1);
    GroupOfOctets(Join(v0, v1, 0, 0));
    DigitsOfJoin(v0, v1, 0, 0);
  }

  lemma TwoEncode(s: string)
    requires |s| == 4 && DecodeGroup(s).Some? && s[2] != PAD && s[3] == PAD
    ensures |DecodeGroup(s).value| == 2 && EncodeGroup(DecodeGroup(s).value) == s
  {
    var v0, v1, v2 := ValueOf(s[0]).value, ValueOf(s[1]).value, ValueOf(s[2]).value;
    CharOfValue(s[0]);
    CharOfValue(s[1]);
    CharOfValue(s[2]);
    TwoBytesBack(v0, v1, v2);
    GroupOfOctets(Join(v0, v1, v2, 0));
    DigitsOfJoin(v0, v1, v2, 0);
  }

  lemma ThreeEncode(s: string)
    requires |s| == 4 && DecodeGroup(s).Some? && s[3] != PAD
    ensures |DecodeGroup(s).value| == 3 && EncodeGroup(DecodeGroup(s).value) == s
  {
    var v0, v1, v2, v3 := ValueOf(s[0]).value, ValueOf(s[1]).value, ValueOf(s[2]).value, ValueOf(s[3]).value;
    CharOfValue(s[0]);
    CharOfValue(s[1]);
    CharOfValue(s[2]);
    CharOfValue(s[3]);
    GroupOfOctets(Join(v0, v1, v2, v3));
    DigitsOfJoin(v0, v1, v2, v3);
  }

  lemma GroupEncodes(s: string)
    requires |s| == 4 && DecodeGroup(s).Some?
    ensures 1 <= |DecodeGroup(s).value| <= 3 && EncodeGroup(DecodeGroup(s).value) == s
  {
    if s[3] != PAD {
      ThreeEncode(s);
    } else if s[2] != PAD {
      TwoEncode(s);
    } else {
      OneEncodes(s);
    }
  }

  lemma {:induction false} DecodeUndoesEncode(input: Bytes)
    ensures Decode(Encode(input)) == Some(input)
    decreases |input|
  {
    if input != [] {
      if |input| <= 3 {
        GroupDecodes(input);
      } else {
        var head, rest := input[..3], input[3..];
        GroupDecodes(head);
        DecodeUndoesEncode(rest);
        EncodedLength(rest);
        var s := Encode(input);
        assert s[..4] == EncodeGroup(head) && s[4..] == Encode(rest);
        assert head + rest == input;
      }
    }
  }

  lemma {:induction false} EncodeUndoesDecode(s: string)
    requires Decode(s).Some?
    ensures Encode(Decode(s).value) == s
    decreases |s|
  {
    if |s| == 4 {
      GroupEncodes(s);
    } else if |s| > 4 {
      GroupEncodes(s[..4]);
      EncodeUndoesDecode(s[4..]);
      var g, rest := DecodeGroup(s[..4]).value, Decode(s[4..]).value;
      assert rest != [] by { assert Encode(rest) == s[4..]; }
      assert (g + rest)[..3] == g && (g + rest)[3..] == rest;
      assert s == s[..4] + s[4..];
    }
  }

  /** A text decodes to the input exactly when it is the encoding of the input. */
  lemma DecodesExactly(s: string, input: Bytes)
    ensures Decode(s) == Some(input) <==> s == Encode(input)
  {
    DecodeUndoesEncode(input);
    if Decode(s).Some? {
      EncodeUndoesDecode(s);
    }
  }

  // ---- the credential ------------------------------------------------------

  predicate IsAscii(s: string) {
    forall i :: 0 <= i < |s| ==> s[i] < 128 as char
  }

  function AsBytes(s: string): Bytes
    requires IsAscii(s)
  {
    seq(|s|, i requires 0 <= i < |s| => s[i] as int as byte)
  }

  lemma ByteOfChar(c: char, d: char)
    requires c < 128 as char && d < 128 as char && c as int as byte == d as int as byte
    ensures c == d
  {
    SevenBits(c as nat);
    SevenBits(d as nat);
  }

  lemma SevenBits(k: nat)
    requires k < 128
    ensures (k as byte) as nat == k
  {
    if k < 32 {
      LowRow(k);
    } else if k < 64 {
      DigitRow(k);
    } else if k < 96 {
      CapitalRow(k);
    } else {
      SmallRow(k);
    }
  }

  lemma LowRow(k: nat)
    requires k < 32
    ensures (k as byte) as nat == k
  {}

  lemma DigitRow(k: nat)
    requires 32 <= k < 64
    ensures (k as byte) as nat == k
  {}

  lemma CapitalRow(k: nat)
    requires 64 <= k < 96
    ensures (k as byte) as nat == k
  {}

  lemma SmallRow(k: nat)
    requires 96 <= k < 128
    ensures (k as byte) as nat == k
  {}

  lemma AsBytesInjective(s: string, t: string)
    requires IsAscii(s) && IsAscii(t) && AsBytes(s) == AsBytes(t)
    ensures s == t
  {
    forall i | 0 <= i < |s|
      ensures s[i] == t[i]
    {
      assert AsBytes(s)[i] == AsBytes(t)[i];
      ByteOfChar(s[i], t[i]);
    }
  }

  lemma GroupIsAscii(chunk: Bytes)
    requires 1 <= |chunk| <= 3
    ensures IsAscii(EncodeGroup(chunk))
  {
    var n := Group(chunk[0], if |chunk| > 1 then chunk[1] else 0, if |chunk| > 2 then chunk[2] else 0);
    ValueOfChar(Digit(n, 18));
    ValueOfChar(Digit(n, 12));
    ValueOfChar(Digit(n, 6));
    ValueOfChar(Digit(n, 0));
  }

  lemma {:induction false} EncodeIsAscii(input: Bytes)
    ensures IsAscii("Basic " + Encode(input)) && IsAscii(Encode(input))
  {
    if input != [] {
      if |input| <= 3 {
        GroupIsAscii(input);
      } else {
        GroupIsAscii(input[..3]);
        EncodeIsAscii(input[3..]);
      }
    }
  }

  /** Examples of section 10 of RFC 4648. */
  lemma Vectors()
    ensures Encode([]) == "" && Encode([0x66]) == "Zg==" && Encode([0x66, 0x6F]) == "Zm8="
    ensures Encode([0x66, 0x6F, 0x6F]) == "Zm9v"
  {}

  /** The Authorization header of a `user:password` pair. */
  function HeaderOf(raw: Bytes): Bytes {
    EncodeIsAscii(raw);
    AsBytes("Basic " + Encode(raw))
  }

  datatype Credential = Credential(expectedHeader: Bytes, username: Bytes)

  const COLON: byte := 58

  /** Where the first colon is, or the length when there is none. */
  function FirstColon(raw: Bytes): (i: nat)
    ensures i <= |raw| && COLON !in raw[..i] && (i < |raw| ==> raw[i] == COLON)
  {
    if raw == [] || raw[0] == COLON then 0
    else
      assert raw[..1 + FirstColon(raw[1..])] == [raw[0]] + raw[1..][..FirstColon(raw[1..])];
      1 + FirstColon(raw[1..])
  }

  /** `parse`: a pair with both parts present. */
  method Parse(raw: Bytes) returns (credential: Option<Credential>)
    ensures credential.Some? <==> 0 < FirstColon(raw) < |raw| - 1
    ensures credential.Some? ==> credential.value == Credential(HeaderOf(raw), raw[..FirstColon(raw)])
  {
    var i := FirstColon(raw);
    if i == |raw| || i == 0 || i + 1 == |raw| {
      return None;
    }
    var encoded := B64(raw);
    EncodeIsAscii(raw);
    return Some(Credential(AsBytes("Basic " + encoded), raw[..i]));
  }

  /** `matches`: the whole header, compared in constant time. */
  method Matches(credential: Credential, header: Option<Bytes>) returns (matches: bool)
    ensures matches <==> header == Some(credential.expectedHeader)
  {
    if header.None? {
      return false;
    }
    matches := CtEq(header.value, credential.expectedHeader);
  }

  /** The user and password of a pair are the parts around its first colon. */
  lemma {:induction false} PairSplits(user: Bytes, password: Bytes)
    requires COLON !in user
    ensures FirstColon(user + [COLON] + password) == |user|
  {
    var raw := user + [COLON] + password;
    if user != [] {
      assert raw[0] == user[0] && user[0] in user && user[0] != COLON;
      assert raw[1..] == user[1..] + [COLON] + password;
      PairSplits(user[1..], password);
    }
  }

  /** A header is accepted exactly when it is "Basic " and a Base64 text that
      decodes to the configured pair. */
  lemma AcceptedHeader(raw: Bytes, header: Bytes)
    ensures header == HeaderOf(raw) <==>
            exists s: string :: IsAscii("Basic " + s) && header == AsBytes("Basic " + s) && Decode(s) == Some(raw)
  {
    EncodeIsAscii(raw);
    DecodesExactly(Encode(raw), raw);
    if s: string :| IsAscii("Basic " + s) && header == AsBytes("Basic " + s) && Decode(s) == Some(raw) {
      DecodesExactly(s, raw);
    }
  }

  /** Different pairs have different headers: no header opens two credentials. */
  lemma HeadersDiffer(user: Bytes, password: Bytes, user': Bytes, password': Bytes)
    requires COLON !in user && COLON !in user' && (user, password) != (user', password')
    ensures HeaderOf(user + [COLON] + password) != HeaderOf(user' + [COLON] + password')
  {
    var raw, raw' := user + [COLON] + password, user' + [COLON] + password';
    PairSplits(user, password);
    PairSplits(user', password');
    assert raw[..|user|] == user && raw[|user| + 1..] == password;
    assert raw'[..|user'|] == user' && raw'[|user'| + 1..] == password';
    assert raw != raw';
    if HeaderOf(raw) == HeaderOf(raw') {
      SameHeader(raw, raw');
    }
  }

  lemma SameHeader(raw: Bytes, raw': Bytes)
    requires HeaderOf(raw) == HeaderOf(raw')
    ensures raw == raw'
  {
    EncodeIsAscii(raw);
    EncodeIsAscii(raw');
    AsBytesInjective("Basic " + Encode(raw), "Basic " + Encode(raw'));
    assert Encode(raw) == ("Basic " + Encode(raw))[6..] && Encode(raw') == ("Basic " + Encode(raw'))[6..];
    DecodeUndoesEncode(raw);
    DecodeUndoesEncode(raw');
  }
}
