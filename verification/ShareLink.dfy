/**
 Skill share links (crates/agent_skills/agent_skills.rs): the file's UTF-8 bytes in
 unpadded base64url (sections 3.2 and 5 of RFC 4648), as the `data` pair of the
 query of a `zed://skill` URL.
 */
module ShareLink {
  import opened Wrappers
  import opened Utf8
  import Seqs

  const MAX_SKILL_FILE_SIZE := 100 * 1024
  const SCHEME := "zed"
  const HOST := "skill"
  const DATA_PARAM := "data"

  // ----- base64url without padding -----

  type Sextet = x: int | 0 <= x < 64

  function Digit(v: Sextet): char {
    if v < 26 then 'A' + v as char
    else if v < 52 then 'a' + (v - 26) as char
    else if v < 62 then '0' + (v - 52) as char
    else if v == 62 then '-'
    else '_'
  }

  predicate IsDigit64(c: char) {
    'A' <= c <= 'Z' || 'a' <= c <= 'z' || '0' <= c <= '9' || c == '-' || c == '_'
  }

  function Value(c: char): Sextet
    requires IsDigit64(c)
  {
    if 'A' <= c <= 'Z' then c as int - 'A' as int
    else if 'a' <= c <= 'z' then c as int - 'a' as int + 26
    else if '0' <= c <= '9' then c as int - '0' as int + 52
    else if c == '-' then 62
    else 63
  }

  /** The digits are those of table 2 in section 5 of RFC 4648: A to Z, a to z, 0 to 9, and then "-" and "_". */
  lemma DigitsOfTheTable(v: Sextet)
    ensures Digit(0) == 'A' && Digit(26) == 'a' && Digit(52) == '0' && Digit(62) == '-' && Digit(63) == '_'
    ensures v !in {0, 26, 52, 62, 63} ==> Digit(v) as int == Digit(v - 1) as int + 1
  {
  }

  // Three bytes become four sextets; one or two left over become two or three.
  function ToSextets(b: seq<Byte>): seq<Sextet> {
    if |b| == 0 then []
    else if |b| == 1 then [b[0] / 4, b[0] % 4 * 16]
    else if |b| == 2 then [b[0] / 4, b[0] % 4 * 16 + b[1] / 16, b[1] % 16 * 4]
    else [b[0] / 4, b[0] % 4 * 16 + b[1] / 16, b[1] % 16 * 4 + b[2] / 64, b[2] % 64] + ToSextets(b[3..])
  }

  // Rejects a lone last sextet and set bits past the last byte.
  function FromSextets(v: seq<Sextet>): Option<seq<Byte>> {
    if |v| == 0 then Some([])
    else if |v| == 1 then None
    else if |v| == 2 then if v[1] % 16 == 0 then Some([First(v[0], v[1])]) else None
    else if |v| == 3 then
      if v[2] % 4 == 0 then Some([First(v[0], v[1]), Second(v[1], v[2])]) else None
    else
      match FromSextets(v[4..])
      case None => None
      case Some(rest) => Some([First(v[0], v[1]), Second(v[1], v[2]), Third(v[2], v[3])] + rest)
  }

  function First(v0: Sextet, v1: Sextet): Byte { v0 * 4 + v1 / 16 }
  function Second(v1: Sextet, v2: Sextet): Byte { v1 % 16 * 16 + v2 / 4 }
  function Third(v2: Sextet, v3: Sextet): Byte { v2 % 4 * 64 + v3 }

  lemma BytesBack(b0: Byte, b1: Byte, b2: Byte)
    ensures First(b0 / 4, b0 % 4 * 16 + b1 / 16) == b0
    ensures Second(b0 % 4 * 16 + b1 / 16, b1 % 16 * 4 + b2 / 64) == b1
    ensures Third(b1 % 16 * 4 + b2 / 64, b2 % 64) == b2
  {
  }

  lemma SextetsBack(v0: Sextet, v1: Sextet, v2: Sextet, v3: Sextet)
    ensures First(v0, v1) / 4 == v0
    ensures First(v0, v1) % 4 * 16 + Second(v1, v2) / 16 == v1
    ensures Second(v1, v2) % 16 * 4 + Third(v2, v3) / 64 == v2
    ensures Third(v2, v3) % 64 == v3
  {
  }

  // The number whose digits in that base these are.
  function Number(digits: seq<int>, base: int): int {
    if digits == [] then 0 else Number(digits[..|digits| - 1], base) * base + digits[|digits| - 1]
  }

  lemma NumberOfThree(x: int, y: int, z: int, base: int)
    ensures Number([x, y, z], base) == (x * base + y) * base + z
  {
    assert [x, y, z][..2] == [x, y] && [x, y][..1] == [x] && [x][..0] == [];
    assert Number([x], base) == x;
  }

  lemma NumberOfFour(w: int, x: int, y: int, z: int, base: int)
    ensures Number([w, x, y, z], base) == ((w * base + x) * base + y) * base + z
  {
    assert [w, x, y, z][..3] == [w, x, y];
    NumberOfThree(w, x, y, base);
  }

  /** Four sextets are the 24 bits of three bytes, the most significant first. */
  lemma SextetsAreTheBits(b: seq<Byte>)
    requires |b| >= 3
    ensures var v := ToSextets(b);
            |v| >= 4 && Number([v[0], v[1], v[2], v[3]], 64) == Number([b[0], b[1], b[2]], 256)
  {
    var v := ToSextets(b);
    NumberOfFour(v[0], v[1], v[2], v[3], 64);
    NumberOfThree(b[0], b[1], b[2], 256);
  }

  lemma FromFour(head: seq<Sextet>, rest: seq<Sextet>)
    requires |head| == 4
    ensures FromSextets(head + rest) ==
            match FromSextets(rest)
            case None => None
            case Some(b) => Some([First(head[0], head[1]), Second(head[1], head[2]), Third(head[2], head[3])] + b)
  {
    Seqs.TakeOfConcat(head, rest);
  }

  lemma OneByteBack(b0: Byte)
    ensures b0 % 4 * 16 % 16 == 0 && First(b0 / 4, b0 % 4 * 16) == b0
  {
  }

  lemma TwoBytesBack(b0: Byte, b1: Byte)
    ensures b1 % 16 * 4 % 4 == 0
    ensures First(b0 / 4, b0 % 4 * 16 + b1 / 16) == b0 && Second(b0 % 4 * 16 + b1 / 16, b1 % 16 * 4) == b1
  {
  }

  lemma FromTwo(v0: Sextet, v1: Sextet)
    requires v1 % 16 == 0
    ensures FromSextets([v0, v1]) == Some([First(v0, v1)])
  {
  }

  lemma FromThree(v0: Sextet, v1: Sextet, v2: Sextet)
    requires v2 % 4 == 0
    ensures FromSextets([v0, v1, v2]) == Some([First(v0, v1), Second(v1, v2)])
  {
  }

  lemma OneByteRound(b0: Byte)
    ensures FromSextets(ToSextets([b0])) == Some([b0])
  {
    OneByteBack(b0);
    assert ToSextets([b0]) == [b0 / 4, b0 % 4 * 16];
    FromTwo(b0 / 4, b0 % 4 * 16);
  }

  lemma TwoBytesRound(b0: Byte, b1: Byte)
    ensures FromSextets(ToSextets([b0, b1])) == Some([b0, b1])
  {
    TwoBytesBack(b0, b1);
    assert ToSextets([b0, b1]) == [b0 / 4, b0 % 4 * 16 + b1 / 16, b1 % 16 * 4];
    FromThree(b0 / 4, b0 % 4 * 16 + b1 / 16, b1 % 16 * 4);
  }

  lemma {:induction false} FromToSextets(b: seq<Byte>)
    ensures FromSextets(ToSextets(b)) == Some(b)
    decreases |b|
  {
    if |b| == 1 {
      assert b == [b[0]];
      OneByteRound(b[0]);
    } else if |b| == 2 {
      assert b == [b[0], b[1]];
      TwoBytesRound(b[0], b[1]);
    } else if |b| >= 3 {
      FromToSextets(b[3..]);
      BytesBack(b[0], b[1], b[2]);
      FromFour([b[0] / 4, b[0] % 4 * 16 + b[1] / 16, b[1] % 16 * 4 + b[2] / 64, b[2] % 64], ToSextets(b[3..]));
      FirstThree(b);
    }
  }

  lemma FirstThree(b: seq<Byte>)
    requires |b| >= 3
    ensures b == [b[0], b[1], b[2]] + b[3..]
  {
  }

  lemma {:induction false} ToFromSextets(v: seq<Sextet>)
    requires FromSextets(v).Some?
    ensures ToSextets(FromSextets(v).value) == v
    decreases |v|
  {
    if |v| == 2 {
      SextetsBack(v[0], v[1], 0, 0);
      assert v == [v[0], v[1]];
    } else if |v| == 3 {
      SextetsBack(v[0], v[1], v[2], 0);
      assert v == [v[0], v[1], v[2]];
    } else if |v| >= 4 {
      ToFromSextets(v[4..]);
      SextetsBack(v[0], v[1], v[2], v[3]);
      var rest := FromSextets(v[4..]).value;
      Seqs.TakeOfConcat([First(v[0], v[1]), Second(v[1], v[2]), Third(v[2], v[3])], rest);
      Seqs.SplitAt(v, 4);
      assert v[..4] == [v[0], v[1], v[2], v[3]];
    }
  }

  function Digits(v: seq<Sextet>): string {
    seq(|v|, i requires 0 <= i < |v| => Digit(v[i]))
  }

  predicate AllDigits(s: string) {
    forall i :: 0 <= i < |s| ==> IsDigit64(s[i])
  }

  function Values(s: string): seq<Sextet>
    requires AllDigits(s)
  {
    seq(|s|, i requires 0 <= i < |s| => Value(s[i]))
  }

  function Encode64(b: seq<Byte>): string {
    Digits(ToSextets(b))
  }

  function Decode64(s: string): Option<seq<Byte>> {
    if AllDigits(s) then FromSextets(Values(s)) else None
  }

  lemma Encode64Alphabet(b: seq<Byte>)
    ensures AllDigits(Encode64(b)) && Values(Encode64(b)) == ToSextets(b)
  {
    var v := ToSextets(b);
    forall i | 0 <= i < |v|
      ensures IsDigit64(Digit(v[i])) && Value(Digit(v[i])) == v[i]
    {
    }
  }

  /** Decoding undoes encoding, for every byte string. */
  lemma Decode64Encode64(b: seq<Byte>)
    ensures Decode64(Encode64(b)) == Some(b)
  {
    Encode64Alphabet(b);
    FromToSextets(b);
  }

  /** Only the encoding of a byte string decodes to it. */
  lemma Encode64Decode64(s: string)
    requires Decode64(s).Some?
    ensures Encode64(Decode64(s).value) == s
  {
    ToFromSextets(Values(s));
    forall i | 0 <= i < |s|
      ensures Digit(Value(s[i])) == s[i]
    {
    }
  }

  // ----- the query, as application/x-www-form-urlencoded -----

  predicate Unescaped(c: char) {
    'A' <= c <= 'Z' || 'a' <= c <= 'z' || '0' <= c <= '9' || c in {'*', '-', '.', '_'}
  }

  function HexDigit(v: int): char
    requires 0 <= v < 16
  {
    if v < 10 then '0' + v as char else 'A' + (v - 10) as char
  }

  function EscapeByte(b: Byte): string {
    if b < 0x80 && Unescaped(b as char) then [b as char]
    else if b == 0x20 then "+"
    else ['%', HexDigit(b / 16), HexDigit(b % 16)]
  }

  function FormEscape(b: seq<Byte>): string {
    if b == [] then "" else EscapeByte(b[0]) + FormEscape(b[1..])
  }

  function HexValue(c: char): Option<int> {
    if '0' <= c <= '9' then Some(c as int - '0' as int)
    else if 'A' <= c <= 'F' then Some(c as int - 'A' as int + 10)
    else if 'a' <= c <= 'f' then Some(c as int - 'a' as int + 10)
    else None
  }

  // A '%' not followed by two hex digits stands for itself.
  function FormUnescape(s: string): (r: seq<Byte>)
    requires forall i :: 0 <= i < |s| ==> s[i] as int < 0x80
  {
    if s == [] then []
    else if s[0] == '+' then [0x20] + FormUnescape(s[1..])
    else if s[0] == '%' && |s| >= 3 && HexValue(s[1]).Some? && HexValue(s[2]).Some? then
      [HexValue(s[1]).value * 16 + HexValue(s[2]).value] + FormUnescape(s[3..])
    else [s[0] as int] + FormUnescape(s[1..])
  }

  function IndexOf(s: string, c: char): (i: nat)
    ensures i <= |s| && (i < |s| ==> s[i] == c)
    ensures forall j :: 0 <= j < i ==> s[j] != c
  {
    if s == [] || s[0] == c then 0 else 1 + IndexOf(s[1..], c)
  }

  // The value of the first pair of the query whose key is `key`.
  function FindPair(query: string, key: seq<Byte>): Option<seq<Byte>>
    requires forall i :: 0 <= i < |query| ==> query[i] as int < 0x80
    decreases |query|
  {
    if query == [] then None
    else
      var end := IndexOf(query, '&');
      var piece := query[..end];
      var eq := IndexOf(piece, '=');
      var value := if eq < |piece| then piece[eq + 1..] else "";
      if piece != [] && FormUnescape(piece[..eq]) == key then Some(FormUnescape(value))
      else if end == |query| then None
      else FindPair(query[end + 1..], key)
  }

  // An ASCII character is one byte of its text's encoding.
  lemma AsciiHead(s: string)
    requires s != [] && s[0] as int < 0x80
    ensures Encode(s) == [s[0] as int] + Encode(s[1..])
    ensures Encode(s)[0] == s[0] as int && Encode(s)[1..] == Encode(s[1..])
  {
    assert EncodeChar(s[0]) == [s[0] as int];
    Seqs.TailOfConcat([s[0] as int], Encode(s[1..]));
    Seqs.NoMore(Encode(s[1..]));
  }

  lemma {:induction false} UnescapeKeepsUnescaped(s: string)
    requires forall i :: 0 <= i < |s| ==> Unescaped(s[i])
    ensures forall i :: 0 <= i < |s| ==> s[i] as int < 0x80
    ensures FormUnescape(s) == Encode(s)
  {
    if s != [] {
      assert Unescaped(s[0]);
      AsciiHead(s);
      UnescapeKeepsUnescaped(s[1..]);
    }
  }

  lemma {:induction false} EscapeKeepsUnescaped(s: string)
    requires forall i :: 0 <= i < |s| ==> Unescaped(s[i])
    ensures FormEscape(Encode(s)) == s
  {
    if s != [] {
      assert Unescaped(s[0]);
      AsciiHead(s);
      EscapeKeepsUnescaped(s[1..]);
      Seqs.HeadTail(s);
    }
  }

  lemma HexReadsBack(v: Byte)
    ensures HexValue(HexDigit(v / 16)) == Some(v / 16) && HexValue(HexDigit(v % 16)) == Some(v % 16)
    ensures HexDigit(v / 16) as int < 0x80 && HexDigit(v % 16) as int < 0x80
  {
  }

  predicate AllAscii(s: string) {
    forall i :: 0 <= i < |s| ==> s[i] as int < 0x80
  }

  // One escaped byte, before some more text.
  lemma UnescapeOne(b: Byte, rest: string)
    requires AllAscii(rest)
    ensures AllAscii(EscapeByte(b) + rest) && FormUnescape(EscapeByte(b) + rest) == [b] + FormUnescape(rest)
  {
    HexReadsBack(b);
    var piece := EscapeByte(b);
    if b < 0x80 && Unescaped(b as char) {
      Seqs.TailOfCons(b as char, rest);
    } else if b == 0x20 {
      Seqs.TailOfCons('+', rest);
    } else {
      var s := piece + rest;
      assert s[0] == '%' && s[1] == HexDigit(b / 16) && s[2] == HexDigit(b % 16) && s[3..] == rest;
    }
  }

  /** Form decoding undoes form encoding, for every byte string. */
  lemma {:induction false} UnescapeEscape(b: seq<Byte>)
    ensures AllAscii(FormEscape(b)) && FormUnescape(FormEscape(b)) == b
  {
    if b != [] {
      UnescapeEscape(b[1..]);
      UnescapeOne(b[0], FormEscape(b[1..]));
      Seqs.HeadTail(b);
    }
  }

  // ----- the links -----

  // A parsed URL; its query holds ASCII only.
  datatype RawUrl = Url(scheme: string, host: Option<string>, query: string)
  type Url = u: RawUrl | forall i :: 0 <= i < |u.query| ==> u.query[i] as int < 0x80 witness Url("", None, "")

  datatype LinkError = NotASkillLink | MissingData | BadBase64 | TooLarge | BadUtf8

  function Payload(content: string): string {
    Encode64(Encode(content))
  }

  lemma PayloadIsUnescaped(content: string)
    ensures forall i :: 0 <= i < |Payload(content)| ==> Unescaped(Payload(content)[i])
  {
    Encode64Alphabet(Encode(content));
  }

  function EncodeLink(content: string): Url {
    PayloadIsUnescaped(content);
    EscapeKeepsUnescaped(Payload(content));
    UnescapeKeepsUnescaped(Payload(content));
    Url(SCHEME, Some(HOST), DATA_PARAM + "=" + FormEscape(Encode(Payload(content))))
  }

  // Base64 text as the decoder gets it: bytes past ASCII are no digits.
  function AsText(b: seq<Byte>): string {
    seq(|b|, i requires 0 <= i < |b| => b[i] as char)
  }

  function DecodeLink(link: Url): Result<string, LinkError> {
    if link.scheme != SCHEME || link.host != Some(HOST) then Err(NotASkillLink)
    else
      match FindPair(link.query, Encode(DATA_PARAM))
      case None => Err(MissingData)
      case Some(data) =>
        match Decode64(AsText(data))
        case None => Err(BadBase64)
        case Some(bytes) =>
          if |bytes| > MAX_SKILL_FILE_SIZE then Err(TooLarge)
          else
            match Decode(bytes)
            case None => Err(BadUtf8)
            case Some(content) => Ok(content)
  }

  lemma {:induction false} AsTextEncode(s: string)
    requires forall i :: 0 <= i < |s| ==> s[i] as int < 0x80
    ensures AsText(Encode(s)) == s
  {
    if s != [] {
      AsTextEncode(s[1..]);
      AsciiHead(s);
      Seqs.HeadTail(s);
      assert AsText(Encode(s)) == [s[0]] + AsText(Encode(s[1..]));
    }
  }

  // A query of one pair hands back its value.
  lemma OnePair(key: string, data: string)
    requires key != "" && '&' !in key && '=' !in key && '&' !in data
    requires forall i :: 0 <= i < |key| ==> key[i] as int < 0x80
    requires forall i :: 0 <= i < |data| ==> data[i] as int < 0x80
    ensures FindPair(key + "=" + data, FormUnescape(key)) == Some(FormUnescape(data))
  {
    var query := key + "=" + data;
    assert '&' !in query;
    var end := IndexOf(query, '&');
    assert end == |query| && query[..end] == query;
    assert query[|key|] == '=' && forall i :: 0 <= i < |key| ==> query[i] == key[i];
    assert IndexOf(query, '=') == |key|;
    assert query[..|key|] == key && query[|key| + 1..] == data;
  }

  /** What follows the first pair with the key does not matter. */
  lemma FirstPairWins(key: string, data: string, rest: string)
    requires key != "" && '&' !in key && '=' !in key && '&' !in data && AllAscii(key) && AllAscii(data) && AllAscii(rest)
    ensures FindPair(key + "=" + data + "&" + rest, FormUnescape(key)) == Some(FormUnescape(data))
  {
    var piece := key + "=" + data;
    var query := piece + "&" + rest;
    assert AllAscii(query);
    CutAtAmpersand(piece, rest);
    assert piece[|key|] == '=' && forall i :: 0 <= i < |key| ==> piece[i] == key[i];
    assert IndexOf(piece, '=') == |key|;
    assert piece[..|key|] == key && piece[|key| + 1..] == data;
  }

  lemma CutAtAmpersand(piece: string, rest: string)
    requires '&' !in piece
    ensures var query := piece + "&" + rest;
            && IndexOf(query, '&') == |piece|
            && query[..|piece|] == piece
            && query[|piece| + 1..] == rest
  {
    var query := piece + "&" + rest;
    assert query[|piece|] == '&' && forall i :: 0 <= i < |piece| ==> query[i] == piece[i];
  }

  /** A pair with another key is passed over. */
  lemma OtherPairsArePassedOver(key: seq<Byte>, other: string, value: string, rest: string)
    requires other != "" && '&' !in other && '=' !in other && '&' !in value
    requires AllAscii(other) && AllAscii(value) && AllAscii(rest) && FormUnescape(other) != key
    ensures AllAscii(other + "=" + value + "&" + rest)
    ensures FindPair(other + "=" + value + "&" + rest, key) == FindPair(rest, key)
  {
    var piece := other + "=" + value;
    CutAtAmpersand(piece, rest);
    assert piece[|other|] == '=' && forall i :: 0 <= i < |other| ==> piece[i] == other[i];
    assert IndexOf(piece, '=') == |other|;
    assert piece[..|other|] == other;
  }

  lemma EmptyLink()
    ensures EncodeLink("") == Url("zed", Some("skill"), "data=")
  {
    assert Payload("") == "";
    assert FormEscape(Encode("")) == "";
  }

  lemma LinkData(content: string)
    ensures FindPair(EncodeLink(content).query, Encode(DATA_PARAM)) == Some(Encode(Payload(content)))
  {
    var data := Payload(content);
    PayloadIsUnescaped(content);
    EscapeKeepsUnescaped(data);
    UnescapeKeepsUnescaped(data);
    UnescapeKeepsUnescaped(DATA_PARAM);
    assert '&' !in data;
    OnePair(DATA_PARAM, data);
  }

  lemma PayloadDecodes(content: string)
    ensures Decode64(AsText(Encode(Payload(content)))) == Some(Encode(content))
  {
    PayloadIsUnescaped(content);
    UnescapeKeepsUnescaped(Payload(content));
    AsTextEncode(Payload(content));
    Decode64Encode64(Encode(content));
  }

  /** A link gives its content back exactly when the content is at most 100 KiB; otherwise it is refused as too large. */
  lemma ShareLinkRoundTrip(content: string)
    ensures DecodeLink(EncodeLink(content)) ==
            if |Encode(content)| <= MAX_SKILL_FILE_SIZE then Ok(content) else Err(TooLarge)
  {
    LinkData(content);
    PayloadDecodes(content);
    DecodeEncode(content);
  }

  /** Different contents have different links, whatever their size. */
  lemma LinksAreInjective(c: string, d: string)
    requires EncodeLink(c) == EncodeLink(d)
    ensures c == d
  {
    LinkData(c);
    LinkData(d);
    PayloadDecodes(c);
    PayloadDecodes(d);
    DecodeEncode(c);
    DecodeEncode(d);
  }

  /** Whatever link decodes, its data is the one payload of the content it decodes to. */
  lemma DecodedLinkIsCanonical(link: Url)
    requires DecodeLink(link).Ok?
    ensures var content := DecodeLink(link).value;
            && |Encode(content)| <= MAX_SKILL_FILE_SIZE
            && AsText(FindPair(link.query, Encode(DATA_PARAM)).value) == Payload(content)
  {
    var data := FindPair(link.query, Encode(DATA_PARAM)).value;
    Encode64Decode64(AsText(data));
    EncodeDecode(Decode64(AsText(data)).value);
  }

  // The link carries these bytes.
  ghost predicate Carries(link: Url, bytes: seq<Byte>) {
    FindPair(link.query, Encode("data")).Some? && AsText(FindPair(link.query, Encode("data")).value) == Encode64(bytes)
  }

  function Carried(link: Url): Option<seq<Byte>> {
    match FindPair(link.query, Encode(DATA_PARAM))
    case None => None
    case Some(data) => Decode64(AsText(data))
  }

  lemma CarriesIff(link: Url, bytes: seq<Byte>)
    ensures Carries(link, bytes) <==> Carried(link) == Some(bytes)
  {
    var data := FindPair(link.query, Encode(DATA_PARAM));
    Decode64Encode64(bytes);
    if data.Some? && Decode64(AsText(data.value)).Some? {
      Encode64Decode64(AsText(data.value));
    }
  }

  lemma DecodeIff(bytes: seq<Byte>, text: string)
    ensures Decode(bytes) == Some(text) <==> Encode(text) == bytes
  {
    DecodeEncode(text);
    if Decode(bytes).Some? {
      EncodeDecode(bytes);
    }
  }

  predicate Ours(link: Url) {
    link.scheme == "zed" && link.host == Some("skill")
  }

  function Received(bytes: seq<Byte>): Result<string, LinkError> {
    if |bytes| > MAX_SKILL_FILE_SIZE then Err(TooLarge)
    else if Decode(bytes).None? then Err(BadUtf8)
    else Ok(Decode(bytes).value)
  }

  lemma BySteps(link: Url)
    ensures DecodeLink(link) ==
            if !Ours(link) then Err(NotASkillLink)
            else if FindPair(link.query, Encode(DATA_PARAM)).None? then Err(MissingData)
            else if Carried(link).None? then Err(BadBase64)
            else Received(Carried(link).value)
  {
  }

  // No text has these bytes.
  ghost predicate NoText(bytes: seq<Byte>) {
    forall text :: Encode(text) != bytes
  }

  lemma ReceivedIs(bytes: seq<Byte>)
    ensures var r := Received(bytes);
            && (r == Err(TooLarge) <==> |bytes| > 100 * 1024)
            && (r == Err(BadUtf8) <==> |bytes| <= 100 * 1024 && NoText(bytes))
            && (forall content :: r == Ok(content) <==> |bytes| <= 100 * 1024 && Encode(content) == bytes)
            && r != Err(NotASkillLink) && r != Err(MissingData) && r != Err(BadBase64)
  {
    forall text
      ensures Decode(bytes) == Some(text) <==> Encode(text) == bytes
    {
      DecodeIff(bytes, text);
    }
    if Decode(bytes).Some? {
      assert Encode(Decode(bytes).value) == bytes;
    }
  }

  /** What becomes of every link: it gives a content exactly if it is a zed://skill link that carries the bytes of that
      content, 100 KiB at most; and each error says the first thing that is wrong with it. */
  lemma DecodesExactly(link: Url)
    ensures var r := DecodeLink(link);
            && (r == Err(NotASkillLink) <==> !Ours(link))
            && (r == Err(MissingData) <==> Ours(link) && FindPair(link.query, Encode("data")).None?)
            && (r == Err(BadBase64) <==>
                  Ours(link) && FindPair(link.query, Encode("data")).Some? && forall bytes :: !Carries(link, bytes))
            && (r == Err(TooLarge) <==> Ours(link) && exists bytes :: Carries(link, bytes) && |bytes| > 100 * 1024)
            && (r == Err(BadUtf8) <==>
                  Ours(link) && exists bytes :: Carries(link, bytes) && |bytes| <= 100 * 1024 && NoText(bytes))
            && (forall content :: r == Ok(content) <==>
                  Ours(link) && Carries(link, Encode(content)) && |Encode(content)| <= 100 * 1024)
  {
    BySteps(link);
    forall bytes
      ensures Carries(link, bytes) <==> Carried(link) == Some(bytes)
    {
      CarriesIff(link, bytes);
    }
    if Carried(link).Some? {
      ReceivedIs(Carried(link).value);
      assert Carries(link, Carried(link).value);
    }
  }
}
