/**
 UTF-8 as section 3 of RFC 3629 defines it, and Rust's notion of a character
 boundary in a byte string.
 */
module Utf8 {
  import opened Wrappers
  import Seqs

  type Byte = x: int | 0 <= x < 256

  function EncodeChar(c: char): (r: seq<Byte>)
    ensures 1 <= |r| <= 4
  {
    var n := c as int;
    if n < 0x80 then [n]
    else if n < 0x800 then [0xC0 + n / 64, 0x80 + n % 64]
    else if n < 0x10000 then [0xE0 + n / 4096, 0x80 + n / 64 % 64, 0x80 + n % 64]
    else [0xF0 + n / 262144, 0x80 + n / 4096 % 64, 0x80 + n / 64 % 64, 0x80 + n % 64]
  }

  function Encode(s: string): seq<Byte> {
    if s == [] then [] else EncodeChar(s[0]) + Encode(s[1..])
  }

  // The characters of the examples in section 7 of RFC 3629 and in its table.
  lemma EncodeExamples()
    ensures EncodeChar('A') == [0x41] && EncodeChar('\U{0391}') == [0xCE, 0x91]
    ensures EncodeChar('\U{2262}') == [0xE2, 0x89, 0xA2] && EncodeChar('\U{233B4}') == [0xF0, 0xA3, 0x8E, 0xB4]
  {
  }

  predicate Continuation(b: Byte) {
    0x80 <= b < 0xC0
  }

  // `str::is_char_boundary`
  predicate IsBoundary(bytes: seq<Byte>, i: nat) {
    i == 0 || i == |bytes| || (i < |bytes| && !Continuation(bytes[i]))
  }

  lemma {:induction false} EncodeConcat(s: string, t: string)
    ensures Encode(s + t) == Encode(s) + Encode(t)
  {
    if s == [] {
      Seqs.NoMore(t);
    } else {
      EncodeConcat(s[1..], t);
      Seqs.TailOfConcat(s, t);
      Seqs.Regroup(EncodeChar(s[0]), Encode(s[1..]), Encode(t));
    }
  }

  lemma EncodeSplit(s: string, k: nat)
    requires k <= |s|
    ensures Encode(s) == Encode(s[..k]) + Encode(s[k..])
  {
    EncodeConcat(s[..k], s[k..]);
    Seqs.SplitAt(s, k);
  }

  // The first byte of a character is no continuation byte; the others are.
  lemma LeadAndContinuations(c: char)
    ensures var b := EncodeChar(c);
            !Continuation(b[0]) && forall j :: 1 <= j < |b| ==> Continuation(b[j])
    ensures EncodeChar(c)[0] < 0x80 ==> EncodeChar(c) == [c as int]
  {
  }

  // The character byte `i` belongs to.
  lemma {:induction false} Locate(s: string, i: nat) returns (k: nat)
    requires i < |Encode(s)|
    ensures k < |s|
    ensures |Encode(s[..k])| <= i < |Encode(s[..k])| + |EncodeChar(s[k])|
    ensures Encode(s)[i] == EncodeChar(s[k])[i - |Encode(s[..k])|]
    decreases |s|
  {
    var first := EncodeChar(s[0]);
    if i < |first| {
      k := 0;
      assert s[..0] == [];
    } else {
      var rest := Encode(s[1..]);
      assert Encode(s)[i] == rest[i - |first|];
      var j := Locate(s[1..], i - |first|);
      k := j + 1;
      assert s[..k][1..] == s[1..][..j];
      assert Encode(s[..k]) == first + Encode(s[1..][..j]);
    }
  }

  /** A position is a character boundary exactly when a prefix of the text encodes to the bytes before it. */
  lemma BoundaryIff(s: string, i: nat)
    requires i <= |Encode(s)|
    ensures IsBoundary(Encode(s), i) <==>
            exists k :: 0 <= k <= |s| && Encode(s[..k]) == Encode(s)[..i] && Encode(s[k..]) == Encode(s)[i..]
  {
    var bytes := Encode(s);
    if i == |bytes| {
      assert s[..|s|] == s && s[|s|..] == [];
    } else {
      var k := Locate(s, i);
      LeadAndContinuations(s[k]);
      EncodeSplit(s, k);
      if IsBoundary(bytes, i) {
        if i == 0 {
          assert s[..0] == [] && s[0..] == s;
        } else {
          assert i == |Encode(s[..k])|;
        }
      }
      if m :| 0 <= m <= |s| && Encode(s[..m]) == bytes[..i] && Encode(s[m..]) == bytes[i..] {
        assert m < |s|;
        LeadAndContinuations(s[m]);
        assert bytes[i] == Encode(s[m..])[0] == EncodeChar(s[m])[0];
      }
    }
  }

  // Where the character after the `k`-th begins.
  lemma NextOffset(s: string, k: nat)
    requires k < |s|
    ensures |Encode(s[..k + 1])| == |Encode(s[..k])| + |EncodeChar(s[k])|
  {
    EncodeConcat(s[..k], [s[k]]);
    assert s[..k + 1] == s[..k] + [s[k]];
    Seqs.NoMore(EncodeChar(s[k]));
  }

  /** An ASCII byte is a whole character, so there is a boundary on either side of it. */
  lemma AsciiIsBounded(s: string, i: nat)
    requires i < |Encode(s)| && Encode(s)[i] < 0x80
    ensures IsBoundary(Encode(s), i) && IsBoundary(Encode(s), i + 1)
  {
    var k := Locate(s, i);
    LeadAndContinuations(s[k]);
    assert i == |Encode(s[..k])|;
    if i + 1 < |Encode(s)| {
      var m := Locate(s, i + 1);
      LeadAndContinuations(s[m]);
      NextOffset(s, k);
      if m <= k {
        PrefixesGrow(s, m, k);
        if m < k {
          NextOffset(s, m);
          PrefixesGrow(s, m + 1, k);
        }
      } else {
        PrefixesGrow(s, k + 1, m);
      }
    }
  }

  lemma PrefixesGrow(s: string, k: nat, m: nat)
    requires k <= m <= |s|
    ensures |Encode(s[..k])| <= |Encode(s[..m])|
  {
    EncodeSplit(s[..m], k);
    Seqs.TakeTake(s, k, m);
  }

  /** From any position at most three steps lead back to a character boundary. */
  lemma BoundaryIsNear(s: string, i: nat) returns (j: nat)
    requires i <= |Encode(s)|
    ensures j <= i <= j + 3 && IsBoundary(Encode(s), j)
  {
    if i == |Encode(s)| {
      j := i;
    } else {
      var k := Locate(s, i);
      j := |Encode(s[..k])|;
      EncodeSplit(s, k);
      LeadAndContinuations(s[k]);
      assert Encode(s)[j] == Encode(s[k..])[0] == EncodeChar(s[k])[0];
    }
  }

  // ----- decoding -----

  // The code points that two, three and four bytes spell.
  function Code2(b0: int, b1: int): int {
    (b0 - 0xC0) * 64 + (b1 - 0x80)
  }

  function Code3(b0: int, b1: int, b2: int): int {
    (b0 - 0xE0) * 4096 + (b1 - 0x80) * 64 + (b2 - 0x80)
  }

  function Code4(b0: int, b1: int, b2: int, b3: int): int {
    (b0 - 0xF0) * 262144 + (b1 - 0x80) * 4096 + (b2 - 0x80) * 64 + (b3 - 0x80)
  }

  // The first character of `b` and how many bytes it takes; None if malformed.
  function DecodeFirst(b: seq<Byte>): (r: Option<(char, nat)>)
    ensures r.Some? ==> 1 <= r.value.1 <= |b|
  {
    if b == [] then None
    else if b[0] < 0x80 then Some((b[0] as char, 1))
    else if 0xC2 <= b[0] < 0xE0 && |b| >= 2 && Continuation(b[1]) then
      Some((Code2(b[0], b[1]) as char, 2))
    else if 0xE0 <= b[0] < 0xF0 && |b| >= 3 && Continuation(b[1]) && Continuation(b[2]) then
      var n := Code3(b[0], b[1], b[2]);
      if n < 0x800 || 0xD800 <= n < 0xE000 then None else Some((n as char, 3))
    else if 0xF0 <= b[0] < 0xF5 && |b| >= 4 && Continuation(b[1]) && Continuation(b[2]) && Continuation(b[3]) then
      var n := Code4(b[0], b[1], b[2], b[3]);
      if n < 0x10000 || n >= 0x11_0000 then None else Some((n as char, 4))
    else None
  }

  // `String::from_utf8`
  function Decode(b: seq<Byte>): Option<string> {
    if b == [] then Some([])
    else
      match DecodeFirst(b)
      case None => None
      case Some((c, n)) =>
        match Decode(b[n..])
        case None => None
        case Some(rest) => Some([c] + rest)
  }

  lemma Digits3(n: int)
    requires 0x800 <= n < 0x10000
    ensures Code3(0xE0 + n / 4096, 0x80 + n / 64 % 64, 0x80 + n % 64) == n && n / 4096 < 16
  {
    assert n / 64 / 64 == n / 4096;
  }

  lemma Digits4(n: int)
    requires 0x10000 <= n < 0x11_0000
    ensures Code4(0xF0 + n / 262144, 0x80 + n / 4096 % 64, 0x80 + n / 64 % 64, 0x80 + n % 64) == n
    ensures n / 262144 < 5
  {
    assert n / 64 / 64 == n / 4096 && n / 4096 / 64 == n / 262144;
  }

  lemma DecodeFirstOfEncoded(c: char, rest: seq<Byte>)
    ensures DecodeFirst(EncodeChar(c) + rest) == Some((c, |EncodeChar(c)|))
  {
    var n := c as int;
    var b := EncodeChar(c) + rest;
    if n < 0x80 {
      assert b[0] == n;
    } else if n < 0x800 {
      assert b[0] == 0xC0 + n / 64 && b[1] == 0x80 + n % 64;
    } else if n < 0x10000 {
      Digits3(n);
      assert b[0] == 0xE0 + n / 4096 && b[1] == 0x80 + n / 64 % 64 && b[2] == 0x80 + n % 64;
    } else {
      Digits4(n);
      assert b[0] == 0xF0 + n / 262144 && b[1] == 0x80 + n / 4096 % 64 && b[2] == 0x80 + n / 64 % 64 && b[3] == 0x80 + n % 64;
    }
  }

  lemma Spelled3(b0: int, b1: int, b2: int)
    requires 0xE0 <= b0 < 0xF0 && 0x80 <= b1 < 0xC0 && 0x80 <= b2 < 0xC0
    ensures var n := Code3(b0, b1, b2);
            b0 == 0xE0 + n / 4096 && b1 == 0x80 + n / 64 % 64 && b2 == 0x80 + n % 64 && n < 0x10000
  {
    var n := Code3(b0, b1, b2);
    assert n / 64 == (b0 - 0xE0) * 64 + (b1 - 0x80);
    assert n / 4096 == b0 - 0xE0;
  }

  lemma Spelled4(b0: int, b1: int, b2: int, b3: int)
    requires 0xF0 <= b0 < 0xF5 && 0x80 <= b1 < 0xC0 && 0x80 <= b2 < 0xC0 && 0x80 <= b3 < 0xC0
    ensures var n := Code4(b0, b1, b2, b3);
            && b0 == 0xF0 + n / 262144 && b1 == 0x80 + n / 4096 % 64
            && b2 == 0x80 + n / 64 % 64 && b3 == 0x80 + n % 64
  {
    var n := Code4(b0, b1, b2, b3);
    assert n / 64 == (b0 - 0xF0) * 4096 + (b1 - 0x80) * 64 + (b2 - 0x80);
    assert n / 4096 == (b0 - 0xF0) * 64 + (b1 - 0x80);
    assert n / 262144 == b0 - 0xF0;
  }

  lemma EncodeOfDecodedFirst(b: seq<Byte>)
    requires DecodeFirst(b).Some?
    ensures var (c, n) := DecodeFirst(b).value; EncodeChar(c) == b[..n]
  {
    var (c, n) := DecodeFirst(b).value;
    if n == 1 {
      assert EncodeChar(c) == [b[0]];
    } else if n == 2 {
      assert EncodeChar(c) == [b[0], b[1]];
    } else if n == 3 {
      Spelled3(b[0], b[1], b[2]);
      assert EncodeChar(c) == [b[0], b[1], b[2]];
    } else {
      Spelled4(b[0], b[1], b[2], b[3]);
      assert EncodeChar(c) == [b[0], b[1], b[2], b[3]];
    }
  }

  /** Decoding undoes encoding, for every text. */
  lemma {:induction false} DecodeEncode(s: string)
    ensures Decode(Encode(s)) == Some(s)
  {
    if s != [] {
      DecodeEncode(s[1..]);
      DecodeFirstOfEncoded(s[0], Encode(s[1..]));
      Seqs.TakeOfConcat(EncodeChar(s[0]), Encode(s[1..]));
      Seqs.HeadTail(s);
    }
  }

  /** Only the encoding of a text decodes to it. */
  lemma {:induction false} EncodeDecode(b: seq<Byte>)
    requires Decode(b).Some?
    ensures Encode(Decode(b).value) == b
    decreases |b|
  {
    if b != [] {
      var (c, n) := DecodeFirst(b).value;
      EncodeOfDecodedFirst(b);
      EncodeDecode(b[n..]);
      var rest := Decode(b[n..]).value;
      Seqs.TailOfConcat([c], rest);
      Seqs.NoMore(rest);
      Seqs.SplitAt(b, n);
    }
  }
}
