/**
 The string operations of Python that the tracking-issue printer and parser use:
 splitting, stripping, decimal integers.
 */
module MagnetText {
  import opened Wrappers
  import Seqs

  // `str.isspace`
  predicate IsSpace(c: char) {
    var n := c as int;
    9 <= n <= 13 || 0x1C <= n <= 0x20 || n in {0x85, 0xA0, 0x1680, 0x2028, 0x2029, 0x202F, 0x205F, 0x3000} || 0x2000 <= n <= 0x200A
  }

  function StripLeft(s: string): (r: string)
    ensures r == [] || !IsSpace(r[0])
    ensures |r| <= |s| && r == s[|s| - |r|..]
  {
    if s != [] && IsSpace(s[0]) then StripLeft(s[1..]) else s
  }

  function StripRight(s: string): (r: string)
    ensures r == [] || !IsSpace(r[|r| - 1])
    ensures |r| <= |s| && r == s[..|r|]
  {
    if s != [] && IsSpace(s[|s| - 1]) then StripRight(s[..|s| - 1]) else s
  }

  function Strip(s: string): string {
    StripRight(StripLeft(s))
  }

  predicate Trimmed(s: string) {
    s == [] || (!IsSpace(s[0]) && !IsSpace(s[|s| - 1]))
  }

  lemma StripTrims(s: string)
    ensures Trimmed(Strip(s)) && (Trimmed(s) ==> Strip(s) == s)
    ensures forall c :: c in Strip(s) ==> c in s
  {
  }

  // `sep.join(lines)` and `text.split("\n")`
  function JoinLines(lines: seq<string>): string {
    if lines == [] then ""
    else if |lines| == 1 then lines[0]
    else lines[0] + "\n" + JoinLines(lines[1..])
  }

  function LineEnd(s: string): (i: nat)
    ensures i <= |s| && (i < |s| ==> s[i] == '\n') && '\n' !in s[..i]
  {
    if s == [] || s[0] == '\n' then 0 else 1 + LineEnd(s[1..])
  }

  function SplitLines(s: string): (r: seq<string>)
    ensures r != []
    ensures forall i :: 0 <= i < |r| ==> '\n' !in r[i]
    decreases |s|
  {
    var i := LineEnd(s);
    if i == |s| then [s] else [s[..i]] + SplitLines(s[i + 1..])
  }

  lemma {:induction false} LineEndOf(a: string, b: string)
    requires '\n' !in a
    ensures LineEnd(a) == |a| && LineEnd(a + "\n" + b) == |a|
  {
    if a != [] {
      assert forall c :: c in a[1..] ==> c in a;
      LineEndOf(a[1..], b);
      assert (a + "\n" + b)[1..] == a[1..] + "\n" + b;
    }
  }

  /** Splitting undoes joining when no line holds a newline. */
  lemma {:induction false} SplitJoin(lines: seq<string>)
    requires lines != [] && forall i :: 0 <= i < |lines| ==> '\n' !in lines[i]
    ensures SplitLines(JoinLines(lines)) == lines
  {
    if |lines| == 1 {
      LineEndOf(lines[0], "");
    } else {
      var rest := JoinLines(lines[1..]);
      var all := lines[0] + "\n" + rest;
      LineEndOf(lines[0], rest);
      SplitJoin(lines[1..]);
      assert all[..|lines[0]|] == lines[0] && all[|lines[0]| + 1..] == rest;
    }
  }

  // `s.startswith(pat)`
  predicate StartsWith(s: string, pat: string) {
    |pat| <= |s| && s[..|pat|] == pat
  }

  // The first occurrence of `pat`, or |s|.
  function Find(s: string, pat: string): (i: nat)
    requires pat != ""
    ensures i <= |s| && (i < |s| ==> i + |pat| <= |s|)
  {
    if s == [] then 0 else if StartsWith(s, pat) then 0 else 1 + Find(s[1..], pat)
  }

  // `s.split(sep)[1]`: what lies between the first two occurrences.
  function SecondPart(s: string, sep: string): Option<string>
    requires sep != ""
  {
    var i := Find(s, sep);
    if i == |s| then None
    else
      var rest := s[i + |sep|..];
      Some(rest[..Find(rest, sep)])
  }

  // `pat` does not begin inside `head`, so it is first found in `tail`.
  lemma {:induction false} FindSkips(head: string, tail: string, pat: string)
    requires pat != "" && pat[0] !in head
    ensures Find(head + tail, pat) == |head| + Find(tail, pat)
  {
    if head == [] {
      assert head + tail == tail;
    } else {
      assert (head + tail)[0] == head[0] != pat[0];
      assert forall c :: c in head[1..] ==> c in head;
      assert (head + tail)[1..] == head[1..] + tail;
      FindSkips(head[1..], tail, pat);
    }
  }

  lemma StripLeftSpace(s: string)
    ensures StripLeft(" " + s) == StripLeft(s)
  {
    var spaced := " " + s;
    Seqs.TailOfConcat(" ", s);
    Seqs.NoMore(s);
    assert spaced[0] == ' ' && spaced[1..] == s;
  }

  // `s.split()[0]`
  function FirstWord(s: string): Option<string> {
    var t := StripLeft(s);
    if t == [] then None else Some(t[..WordEnd(t)])
  }

  function WordEnd(s: string): (i: nat)
    ensures i <= |s|
  {
    if s == [] || IsSpace(s[0]) then 0 else 1 + WordEnd(s[1..])
  }

  lemma {:induction false} WordEndOf(w: string, rest: string)
    requires forall c :: c in w ==> !IsSpace(c)
    requires rest == [] || IsSpace(rest[0])
    ensures WordEnd(w + rest) == |w|
  {
    if w == [] {
      assert w + rest == rest;
    } else {
      assert forall c :: c in w[1..] ==> c in w;
      assert (w + rest)[1..] == w[1..] + rest;
      WordEndOf(w[1..], rest);
    }
  }

  // `s.rstrip(")")`
  function StripParens(s: string): string {
    if s != [] && s[|s| - 1] == ')' then StripParens(s[..|s| - 1]) else s
  }

  // ----- decimal integers -----

  predicate IsDigit(c: char) { '0' <= c <= '9' }

  function Dec(n: nat): (s: string)
    ensures s != [] && forall i :: 0 <= i < |s| ==> IsDigit(s[i])
  {
    var digit := '0' + (n % 10) as char;
    if n < 10 then [digit] else Dec(n / 10) + [digit]
  }

  // The digits of `int(s)`: single underscores may stand between digits.
  function ParseDigits(s: string): Option<nat> {
    if s == [] || !IsDigit(s[|s| - 1]) then None
    else
      var digit, front := s[|s| - 1] as int - '0' as int, s[..|s| - 1];
      if front == [] then Some(digit)
      else
        var higher := if front[|front| - 1] == '_' then ParseDigits(front[..|front| - 1]) else ParseDigits(front);
        if higher.None? then None else Some(higher.value * 10 + digit)
  }

  // `int(s)` on ASCII text
  function ParseInt(text: string): Option<int> {
    ParseTrimmed(Strip(text))
  }

  function ParseTrimmed(s: string): Option<int> {
    if s == [] then None
    else if s[0] == '-' then
      var n := ParseDigits(s[1..]);
      if n.None? then None else Some(0 - n.value as int)
    else if s[0] == '+' then ParseDigits(s[1..])
    else ParseDigits(s)
  }

  lemma {:induction false} ParseDigitsDec(n: nat)
    ensures ParseDigits(Dec(n)) == Some(n)
  {
    if n >= 10 {
      ParseDigitsDec(n / 10);
      var s, front := Dec(n), Dec(n / 10);
      assert s[..|s| - 1] == front && s[|s| - 1] == '0' + (n % 10) as char;
      assert IsDigit(front[|front| - 1]);
    }
  }

  lemma ParseIntOfDigits(s: string)
    requires s != [] && forall i :: 0 <= i < |s| ==> IsDigit(s[i])
    ensures ParseInt(s) == ParseDigits(s)
  {
    assert IsDigit(s[0]) && IsDigit(s[|s| - 1]);
    assert Trimmed(s);
    StripTrims(s);
  }

  /** Reading back a printed number gives the number. */
  lemma ParseIntDec(n: nat)
    ensures ParseInt(Dec(n)) == Some(n)
  {
    ParseDigitsDec(n);
    ParseIntOfDigits(Dec(n));
  }
}
