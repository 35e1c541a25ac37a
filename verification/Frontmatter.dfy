/**
 Finding where a SKILL.md's YAML frontmatter ends (crates/agent_skills/agent_skills.rs).
 The YAML library is an oracle: it says, of a prefix of the file, whether its
 first document is skill metadata.
 */
module Frontmatter {
  import opened Wrappers
  import opened Utf8
  import Seqs

  const LF: Byte := 10
  const CR: Byte := 13
  const DASHES: seq<Byte> := [45, 45, 45]

  datatype Yaml<M, E> = NoDocument | Document(metadata: M) | Malformed(error: E)

  datatype ExtractError<E> = MissingOpener | MissingCloser | InvalidYaml(last: Option<E>)

  // The Unicode White_Space characters.
  predicate IsWhitespace(c: char) {
    var n := c as int;
    9 <= n <= 13 || n in {0x20, 0x85, 0xA0, 0x1680, 0x2028, 0x2029, 0x202F, 0x205F, 0x3000} || 0x2000 <= n <= 0x200A
  }

  // `str::trim_start`
  function TrimStart(s: string): string {
    if s != [] && IsWhitespace(s[0]) then TrimStart(s[1..]) else s
  }

  // ----- the lines of the file -----

  // Where the line that position `i` is on ends: after its LF, or at the end of input.
  function NextStart(b: seq<Byte>, i: nat): (r: nat)
    requires i <= |b|
    ensures i <= r <= |b| && (i < |b| ==> i < r)
    decreases |b| - i
  {
    if i == |b| then i else if b[i] == LF then i + 1 else NextStart(b, i + 1)
  }

  predicate ClosingLine(line: seq<Byte>) {
    line == DASHES || line == DASHES + [LF] || line == DASHES + [CR, LF]
  }

  // The ends of the closing lines among those from `start` on.
  function Closers(b: seq<Byte>, start: nat): (r: seq<nat>)
    requires start <= |b|
    ensures forall k :: 0 <= k < |r| ==> start < r[k] <= |b|
    decreases |b| - start
  {
    if start == |b| then []
    else
      var end := NextStart(b, start);
      (if ClosingLine(b[start..end]) then [end] else []) + Closers(b, end)
  }

  // All but the first line count.
  function ClosingEnds(b: seq<Byte>): (r: seq<nat>)
    ensures forall k :: 0 <= k < |r| ==> r[k] <= |b|
  {
    Closers(b, NextStart(b, 0))
  }

  // `b[start..end]` is a whole line other than the first, and it closes.
  ghost predicate ClosesAt(b: seq<Byte>, start: nat, end: nat) {
    && 0 < start < end <= |b|
    && b[start - 1] == LF
    && (end == |b| || b[end - 1] == LF)
    && ClosingLine(b[start..end])
  }

  lemma {:induction false} NextStartIsFirstLf(b: seq<Byte>, i: nat)
    requires i <= |b|
    ensures var e := NextStart(b, i);
            && (forall j :: i <= j < e - 1 ==> b[j] != LF)
            && (i < e < |b| ==> b[e - 1] == LF)
            && (i < e ==> b[e - 1] == LF || e == |b|)
    decreases |b| - i
  {
    if i < |b| && b[i] != LF {
      NextStartIsFirstLf(b, i + 1);
    }
  }

  lemma {:induction false} CloserIsClosingLine(b: seq<Byte>, start: nat, e: nat)
    requires 0 < start <= |b| && (start == |b| || b[start - 1] == LF)
    ensures e in Closers(b, start) <==> exists s: nat :: start <= s && ClosesAt(b, s, e)
    decreases |b| - start
  {
    if start < |b| {
      var end := NextStart(b, start);
      NextStartIsFirstLf(b, start);
      CloserIsClosingLine(b, end, e);
      ClosingHere(b, start, e);
      if s: nat :| start <= s < end && ClosesAt(b, s, e) {
        assert s == start;
      }
    }
  }

  lemma ClosingHere(b: seq<Byte>, start: nat, e: nat)
    requires 0 < start < |b| && b[start - 1] == LF
    ensures ClosesAt(b, start, e) <==> e == NextStart(b, start) && ClosingLine(b[start..NextStart(b, start)])
  {
    NextStartIsFirstLf(b, start);
    if ClosesAt(b, start, e) {
      ClosingLineIsWhole(b, start, e);
    }
  }

  // A closing line reaches exactly to where its line ends.
  lemma ClosingLineIsWhole(b: seq<Byte>, start: nat, e: nat)
    requires ClosesAt(b, start, e)
    ensures NextStart(b, start) == e
  {
    NextStartIsFirstLf(b, start);
    forall j | start <= j < e - 1
      ensures b[j] != LF
    {
      assert b[start..e][j - start] == b[j];
    }
  }

  lemma {:induction false} ClosersAscend(b: seq<Byte>, start: nat)
    requires start <= |b|
    ensures forall k, l :: 0 <= k < l < |Closers(b, start)| ==> Closers(b, start)[k] < Closers(b, start)[l]
    decreases |b| - start
  {
    if start < |b| {
      ClosersAscend(b, NextStart(b, start));
    }
  }

  /** The candidates are, in order, exactly the ends of the later lines that close. */
  lemma ClosingEndsAreExact(b: seq<Byte>)
    ensures forall e :: e in ClosingEnds(b) <==> exists s: nat :: ClosesAt(b, s, e)
    ensures forall k, l :: 0 <= k < l < |ClosingEnds(b)| ==> ClosingEnds(b)[k] < ClosingEnds(b)[l]
  {
    var start := NextStart(b, 0);
    ClosersAscend(b, start);
    NextStartIsFirstLf(b, 0);
    forall e
      ensures e in ClosingEnds(b) <==> exists s: nat :: ClosesAt(b, s, e)
    {
      if start > 0 && b[start - 1] == LF {
        CloserIsClosingLine(b, start, e);
        if s: nat :| ClosesAt(b, s, e) {
          assert start <= s;
        }
      }
    }
  }

  /** Said of the bytes: a later line closes exactly if it is three hyphens and then LF, CR LF or the end of input. */
  lemma ClosesAtBytes(b: seq<Byte>, start: nat, e: nat)
    ensures ClosesAt(b, start, e) <==>
            && 0 < start && start + 3 <= |b| && b[start - 1] == 10
            && b[start] == 45 && b[start + 1] == 45 && b[start + 2] == 45
            && (|| (e == start + 3 && e == |b|)
                || (e == start + 4 && e <= |b| && b[start + 3] == 10)
                || (e == start + 5 && e <= |b| && b[start + 3] == 13 && b[start + 4] == 10))
    ensures Encode("-") == [45] && Encode("\n") == [10] && Encode("\r") == [13]
  {
    assert "-"[1..] == "" && "\n"[1..] == "" && "\r"[1..] == "";
    if start < e <= |b| {
      var line := b[start..e];
      assert forall j :: 0 <= j < |line| ==> line[j] == b[start + j];
      if ClosesAt(b, start, e) && line == DASHES {
        assert b[e - 1] == line[2] == 45;
      }
      if |line| == 3 && line[0] == 45 && line[1] == 45 && line[2] == 45 {
        assert line == DASHES;
      }
      if |line| == 4 && line[0] == 45 && line[1] == 45 && line[2] == 45 && line[3] == 10 {
        assert line == DASHES + [LF];
      }
      if |line| == 5 && line[0] == 45 && line[1] == 45 && line[2] == 45 && line[3] == 13 && line[4] == 10 {
        assert line == DASHES + [CR, LF];
      }
    }
  }

  lemma ClosingLineIsAscii(b: seq<Byte>, start: nat, e: nat)
    requires ClosesAt(b, start, e)
    ensures b[e - 1] < 0x80
  {
    var line := b[start..e];
    assert line[|line| - 1] == b[e - 1];
  }

  // `prefix` and `body` make up `text`, and the cut between them is at byte `e`.
  ghost predicate PartAt(text: string, e: nat, prefix: string, body: string)
    requires e <= |Encode(text)|
  {
    prefix + body == text && Encode(prefix) == Encode(text)[..e] && Encode(body) == Encode(text)[e..]
  }

  /** Every candidate cuts the text between two characters: prefix and body are texts that make it up. */
  lemma CandidatesCutCharacters(text: string, e: nat) returns (prefix: string, body: string)
    requires e in ClosingEnds(Encode(text))
    ensures e <= |Encode(text)| && PartAt(text, e, prefix, body)
  {
    ClosingEndsAreExact(Encode(text));
    var s: nat :| ClosesAt(Encode(text), s, e);
    ClosingLineIsAscii(Encode(text), s, e);
    AsciiIsBounded(text, e - 1);
    BoundaryIff(text, e);
    var k :| 0 <= k <= |text| && Encode(text[..k]) == Encode(text)[..e] && Encode(text[k..]) == Encode(text)[e..];
    prefix, body := text[..k], text[k..];
    Seqs.SplitAt(text, k);
  }

  // ----- the code -----

  // What the scan sees after a newline at `lineStart - 1`.
  lemma PeekIsClosing(b: seq<Byte>, lineStart: nat)
    requires lineStart <= |b|
    ensures var after := lineStart + 3;
            var end := NextStart(b, lineStart);
            if after > |b| || b[lineStart..after] != DASHES then lineStart == |b| || !ClosingLine(b[lineStart..end])
            else if after == |b| then end == after && ClosingLine(b[lineStart..end])
            else if b[after] == LF then end == after + 1 && ClosingLine(b[lineStart..end])
            else if after + 1 < |b| && b[after] == CR && b[after + 1] == LF then
              end == after + 2 && ClosingLine(b[lineStart..end])
            else !ClosingLine(b[lineStart..end])
  {
    var after := lineStart + 3;
    var end := NextStart(b, lineStart);
    var line := b[lineStart..end];
    NextStartIsFirstLf(b, lineStart);
    if ClosingLine(line) {
      assert line[..3] == DASHES;
      assert b[lineStart..after] == line[..3];
      assert forall j :: 0 <= j < |line| ==> line[j] == b[lineStart + j];
    }
    if after <= |b| && b[lineStart..after] == DASHES {
      assert forall j :: 0 <= j < 3 ==> b[lineStart + j] == b[lineStart..after][j];
      assert end >= after;
      if after == |b| {
        assert line == DASHES;
      } else if b[after] == LF {
        assert line == DASHES + [LF];
      } else if after + 1 < |b| && b[after] == CR && b[after + 1] == LF {
        assert line == DASHES + [CR, LF];
      }
    }
  }

  // The end of the line starting at `lineStart`, if it closes.
  function CloserHere(b: seq<Byte>, lineStart: nat): Option<nat>
    requires lineStart <= |b|
  {
    var end := NextStart(b, lineStart);
    if lineStart < |b| && ClosingLine(b[lineStart..end]) then Some(end) else None
  }

  // The part of the loop body that looks at the line after a newline.
  method Peek(b: seq<Byte>, lineStart: nat) returns (end: Option<nat>)
    requires lineStart <= |b|
    ensures end == CloserHere(b, lineStart)
  {
    PeekIsClosing(b, lineStart);
    if lineStart + 3 > |b| {
      return None;
    }
    if b[lineStart..lineStart + 3] != DASHES {
      return None;
    }
    var afterDashes := lineStart + 3;
    if afterDashes == |b| {
      end := Some(afterDashes);
    } else if b[afterDashes] == LF {
      end := Some(afterDashes + 1);
    } else if afterDashes + 1 < |b| && b[afterDashes] == CR && b[afterDashes + 1] == LF {
      end := Some(afterDashes + 2);
    } else {
      end := None;
    }
  }

  lemma ScanStepAppends(b: seq<Byte>, i: nat, candidates: seq<nat>)
    requires i < |b|
    ensures candidates + Closers(b, NextStart(b, i)) ==
            candidates + (if b[i] == LF && CloserHere(b, i + 1).Some? then [CloserHere(b, i + 1).value] else []) +
            Closers(b, NextStart(b, i + 1))
  {
  }

  method ScanCandidates(b: seq<Byte>) returns (candidates: seq<nat>)
    ensures candidates == ClosingEnds(b)
  {
    candidates := [];
    ghost var all := ClosingEnds(b);
    for i := 0 to |b|
      invariant candidates + Closers(b, NextStart(b, i)) == all
    {
      ScanStepAppends(b, i, candidates);
      if b[i] != LF {
        assert candidates + [] == candidates;
        continue;
      }
      var end := Peek(b, i + 1);
      if end.None? {
        assert candidates + [] == candidates;
        continue;
      }
      candidates := candidates + [end.value];
    }
    assert Closers(b, NextStart(b, |b|)) == [];
  }

  // What the oracle makes of the prefix up to each candidate.
  function Attempts<M, E>(b: seq<Byte>, yaml: seq<Byte> -> Yaml<M, E>): (r: seq<Yaml<M, E>>)
    ensures |r| == |ClosingEnds(b)|
  {
    var ends := ClosingEnds(b);
    seq(|ends|, k requires 0 <= k < |ends| => yaml(b[..ends[k]]))
  }

  ghost predicate FirstDocument<M, E>(attempts: seq<Yaml<M, E>>, k: nat) {
    k < |attempts| && attempts[k].Document? && forall j :: 0 <= j < k ==> !attempts[j].Document?
  }

  // The error of the last malformed attempt.
  function LastError<M, E>(attempts: seq<Yaml<M, E>>): Option<E> {
    if attempts == [] then None
    else if attempts[|attempts| - 1].Malformed? then Some(attempts[|attempts| - 1].error)
    else LastError(attempts[..|attempts| - 1])
  }

  /** The error kept is that of the last attempt that found malformed YAML. */
  lemma {:induction false} LastErrorIsLast<M, E>(attempts: seq<Yaml<M, E>>)
    ensures match LastError(attempts)
            case None => forall k :: 0 <= k < |attempts| ==> !attempts[k].Malformed?
            case Some(e) => exists k :: 0 <= k < |attempts| && attempts[k] == Malformed(e) &&
                              forall j :: k < j < |attempts| ==> !attempts[j].Malformed?
  {
    if attempts != [] && !attempts[|attempts| - 1].Malformed? {
      LastErrorIsLast(attempts[..|attempts| - 1]);
    }
  }

  lemma LastErrorNext<M, E>(attempts: seq<Yaml<M, E>>, k: nat)
    requires k < |attempts|
    ensures LastError(attempts[..k + 1]) ==
            if attempts[k].Malformed? then Some(attempts[k].error) else LastError(attempts[..k])
  {
    Seqs.TakeTake(attempts, k, k + 1);
  }

  predicate Opens(b: seq<Byte>) {
    |b| >= 3 && b[..3] == DASHES
  }

  method ExtractFrontmatter<M, E>(content: string, yaml: seq<Byte> -> Yaml<M, E>)
    returns (r: Result<(M, seq<Byte>), ExtractError<E>>)
    ensures var b := Encode(TrimStart(content));
            var ends, attempts := ClosingEnds(b), Attempts(b, yaml);
            match r
            case Ok((metadata, body)) =>
              Opens(b) &&
              exists k: nat :: FirstDocument(attempts, k) && attempts[k] == Document(metadata) && body == b[ends[k]..]
            case Err(MissingOpener) => !Opens(b)
            case Err(MissingCloser) => Opens(b) && ends == []
            case Err(InvalidYaml(last)) =>
              Opens(b) && ends != [] && (forall k: nat :: !FirstDocument(attempts, k)) && last == LastError(attempts)
  {
    var bytes := Encode(TrimStart(content));
    if !Opens(bytes) {
      return Err(MissingOpener);
    }
    var candidates := ScanCandidates(bytes);
    if candidates == [] {
      return Err(MissingCloser);
    }
    r := TryCandidates(bytes, candidates, yaml);
  }

  method TryCandidates<M, E>(bytes: seq<Byte>, candidates: seq<nat>, yaml: seq<Byte> -> Yaml<M, E>)
    returns (r: Result<(M, seq<Byte>), ExtractError<E>>)
    requires candidates == ClosingEnds(bytes)
    ensures match r
            case Ok((metadata, body)) =>
              exists k: nat :: FirstDocument(Attempts(bytes, yaml), k) &&
                Attempts(bytes, yaml)[k] == Document(metadata) && body == bytes[candidates[k]..]
            case Err(InvalidYaml(last)) =>
              (forall k: nat :: !FirstDocument(Attempts(bytes, yaml), k)) && last == LastError(Attempts(bytes, yaml))
            case Err(_) => false
  {
    var lastError: Option<E> := None;
    ghost var attempts := Attempts(bytes, yaml);
    for k := 0 to |candidates|
      invariant forall j :: 0 <= j < k ==> !attempts[j].Document?
      invariant lastError == LastError(attempts[..k])
    {
      var end := candidates[k];
      LastErrorNext(attempts, k);
      match yaml(bytes[..end]) {
        case NoDocument =>
        case Document(metadata) =>
          assert FirstDocument(attempts, k);
          return Ok((metadata, bytes[end..]));
        case Malformed(error) => lastError := Some(error);
      }
    }
    Seqs.TakeAll(attempts);
    return Err(InvalidYaml(lastError));
  }
}
