/**
 The output a terminal tool reports (crates/acp_thread/src/terminal.rs): cut to a
 byte limit at a character boundary and then at a line end.
 */
module Terminal {
  import opened Wrappers
  import opened Utf8

  const NEWLINE: Byte := 10

  lemma NewlineIsEncoded()
    ensures Encode("\n") == [NEWLINE]
  {
    assert "\n"[1..] == "";
  }

  // `str::rfind('\n')`
  function LastNewline(b: seq<Byte>): Option<nat> {
    if b == [] then None
    else if b[|b| - 1] == NEWLINE then Some(|b| - 1)
    else LastNewline(b[..|b| - 1])
  }

  // The last character boundary of `whole` that the limit allows.
  ghost predicate IsLastBoundary(whole: seq<Byte>, limit: nat, end: nat) {
    && end <= limit < |whole|
    && IsBoundary(whole, end)
    && forall i :: end < i <= limit ==> !IsBoundary(whole, i)
  }

  // `cut` is `whole` up to its last newline before `end`, or up to `end` if there is none.
  ghost predicate CutAtLine(whole: seq<Byte>, end: nat, cut: seq<Byte>)
    requires end <= |whole|
  {
    && |cut| <= end && cut == whole[..|cut|]
    && (|cut| < end ==> whole[|cut|] == NEWLINE)
    && (forall i :: |cut| < i < end ==> whole[i] != NEWLINE)
    && (|cut| == end ==> NEWLINE !in cut)
  }

  ghost predicate IsTruncation(whole: seq<Byte>, limit: Option<nat>, cut: seq<Byte>) {
    if limit.Some? && |whole| > limit.value then
      exists end :: IsLastBoundary(whole, limit.value, end) && CutAtLine(whole, end, cut)
    else cut == whole
  }

  /** Text and limit leave only one truncation. */
  lemma TruncationIsUnique(whole: seq<Byte>, limit: Option<nat>, a: seq<Byte>, b: seq<Byte>)
    requires IsTruncation(whole, limit, a) && IsTruncation(whole, limit, b)
    ensures a == b
  {
    if limit.Some? && |whole| > limit.value {
      var x :| IsLastBoundary(whole, limit.value, x) && CutAtLine(whole, x, a);
      var y :| IsLastBoundary(whole, limit.value, y) && CutAtLine(whole, y, b);
      assert x == y;
      assert forall i :: 0 <= i < |a| ==> a[i] == whole[i] && a[i] in a;
      assert forall i :: 0 <= i < |b| ==> b[i] == whole[i] && b[i] in b;
      assert |a| == |b|;
    }
  }

  /** A truncation is the encoding of a prefix of the text, within the limit, and
      shorter than the text exactly when the text exceeded the limit. */
  lemma TruncationIsText(text: string, limit: Option<nat>, cut: seq<Byte>)
    requires IsTruncation(Encode(text), limit, cut)
    ensures exists k :: 0 <= k <= |text| && Encode(text[..k]) == cut
    ensures limit.Some? ==> |cut| <= limit.value
    ensures |cut| < |Encode(text)| <==> limit.Some? && |Encode(text)| > limit.value
  {
    var whole := Encode(text);
    if limit.Some? && |whole| > limit.value {
      var end :| IsLastBoundary(whole, limit.value, end) && CutAtLine(whole, end, cut);
      if |cut| < end {
        AsciiIsBounded(text, |cut|);
      }
      BoundaryIff(text, |cut|);
    } else {
      assert text[..|text|] == text;
    }
  }

  lemma {:induction false} LastNewlineIsLast(b: seq<Byte>)
    ensures var r := LastNewline(b);
            match r
            case None => NEWLINE !in b
            case Some(i) => i < |b| && b[i] == NEWLINE && forall j :: i < j < |b| ==> b[j] != NEWLINE
  {
    if b != [] && b[|b| - 1] != NEWLINE {
      LastNewlineIsLast(b[..|b| - 1]);
      assert b == b[..|b| - 1] + [b[|b| - 1]];
    }
  }

  // The while loop of the truncation; `near` is some boundary below the limit.
  method StepBack(whole: seq<Byte>, limit: nat, ghost near: nat) returns (endIx: nat)
    requires near <= limit && near <= |whole| && IsBoundary(whole, near)
    ensures near <= endIx && (limit < |whole| ==> IsLastBoundary(whole, limit, endIx))
  {
    endIx := if limit < |whole| then limit else |whole|;
    while !IsBoundary(whole, endIx)
      invariant near <= endIx <= limit && endIx <= |whole|
      invariant limit < |whole| ==> forall i :: endIx < i <= limit ==> !IsBoundary(whole, i)
      decreases endIx
    {
      endIx := endIx - 1;
    }
  }

  // Looking for the last newline before `end` cuts there.
  lemma CutsAtLine(whole: seq<Byte>, end: nat)
    requires end <= |whole|
    ensures var newline := LastNewline(whole[..end]);
            && (newline.Some? ==> newline.value < end)
            && CutAtLine(whole, end, whole[..if newline.Some? then newline.value else end])
  {
    var b := whole[..end];
    LastNewlineIsLast(b);
    forall i | 0 <= i < end
      ensures b[i] == whole[i]
    {
    }
    match LastNewline(b)
    case None =>
      forall i | 0 <= i < end
        ensures whole[i] != NEWLINE
      {
        assert b[i] in b;
      }
    case Some(n) =>
  }

  datatype TerminalOutput = TerminalOutput(content: seq<Byte>, originalContentLen: nat)

  class Terminal {
    const outputByteLimit: Option<nat>
    var content: string  // what the inner terminal shows now
    var output: Option<TerminalOutput>
    var sandboxHeld: bool
    ghost var exitText: string  // what it showed when the command exited

    ghost predicate Valid()
      reads this
    {
      output.Some? ==>
        && IsTruncation(Encode(exitText), outputByteLimit, output.value.content)
        && output.value.originalContentLen == |Encode(exitText)|
        && !sandboxHeld
    }

    constructor (limit: Option<nat>, sandboxed: bool)
      ensures Valid() && outputByteLimit == limit && content == "" && output.None?
    {
      outputByteLimit, content, output, sandboxHeld, exitText := limit, "", None, sandboxed, "";
    }

    method Print(more: string)
      requires Valid()
      modifies this`content
      ensures Valid() && content == old(content) + more
    {
      content := content + more;
    }

    method TruncatedOutput() returns (cut: seq<Byte>, originalContentLen: nat, backSteps: nat)
      ensures IsTruncation(Encode(content), outputByteLimit, cut)
      ensures originalContentLen == |Encode(content)|
      ensures backSteps <= 3
    {
      var whole := Encode(content);
      cut, originalContentLen, backSteps := whole, |whole|, 0;
      if outputByteLimit.Some? && |whole| > outputByteLimit.value {
        ghost var near := BoundaryIsNear(content, outputByteLimit.value);
        var endIx := StepBack(whole, outputByteLimit.value, near);
        backSteps := outputByteLimit.value - endIx;
        CutsAtLine(whole, endIx);
        var newline := LastNewline(whole[..endIx]);
        cut := whole[..if newline.Some? then newline.value else endIx];
      }
    }

    method CommandExited()
      requires Valid() && output.None?
      modifies this
      ensures Valid() && output.Some? && exitText == old(content) && content == old(content)
    {
      var cut, originalContentLen, _ := TruncatedOutput();
      output := Some(TerminalOutput(cut, originalContentLen));
      exitText := content;
      sandboxHeld := false;
    }

    // What was shown at the exit, or now if the command is still running.
    ghost function ReportedText(): string
      reads this
    {
      if output.Some? then exitText else content
    }

    method CurrentOutput() returns (shown: seq<Byte>, truncated: bool)
      requires Valid()
      ensures IsTruncation(Encode(ReportedText()), outputByteLimit, shown)
      ensures truncated <==> outputByteLimit.Some? && |Encode(ReportedText())| > outputByteLimit.value
    {
      if output.Some? {
        shown := output.value.content;
        truncated := output.value.originalContentLen > |shown|;
      } else {
        var currentContent, originalLen, _ := TruncatedOutput();
        shown, truncated := currentContent, |currentContent| < originalLen;
      }
      TruncationIsText(ReportedText(), outputByteLimit, shown);
    }
  }
}
