/**
 Upgrading a saved thread from version 0.1.0 (crates/agent/src/legacy_thread.rs):
 tool results move from the user message that carried them onto the message before it.
 */
module ThreadUpgrade {
  import Seqs

  datatype Role = User | Assistant | System

  datatype ToolResult = ToolResult(toolUseId: string, isError: bool, content: string)

  datatype Message = Message(
    id: nat,
    role: Role,
    segments: seq<string>,
    toolUses: seq<string>,
    toolResults: seq<ToolResult>,
    context: string,
    isHidden: bool)

  // A user message that bears tool results.
  predicate BearsResults(m: Message) {
    m.role == User && m.toolResults != []
  }

  function Step(out: seq<Message>, m: Message): seq<Message> {
    if BearsResults(m) && out != [] then
      out[..|out| - 1] + [out[|out| - 1].(toolResults := m.toolResults)]
    else out + [m]
  }

  function Upgrade(ms: seq<Message>): seq<Message> {
    if ms == [] then [] else Step(Upgrade(ms[..|ms| - 1]), ms[|ms| - 1])
  }

  // ----- what should survive -----

  // All tool results, in order.
  function Results(ms: seq<Message>): seq<ToolResult> {
    if ms == [] then [] else Results(ms[..|ms| - 1]) + ms[|ms| - 1].toolResults
  }

  // Everything about a message but its tool results.
  function Bare(m: Message): Message {
    m.(toolResults := [])
  }

  function BareAll(ms: seq<Message>): seq<Message> {
    seq(|ms|, i requires 0 <= i < |ms| => Bare(ms[i]))
  }

  // The first message and the later ones that bear no user results, in order.
  function Kept(ms: seq<Message>): seq<Message> {
    if ms == [] then []
    else
      var front, last := ms[..|ms| - 1], ms[|ms| - 1];
      if BearsResults(last) && front != [] then Kept(front) else Kept(front) + [last]
  }

  predicate NoLaterResults(ms: seq<Message>) {
    forall i :: 1 <= i < |ms| ==> !BearsResults(ms[i])
  }

  // No merge meets a message that has tool results of its own.
  predicate NothingOverwritten(ms: seq<Message>) {
    forall i :: 1 <= i < |ms| && BearsResults(ms[i]) ==> ms[i - 1].toolResults == []
  }

  // Past the first message, no merge starts on a user's message.
  predicate LandsWell(ms: seq<Message>) {
    forall i :: 2 <= i < |ms| && BearsResults(ms[i]) ==> BearsResults(ms[i - 1]) || ms[i - 1].role != User
  }

  // How many tool results the merges drop.
  function Lost(ms: seq<Message>): nat {
    if |ms| <= 1 then 0
    else
      var front, last := ms[..|ms| - 1], ms[|ms| - 1];
      Lost(front) + (if BearsResults(last) then |front[|front| - 1].toolResults| else 0)
  }

  // ----- the fold -----

  lemma StepEnds(out: seq<Message>, m: Message)
    ensures var next := Step(out, m); next != [] && next[|next| - 1].toolResults == m.toolResults
  {
  }

  // The output is never empty on a non-empty input, and its last message has the last message's results.
  lemma LastCarriesResults(ms: seq<Message>)
    requires ms != []
    ensures Upgrade(ms) != []
    ensures Upgrade(ms)[|Upgrade(ms)| - 1].toolResults == ms[|ms| - 1].toolResults
  {
    StepEnds(Upgrade(ms[..|ms| - 1]), ms[|ms| - 1]);
  }

  lemma NeverEmptied(ms: seq<Message>)
    ensures Upgrade(ms) == [] <==> ms == []
  {
    if ms != [] {
      LastCarriesResults(ms);
    }
  }

  lemma ResultsAppend(ms: seq<Message>, m: Message)
    ensures Results(ms + [m]) == Results(ms) + m.toolResults
  {
    assert (ms + [m])[..|ms|] == ms;
  }

  // A merge drops what the last message had and puts the merged results in its place.
  lemma MergeReplaces(out: seq<Message>, m: Message) returns (before: seq<ToolResult>)
    requires BearsResults(m) && out != []
    ensures Results(out) == before + out[|out| - 1].toolResults
    ensures Results(Step(out, m)) == before + m.toolResults
  {
    before := Results(out[..|out| - 1]);
    ResultsAppend(out[..|out| - 1], out[|out| - 1].(toolResults := m.toolResults));
  }

  // What one more message does to the results so far.
  lemma ResultsStep(front: seq<Message>, m: Message) returns (before: seq<ToolResult>)
    ensures if BearsResults(m) && front != [] then
              && Results(Upgrade(front)) == before + front[|front| - 1].toolResults
              && Results(Step(Upgrade(front), m)) == before + m.toolResults
            else
              && Results(Upgrade(front)) == before
              && Results(Step(Upgrade(front), m)) == before + m.toolResults
  {
    NeverEmptied(front);
    if BearsResults(m) && front != [] {
      LastCarriesResults(front);
      before := MergeReplaces(Upgrade(front), m);
    } else {
      before := Results(Upgrade(front));
      ResultsAppend(Upgrade(front), m);
    }
  }

  lemma {:induction false} LostCount(ms: seq<Message>)
    ensures |Results(Upgrade(ms))| + Lost(ms) == |Results(ms)|
  {
    if ms != [] {
      LostCount(ms[..|ms| - 1]);
      var before := ResultsStep(ms[..|ms| - 1], ms[|ms| - 1]);
    }
  }

  lemma {:induction false} NoneLost(ms: seq<Message>)
    requires Lost(ms) == 0
    ensures Results(Upgrade(ms)) == Results(ms)
  {
    if ms != [] {
      var front := ms[..|ms| - 1];
      NoneLost(front);
      var before := ResultsStep(front, ms[|ms| - 1]);
      Seqs.NoMore(before);
    }
  }

  lemma {:induction false} LostIff(ms: seq<Message>)
    ensures Lost(ms) == 0 <==> NothingOverwritten(ms)
  {
    if |ms| > 1 {
      var front := ms[..|ms| - 1];
      LostIff(front);
      assert forall i :: 0 <= i < |front| ==> front[i] == ms[i];
      if NothingOverwritten(front) && (BearsResults(ms[|ms| - 1]) ==> ms[|ms| - 2].toolResults == []) {
        assert NothingOverwritten(ms);
      }
    }
  }

  /** All tool results survive, in order, exactly when no message directly before a merged one has results. */
  lemma ResultsSurviveIff(ms: seq<Message>)
    ensures Results(Upgrade(ms)) == Results(ms) <==> NothingOverwritten(ms)
  {
    LostCount(ms);
    LostIff(ms);
    if Lost(ms) == 0 {
      NoneLost(ms);
    }
  }

  lemma BareAppend(ms: seq<Message>, m: Message)
    ensures BareAll(ms + [m]) == BareAll(ms) + [Bare(m)]
  {
  }

  lemma BareMerge(out: seq<Message>, m: Message)
    requires BearsResults(m) && out != []
    ensures BareAll(Step(out, m)) == BareAll(out)
  {
    BareAppend(out[..|out| - 1], out[|out| - 1]);
    BareAppend(out[..|out| - 1], out[|out| - 1].(toolResults := m.toolResults));
    Seqs.FrontLast(out);
  }

  /** Apart from tool results the output is the input without the merged messages. */
  lemma {:induction false} OthersSurvive(ms: seq<Message>)
    ensures BareAll(Upgrade(ms)) == BareAll(Kept(ms))
  {
    if ms != [] {
      var front, m := ms[..|ms| - 1], ms[|ms| - 1];
      OthersSurvive(front);
      NeverEmptied(front);
      if BearsResults(m) && front != [] {
        BareMerge(Upgrade(front), m);
      } else {
        BareAppend(Upgrade(front), m);
        BareAppend(Kept(front), m);
      }
    }
  }

  // ----- upgrading twice -----

  lemma {:induction false} LengthsCompared(ms: seq<Message>)
    ensures |Upgrade(ms)| <= |ms|
    ensures |Upgrade(ms)| == |ms| ==> NoLaterResults(ms)
  {
    if ms != [] {
      var front, m := ms[..|ms| - 1], ms[|ms| - 1];
      LengthsCompared(front);
      NeverEmptied(front);
      if !(BearsResults(m) && front != []) && |Upgrade(front)| == |front| {
        NoneLater(front, m);
        Seqs.FrontLast(ms);
      }
    }
  }

  lemma NoneLater(front: seq<Message>, m: Message)
    requires NoLaterResults(front) && (front == [] || !BearsResults(m))
    ensures NoLaterResults(front + [m])
  {
  }

  /** Upgrading changes nothing exactly when no later user message bears results. */
  lemma {:induction false} FixedIff(ms: seq<Message>)
    ensures Upgrade(ms) == ms <==> NoLaterResults(ms)
  {
    LengthsCompared(ms);
    if ms != [] && NoLaterResults(ms) {
      var front := ms[..|ms| - 1];
      assert forall i :: 0 <= i < |front| ==> front[i] == ms[i];
      FixedIff(front);
      assert ms == front + [ms[|ms| - 1]];
    }
  }

  // Replacing the last message keeps the rest; what counts is whether it is a later user's.
  lemma MergeLands(out: seq<Message>, m: Message)
    requires BearsResults(m) && out != []
    ensures NoLaterResults(Step(out, m)) <==>
            NoLaterResults(out[..|out| - 1]) && (|out| == 1 || out[|out| - 1].role != User)
  {
    var next := Step(out, m);
    Seqs.TakeOfConcat(out[..|out| - 1], [next[|out| - 1]]);
    NoneLaterSplits(next);
  }

  lemma NoneLaterSplits(ms: seq<Message>)
    requires ms != []
    ensures NoLaterResults(ms) <==>
            NoLaterResults(ms[..|ms| - 1]) && (|ms| == 1 || !BearsResults(ms[|ms| - 1]))
  {
    var front := ms[..|ms| - 1];
    assert forall i :: 0 <= i < |front| ==> front[i] == ms[i];
  }

  lemma LandsWellSplits(ms: seq<Message>)
    requires ms != []
    ensures LandsWell(ms) <==>
            LandsWell(ms[..|ms| - 1]) &&
            (|ms| <= 2 || (BearsResults(ms[|ms| - 1]) ==> BearsResults(ms[|ms| - 2]) || ms[|ms| - 2].role != User))
  {
    var front := ms[..|ms| - 1];
    assert forall i :: 0 <= i < |front| ==> front[i] == ms[i];
  }

  // The last output message: the last input message itself if that was pushed.
  lemma LastPushed(ms: seq<Message>)
    requires ms != [] && (|ms| == 1 || !BearsResults(ms[|ms| - 1]))
    ensures Upgrade(ms) == Upgrade(ms[..|ms| - 1]) + [ms[|ms| - 1]]
    ensures |ms| > 1 ==> |Upgrade(ms)| > 1
  {
    NeverEmptied(ms[..|ms| - 1]);
  }

  /** The upgrade leaves no later user message with results exactly when every run of them comes right
      after the first message or after one that is not a user's. */
  lemma {:induction false} UpgradeSettlesIff(ms: seq<Message>)
    ensures NoLaterResults(Upgrade(ms)) <==> LandsWell(ms)
  {
    if ms != [] {
      var front, m := ms[..|ms| - 1], ms[|ms| - 1];
      UpgradeSettlesIff(front);
      NeverEmptied(front);
      LandsWellSplits(ms);
      var out := Upgrade(front);
      if !BearsResults(m) || front == [] {
        LastPushed(ms);
        Seqs.TakeOfConcat(out, [m]);
        NoneLaterSplits(Upgrade(ms));
      } else {
        MergeLands(out, m);
        NoneLaterSplits(out);
        if |front| > 1 && BearsResults(front[|front| - 1]) {
          LastCarriesResults(front);
        } else {
          LastPushed(front);
        }
      }
    }
  }

  /** So upgrading is idempotent on exactly those threads. */
  lemma UpgradeIsIdempotentIff(ms: seq<Message>)
    ensures Upgrade(Upgrade(ms)) == Upgrade(ms) <==> LandsWell(ms)
  {
    UpgradeSettlesIff(ms);
    FixedIff(Upgrade(ms));
  }

  /** Where every later result message directly follows an assistant message without results, all of it holds. */
  lemma UpgradeConserves(ms: seq<Message>)
    requires forall i :: 1 <= i < |ms| && BearsResults(ms[i]) ==>
               ms[i - 1].role == Assistant && ms[i - 1].toolResults == []
    ensures Results(Upgrade(ms)) == Results(ms)
    ensures BareAll(Upgrade(ms)) == BareAll(Kept(ms))
    ensures NoLaterResults(Upgrade(ms)) && Upgrade(Upgrade(ms)) == Upgrade(ms)
  {
    ResultsSurviveIff(ms);
    OthersSurvive(ms);
    UpgradeSettlesIff(ms);
    UpgradeIsIdempotentIff(ms);
  }

  /** Two result messages in a row: the second overwrites the first. */
  lemma TwoInARowLose(asked: Message, first: Message, second: Message)
    requires asked.role == Assistant && asked.toolResults == [] && BearsResults(first) && BearsResults(second)
    ensures Upgrade([asked, first, second]) == [asked.(toolResults := second.toolResults)]
    ensures Results(Upgrade([asked, first, second])) != Results([asked, first, second])
  {
    var ms := [asked, first, second];
    assert ms[..2] == [asked, first] && ms[..2][..1] == [asked] && [asked][..0] == [];
    assert Upgrade([asked]) == [asked];
    ResultsSurviveIff(ms);
    assert BearsResults(ms[2]) && ms[1].toolResults != [];
  }

  // ----- the code -----

  datatype Thread = Thread(version: string, summary: string, messages: seq<Message>)

  const VERSION := "0.2.0"

  lemma ReplaceLast(out: seq<Message>, last: Message)
    requires out != []
    ensures out[|out| - 1 := last] == out[..|out| - 1] + [last]
  {
  }

  lemma UpgradeNext(ms: seq<Message>, i: nat)
    requires i < |ms|
    ensures Upgrade(ms[..i + 1]) == Step(Upgrade(ms[..i]), ms[i])
  {
    Seqs.TakeTake(ms, i, i + 1);
  }

  method UpgradeThread(saved: Thread) returns (upgraded: Thread)
    ensures upgraded == saved.(version := VERSION, messages := Upgrade(saved.messages))
  {
    var messages: seq<Message> := [];
    for i := 0 to |saved.messages|
      invariant messages == Upgrade(saved.messages[..i])
    {
      var message := saved.messages[i];
      UpgradeNext(saved.messages, i);
      if message.role == User && message.toolResults != [] && messages != [] {
        var last := messages[|messages| - 1].(toolResults := message.toolResults);
        ReplaceLast(messages, last);
        messages := messages[|messages| - 1 := last];
        continue;
      }
      messages := messages + [message];
    }
    Seqs.TakeAll(saved.messages);
    upgraded := saved.(version := VERSION, messages := messages);
  }
}
