/**
 The slugifier as its documentation describes it, step by step
 (crates/agent_skills/agent_skills.rs): the same slugs.
 */
module SlugSteps {
  import opened Slug
  import Seqs

  // Steps 2 to 4, on one character: lower case, a hyphen for a space, nothing for the rest.
  function Mapped(c: char): string {
    if 'A' <= c <= 'Z' then [(c as int + 32) as char]
    else if 'a' <= c <= 'z' || '0' <= c <= '9' then [c]
    else if c == ' ' || c == '-' then "-"
    else ""
  }

  function MapAll(s: string): string {
    if s == [] then "" else MapAll(s[..|s| - 1]) + Mapped(s[|s| - 1])
  }

  // Step 5: of a run of hyphens the first stays.
  function Collapse(s: string): string {
    if s == [] then ""
    else
      var front, last := s[..|s| - 1], s[|s| - 1];
      Collapse(front) + (if last == '-' && front != [] && front[|front| - 1] == '-' then "" else [last])
  }

  // Step 6.
  function TrimLead(s: string): string {
    if s != [] && s[0] == '-' then TrimLead(s[1..]) else s
  }

  function TrimTail(s: string): string {
    if s != [] && s[|s| - 1] == '-' then TrimTail(s[..|s| - 1]) else s
  }

  // All seven, from the replacement of '&' to the cut.
  function Documented(input: string): string {
    var trimmed := TrimTail(TrimLead(Collapse(MapAll(ReplaceAmpersands(input)))));
    if |trimmed| <= 64 then trimmed else TrimTail(trimmed[..64])
  }

  // ----- the steps build the draft -----

  predicate EndsInHyphen(s: string) {
    s != [] && s[|s| - 1] == '-'
  }

  lemma MapAllAppend(s: string, c: char)
    ensures MapAll(s + [c]) == MapAll(s) + Mapped(c)
  {
    Seqs.TakeOfConcat(s, [c]);
  }

  lemma CollapseAppend(s: string, c: char)
    ensures Collapse(s + [c]) == Collapse(s) + (if c == '-' && EndsInHyphen(s) then "" else [c])
  {
    Seqs.TakeOfConcat(s, [c]);
  }

  lemma {:induction false} CollapseEnds(s: string)
    ensures Collapse(s) == [] <==> s == []
    ensures EndsInHyphen(Collapse(s)) <==> EndsInHyphen(s)
  {
    if s != [] {
      var front, last := s[..|s| - 1], s[|s| - 1];
      CollapseEnds(front);
      Seqs.NoMore(Collapse(front));
    }
  }

  // What is trimmed of `s` is trimmed of `s` and one more character, unless that is all there is.
  lemma {:induction false} TrimLeadAppend(s: string, c: char)
    ensures TrimLead(s + [c]) == if TrimLead(s) == [] && c == '-' then [] else TrimLead(s) + [c]
  {
    if s != [] && s[0] == '-' {
      TrimLeadAppend(s[1..], c);
      Seqs.TailOfConcat(s, [c]);
    } else if s == [] {
      Seqs.NoMore([c]);
      assert [c][1..] == [];
    }
  }

  // Trimming leaves nothing of a text that has one hyphen or nothing at all.
  lemma {:induction false} TrimmedAwayIff(s: string)
    ensures TrimLead(s) == [] <==> forall i :: 0 <= i < |s| ==> s[i] == '-'
  {
    if s != [] && s[0] == '-' {
      TrimmedAwayIff(s[1..]);
      assert forall i :: 0 < i < |s| ==> s[i] == s[1..][i - 1];
    }
  }

  // One more character that is not dropped, and what it adds to the steps' result.
  lemma StepsOn(before: string, m: char)
    ensures var so := TrimLead(Collapse(before));
            TrimLead(Collapse(before + [m])) == if m == '-' && (EndsInHyphen(before) || so == []) then so else so + [m]
  {
    CollapseAppend(before, m);
    TrimLeadAppend(Collapse(before), m);
    Seqs.NoMore(Collapse(before));
  }

  lemma StepsNext(t: string, c: char)
    ensures var before := MapAll(t);
            var so := TrimLead(Collapse(before));
            TrimLead(Collapse(MapAll(t + [c]))) ==
            if IsAlnum(c) then so + [ToLower(c)]
            else if IsSeparator(c) && !EndsInHyphen(before) && so != [] then so + ['-']
            else so
    ensures EndsInHyphen(MapAll(t + [c])) <==> if IsAlnum(c) then false else IsSeparator(c) || EndsInHyphen(MapAll(t))
  {
    MapAllAppend(t, c);
    MappedIs(c);
    Seqs.NoMore(MapAll(t));
    if IsAlnum(c) {
      StepsOn(MapAll(t), ToLower(c));
    } else if IsSeparator(c) {
      StepsOn(MapAll(t), '-');
    }
  }

  lemma MappedIs(c: char)
    ensures Mapped(c) == if IsAlnum(c) then [ToLower(c)] else if IsSeparator(c) then "-" else ""
    ensures IsAlnum(c) ==> ToLower(c) != '-'
  {
  }

  // The draft after some characters, whether a separator is waiting, and whether there is nothing yet.
  ghost predicate Agrees(t: string) {
    var pieces, steps := Pieces(t), MapAll(t);
    && Draft(pieces) == TrimLead(Collapse(steps))
    && (Waiting(pieces) <==> EndsInHyphen(steps) || Draft(pieces) == [])
  }

  lemma EmptyAgrees()
    ensures Agrees([])
  {
    assert Pieces([]) == [] + [[]];
    WordsAppend([], []);
  }

  lemma AgreesNext(t: string, c: char)
    requires Agrees(t) && c != '&'
    ensures Agrees(t + [c])
  {
    PiecesAppend(t, c);
    DraftStep(Pieces(t), c);
    StepsNext(t, c);
    Seqs.NoMore(Draft(Pieces(t)));
    if Draft(Pieces(t + [c])) == [] {
      NothingWaits(Pieces(t + [c]));
    }
  }

  // A draft that is empty waits for its first word.
  lemma NothingWaits(pieces: seq<string>)
    requires pieces != [] && Draft(pieces) == []
    ensures Waiting(pieces)
  {
    var front, last := pieces[..|pieces| - 1], pieces[|pieces| - 1];
    Seqs.FrontLast(pieces);
    DraftAs(front, last);
  }

  lemma {:induction false} AllAgrees(s: string)
    requires forall i :: 0 <= i < |s| ==> s[i] != '&'
    ensures Agrees(s)
  {
    if s == [] {
      EmptyAgrees();
    } else {
      var front, last := s[..|s| - 1], s[|s| - 1];
      AllAgrees(front);
      AgreesNext(front, last);
      Seqs.FrontLast(s);
    }
  }

  lemma TrimTailOnce(s: string)
    requires !EndsInHyphen(DropTrailingHyphen(s))
    ensures TrimTail(s) == DropTrailingHyphen(s)
  {
  }

  /** The slug is what the documented steps give: "&" becomes "and" between hyphens, letters become lower case, spaces
      hyphens, other characters go, runs of hyphens shrink to one, outer hyphens go, and the rest is cut to 64. */
  lemma SlugFollowsTheSteps(input: string)
    ensures SlugOf(input) == Documented(input)
  {
    var replaced := ReplaceAmpersands(input);
    NoAmpersand(input);
    AllAgrees(replaced);
    ReplacingKeepsPieces(input);
    DraftTrimmed(Pieces(input));
    var full := Join(Words(Pieces(input)));
    TrimTailOnce(Draft(Pieces(input)));
    assert full == TrimTail(TrimLead(Collapse(MapAll(replaced))));
    if |full| > 64 {
      var cut := full[..64];
      assert !EndsInHyphen(DropTrailingHyphen(cut)) by {
        assert cut[63] == full[63] && cut[62] == full[62];
      }
      TrimTailOnce(cut);
    }
  }

  lemma ReplacedNext(s: string, c: char)
    ensures ReplaceAmpersands(s + [c]) == ReplaceAmpersands(s) + (if c == '&' then "-and-" else [c])
  {
    Seqs.TakeOfConcat(s, [c]);
  }

  // An example of the repository's tests.
  lemma AtAndT()
    ensures ReplaceAmpersands("AT&T") == "AT-and-T"
  {
    ReplacedNext("", 'A');
    ReplacedNext("A", 'T');
    ReplacedNext("AT", '&');
    ReplacedNext("AT&", 'T');
    assert "" + ['A'] == "A" && "A" + ['T'] == "AT" && "AT" + ['&'] == "AT&" && "AT&" + ['T'] == "AT&T";
    assert "AT" + "-and-" + ['T'] == "AT-and-T";
  }
}
