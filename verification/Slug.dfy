/**
 Skill names (crates/agent_skills/agent_skills.rs): the slugifier loop, what it
 should compute said without a loop, and the name validator.
 */
module Slug {
  import opened Wrappers
  import Seqs

  const MAX_SKILL_NAME_LEN := 64

  predicate IsLower(c: char) { 'a' <= c <= 'z' }
  predicate IsUpper(c: char) { 'A' <= c <= 'Z' }
  predicate IsDigit(c: char) { '0' <= c <= '9' }
  predicate IsAlnum(c: char) { IsLower(c) || IsUpper(c) || IsDigit(c) }
  predicate IsSeparator(c: char) { c == ' ' || c == '-' }

  function ToLower(c: char): char {
    if IsUpper(c) then c - 'A' + 'a' else c
  }

  // ----- the specification: words, joined -----

  // The pieces of `s` between separators, with each '&' a piece "and" of its own.
  function Pieces(s: string): (r: seq<string>)
    ensures r != []
  {
    if s == [] then [[]]
    else Extend(Pieces(s[..|s| - 1]), s[|s| - 1])
  }

  // The pieces after one more character.
  function Extend(before: seq<string>, c: char): (r: seq<string>)
    requires before != []
    ensures r != []
  {
    if IsSeparator(c) then before + [[]]
    else if c == '&' then before + ["and"] + [[]]
    else before[..|before| - 1] + [before[|before| - 1] + [c]]
  }

  // Only the ASCII letters and digits of `s`, in lower case.
  function Clean(s: string): string {
    if s == [] then []
    else Clean(s[..|s| - 1]) + (if IsAlnum(s[|s| - 1]) then [ToLower(s[|s| - 1])] else [])
  }

  function Words(pieces: seq<string>): seq<string> {
    if pieces == [] then []
    else
      var last := Clean(pieces[|pieces| - 1]);
      Words(pieces[..|pieces| - 1]) + (if last == [] then [] else [last])
  }

  function Join(words: seq<string>): string {
    if words == [] then []
    else if |words| == 1 then words[0]
    else Join(words[..|words| - 1]) + "-" + words[|words| - 1]
  }

  function DropTrailingHyphen(s: string): string {
    if s != [] && s[|s| - 1] == '-' then s[..|s| - 1] else s
  }

  function Shorten(s: string): string {
    if |s| <= MAX_SKILL_NAME_LEN then s else DropTrailingHyphen(s[..MAX_SKILL_NAME_LEN])
  }

  function SlugOf(input: string): string {
    Shorten(Join(Words(Pieces(input))))
  }

  // ----- what every join looks like -----

  predicate SlugChar(c: char) {
    IsLower(c) || IsDigit(c) || c == '-'
  }

  // Lower-case letters, digits and single inner hyphens.
  ghost predicate WellHyphenated(s: string) {
    && (forall i :: 0 <= i < |s| ==> SlugChar(s[i]))
    && (forall i :: 0 <= i < |s| - 1 ==> s[i] != '-' || s[i + 1] != '-')
    && (s != [] ==> s[0] != '-' && s[|s| - 1] != '-')
  }

  lemma {:induction false} CleanIsPlain(s: string)
    ensures forall i :: 0 <= i < |Clean(s)| ==> SlugChar(Clean(s)[i]) && Clean(s)[i] != '-'
  {
    if s != [] {
      CleanIsPlain(s[..|s| - 1]);
    }
  }

  ghost predicate PlainWords(words: seq<string>) {
    forall k, i :: 0 <= k < |words| && 0 <= i < |words[k]| ==> SlugChar(words[k][i]) && words[k][i] != '-'
  }

  lemma {:induction false} WordsArePlain(pieces: seq<string>)
    ensures PlainWords(Words(pieces)) && forall w :: w in Words(pieces) ==> w != []
  {
    if pieces != [] {
      WordsArePlain(pieces[..|pieces| - 1]);
      CleanIsPlain(pieces[|pieces| - 1]);
    }
  }

  lemma {:induction false} JoinIsWellHyphenated(words: seq<string>)
    requires PlainWords(words) && forall w :: w in words ==> w != []
    ensures WellHyphenated(Join(words)) && (words != [] ==> Join(words) != [])
  {
    if |words| == 1 {
      assert words[0] in words;
    } else if words != [] {
      var front := words[..|words| - 1];
      assert forall w :: w in front ==> w in words;
      assert forall k :: 0 <= k < |front| ==> front[k] == words[k];
      JoinIsWellHyphenated(front);
      assert words[|words| - 1] in words;
    }
  }

  lemma SlugIsWellHyphenated(input: string)
    ensures WellHyphenated(SlugOf(input)) && |SlugOf(input)| <= MAX_SKILL_NAME_LEN
    ensures SlugOf(input) == [] <==> Words(Pieces(input)) == []
  {
    WordsArePlain(Pieces(input));
    JoinIsWellHyphenated(Words(Pieces(input)));
  }

  // ----- when there is no slug -----

  predicate Meaningful(c: char) {
    IsAlnum(c) || c == '&'
  }

  // One more character leaves no words just when there were none and it means nothing.
  lemma ExtendNoWords(before: seq<string>, c: char)
    requires before != []
    ensures Words(Extend(before, c)) == [] <==> Words(before) == [] && !Meaningful(c)
  {
    var front, last := before[..|before| - 1], before[|before| - 1];
    assert before == front + [last];
    if IsSeparator(c) {
      WordsAppend(before, []);
    } else if c == '&' {
      WordsAppend(before + ["and"], []);
      WordsAppend(before, "and");
      CleanOfPlain("and");
    } else {
      WordsAppend(front, last + [c]);
      WordsAppend(front, last);
    }
  }

  lemma {:induction false} NoWordsIff(s: string)
    ensures Words(Pieces(s)) == [] <==> forall i :: 0 <= i < |s| ==> !Meaningful(s[i])
  {
    if s == [] {
      WordsAppend([], []);
      assert Pieces(s) == [] + [[]];
    } else {
      var t, c := s[..|s| - 1], s[|s| - 1];
      NoWordsIff(t);
      ExtendNoWords(Pieces(t), c);
      assert forall i :: 0 <= i < |t| ==> t[i] == s[i];
    }
  }

  lemma WordsAppend(pieces: seq<string>, p: string)
    ensures Words(pieces + [p]) == Words(pieces) + (if Clean(p) == [] then [] else [Clean(p)])
  {
    assert (pieces + [p])[..|pieces|] == pieces;
  }

  lemma {:induction false} CleanOfPlain(s: string)
    requires forall i :: 0 <= i < |s| ==> IsLower(s[i]) || IsDigit(s[i])
    ensures Clean(s) == s
  {
    if s != [] {
      CleanOfPlain(s[..|s| - 1]);
      assert s == s[..|s| - 1] + [s[|s| - 1]];
    }
  }

  // ----- the loop -----

  // `str::replace('&', "-and-")`.
  function ReplaceAmpersands(s: string): string {
    if s == [] then []
    else ReplaceAmpersands(s[..|s| - 1]) + (if s[|s| - 1] == '&' then "-and-" else [s[|s| - 1]])
  }

  lemma PiecesAppend(s: string, c: char)
    ensures Pieces(s + [c]) == Extend(Pieces(s), c)
  {
    assert (s + [c])[..|s|] == s;
  }

  lemma ExtendLast(front: seq<string>, last: string, c: char)
    requires !IsSeparator(c) && c != '&'
    ensures Extend(front + [last], c) == front + [last + [c]]
  {
    assert (front + [last])[..|front|] == front;
  }

  lemma PiecesOfAnd(s: string)
    ensures Pieces(s + "-and-") == Pieces(s) + ["and"] + [[]]
  {
    var before := Pieces(s);
    var s1 := s + "-";
    var s2 := s1 + "a";
    var s3 := s2 + "n";
    var s4 := s3 + "d";
    PiecesAppend(s, '-');
    PiecesAppend(s1, 'a');
    ExtendLast(before, "", 'a');
    PiecesAppend(s2, 'n');
    ExtendLast(before, "a", 'n');
    PiecesAppend(s3, 'd');
    ExtendLast(before, "an", 'd');
    PiecesAppend(s4, '-');
    AndSpelled(s);
  }

  lemma AndSpelled(s: string)
    ensures s + "-" + "a" + "n" + "d" + "-" == s + "-and-"
    ensures "" + "a" == "a" && "a" + "n" == "an" && "an" + "d" == "and"
  {
  }

  /** Replacing '&' first gives the same pieces as splitting at it. */
  lemma {:induction false} ReplacingKeepsPieces(s: string)
    ensures Pieces(ReplaceAmpersands(s)) == Pieces(s)
  {
    if s != [] {
      var t, c := s[..|s| - 1], s[|s| - 1];
      ReplacingKeepsPieces(t);
      if c == '&' {
        PiecesOfAnd(ReplaceAmpersands(t));
      } else {
        PiecesAppend(ReplaceAmpersands(t), c);
      }
    }
  }

  // The slug under construction: the words so far, and a hyphen after them once
  // a separator has followed.
  function Draft(pieces: seq<string>): string
    requires pieces != []
  {
    var words := Words(pieces);
    if words != [] && Clean(pieces[|pieces| - 1]) == [] then Join(words) + "-" else Join(words)
  }

  lemma JoinAppend(words: seq<string>, w: string)
    ensures Join(words + [w]) == if words == [] then w else Join(words) + "-" + w
  {
    assert (words + [w])[..|words|] == words;
  }

  // A separator was read last, or nothing that counts yet.
  predicate Waiting(pieces: seq<string>)
    requires pieces != []
  {
    Clean(pieces[|pieces| - 1]) == []
  }

  lemma DraftAs(front: seq<string>, last: string)
    ensures Draft(front + [last]) == (if Words(front) == [] then "" else Join(Words(front)) + "-") + Clean(last)
  {
    var pieces, done, word := front + [last], Words(front), Clean(last);
    WordsAppend(front, last);
    assert pieces[|pieces| - 1] == last;
    if word == [] {
      assert Words(pieces) == done;
    } else {
      assert Words(pieces) == done + [word];
      JoinAppend(done, word);
    }
  }

  // Reading one more character of the replaced input.
  lemma DraftStep(before: seq<string>, c: char)
    requires before != [] && c != '&'
    ensures var now := Extend(before, c);
            && Draft(now) == Draft(before) +
                 (if IsAlnum(c) then [ToLower(c)] else if IsSeparator(c) && !Waiting(before) then "-" else [])
            && (Waiting(now) <==> if IsAlnum(c) then false else IsSeparator(c) || Waiting(before))
  {
    var front, last := before[..|before| - 1], before[|before| - 1];
    assert before == front + [last];
    WordsAppend(front, last);
    if IsSeparator(c) {
      WordsAppend(before, []);
      assert Words(before + [[]]) == Words(before);
      assert Waiting(before) ==> Draft(before + [[]]) == Draft(before);
    } else {
      ExtendLast(front, last, c);
      WordsAppend(front, last + [c]);
      DraftAs(front, last);
      DraftAs(front, last + [c]);
      assert Clean(last + [c]) == Clean(last) + (if IsAlnum(c) then [ToLower(c)] else []);
    }
  }

  lemma NoAmpersand(s: string)
    ensures forall i :: 0 <= i < |ReplaceAmpersands(s)| ==> ReplaceAmpersands(s)[i] != '&'
  {
  }

  lemma DraftTrimmed(pieces: seq<string>)
    requires pieces != []
    ensures DropTrailingHyphen(Draft(pieces)) == Join(Words(pieces)) && WellHyphenated(Join(Words(pieces)))
  {
    WordsArePlain(pieces);
    JoinIsWellHyphenated(Words(pieces));
  }

  lemma DraftNext(s: string, i: nat)
    requires i < |s| && s[i] != '&'
    ensures var c, before, now := s[i], Pieces(s[..i]), Pieces(s[..i + 1]);
            && Draft(now) == Draft(before) +
                 (if IsAlnum(c) then [ToLower(c)] else if IsSeparator(c) && !Waiting(before) then "-" else [])
            && (Waiting(now) <==> if IsAlnum(c) then false else IsSeparator(c) || Waiting(before))
  {
    Seqs.TakeOneMore(s, i);
    PiecesAppend(s[..i], s[i]);
    DraftStep(Pieces(s[..i]), s[i]);
  }

  // The character loop, over the replaced input.
  method Condense(replaced: string) returns (slug: string)
    requires forall i :: 0 <= i < |replaced| ==> replaced[i] != '&'
    ensures slug == Draft(Pieces(replaced))
  {
    var lastWasDash := true;
    slug := "";
    assert replaced[..0] == [] && Pieces([]) == [] + [[]];
    WordsAppend([], []);
    for i := 0 to |replaced|
      invariant slug == Draft(Pieces(replaced[..i]))
      invariant lastWasDash <==> Waiting(Pieces(replaced[..i]))
    {
      var ch := replaced[i];
      DraftNext(replaced, i);
      Seqs.NoMore(slug);
      if IsAlnum(ch) {
        lastWasDash := false;
        slug := slug + [ToLower(ch)];
      } else if IsSeparator(ch) {
        if !lastWasDash {
          lastWasDash := true;
          slug := slug + "-";
        }
      }
    }
    Seqs.TakeAll(replaced);
  }

  method SlugifySkillName(input: string) returns (r: Option<string>)
    ensures r == if SlugOf(input) == [] then None else Some(SlugOf(input))
  {
    NoAmpersand(input);
    ReplacingKeepsPieces(input);
    DraftTrimmed(Pieces(input));
    ghost var full := Join(Words(Pieces(input)));
    var slug := Condense(ReplaceAmpersands(input));
    if slug != [] && slug[|slug| - 1] == '-' {
      slug := slug[..|slug| - 1];
    }
    assert slug == full;
    if |slug| > MAX_SKILL_NAME_LEN {
      slug := slug[..MAX_SKILL_NAME_LEN];
      assert Shorten(full) != [] && Shorten(full)[|Shorten(full)| - 1] != '-';
      while slug != [] && slug[|slug| - 1] == '-'
        invariant slug == full[..MAX_SKILL_NAME_LEN] || slug == Shorten(full)
        invariant slug == full[..MAX_SKILL_NAME_LEN] ==> |slug| == MAX_SKILL_NAME_LEN
      {
        slug := slug[..|slug| - 1];
      }
    }
    r := if slug == [] then None else Some(slug);
  }

  // ----- the validator, and what the slugifier promises -----

  datatype NameError = EmptyName | TooLong | EdgeHyphen | BadCharacter

  function Utf8Len(s: string): nat {
    if s == [] then 0
    else
      var c := s[|s| - 1] as int;
      Utf8Len(s[..|s| - 1]) + (if c < 0x80 then 1 else if c < 0x800 then 2 else if c < 0x10000 then 3 else 4)
  }

  function ValidateName(name: string): Result<(), NameError> {
    if name == [] then Err(EmptyName)
    else if Utf8Len(name) > MAX_SKILL_NAME_LEN then Err(TooLong)
    else if name[0] == '-' || name[|name| - 1] == '-' then Err(EdgeHyphen)
    else if exists i :: 0 <= i < |name| && !SlugChar(name[i]) then Err(BadCharacter)
    else Ok(())
  }

  lemma {:induction false} AsciiLen(s: string)
    requires forall i :: 0 <= i < |s| ==> SlugChar(s[i])
    ensures Utf8Len(s) == |s|
  {
    if s != [] {
      AsciiLen(s[..|s| - 1]);
    }
  }

  // A valid name without two hyphens in a row.
  ghost predicate ProperSlug(s: string) {
    ValidateName(s).Ok? && forall i :: 0 <= i < |s| - 1 ==> s[i] != '-' || s[i + 1] != '-'
  }

  lemma ProperMeansHyphenated(s: string)
    ensures ProperSlug(s) <==> s != [] && |s| <= MAX_SKILL_NAME_LEN && WellHyphenated(s)
  {
    if forall i :: 0 <= i < |s| ==> SlugChar(s[i]) {
      AsciiLen(s);
    }
  }

  /** There is no slug exactly when the input has no ASCII letter or digit and no '&'. */
  lemma SlugAbsentIff(input: string)
    ensures SlugOf(input) == [] <==> forall i :: 0 <= i < |input| ==> !IsAlnum(input[i]) && input[i] != '&'
  {
    SlugIsWellHyphenated(input);
    NoWordsIff(input);
    assert forall i :: 0 <= i < |input| ==> (Meaningful(input[i]) <==> IsAlnum(input[i]) || input[i] == '&');
  }

  /** Every slug is a valid name without doubled hyphens. */
  lemma SlugIsProper(input: string)
    requires SlugOf(input) != []
    ensures ProperSlug(SlugOf(input))
  {
    SlugIsWellHyphenated(input);
    ProperMeansHyphenated(SlugOf(input));
  }

  lemma {:induction false} DraftOfHyphenated(s: string)
    requires forall i :: 0 <= i < |s| ==> SlugChar(s[i])
    requires forall i :: 0 <= i < |s| - 1 ==> s[i] != '-' || s[i + 1] != '-'
    requires s != [] ==> s[0] != '-'
    ensures Draft(Pieces(s)) == s && (Waiting(Pieces(s)) <==> s == [] || s[|s| - 1] == '-')
  {
    if s == [] {
      assert Pieces(s) == [] + [[]];
      WordsAppend([], []);
    } else {
      var t, c := s[..|s| - 1], s[|s| - 1];
      DraftOfHyphenated(t);
      DraftStep(Pieces(t), c);
      assert s == t + [c];
    }
  }

  /** The slugifier leaves a name alone exactly when it is one it could have produced,
      truncated ones included. */
  lemma FixedPointsAreTheSlugs(s: string)
    requires s != []
    ensures SlugOf(s) == s <==> ProperSlug(s)
    ensures SlugOf(s) == s <==> exists input :: SlugOf(input) == s
  {
    ProperMeansHyphenated(s);
    if input :| SlugOf(input) == s {
      SlugIsProper(input);
    }
    if ProperSlug(s) {
      DraftOfHyphenated(s);
      DraftTrimmed(Pieces(s));
    }
  }
}
