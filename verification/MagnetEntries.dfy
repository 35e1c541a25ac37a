/**
 What the parser of the tracking issue makes of any body at all
 (script/github-check-new-issue-for-duplicates.py), and what the printer is given
 (script/github-find-top-duplicated-bugs.py).
 */
module MagnetEntries {
  import opened Wrappers
  import opened Magnets
  import opened MagnetText
  import opened Sorting
  import Seqs

  // ----- which lines count -----

  // What each line means.
  function Kinds(lines: seq<string>): seq<Kind> {
    seq(|lines|, i requires 0 <= i < |lines| => Classify(lines[i]))
  }

  // The heading in force after some lines, "" before the first.
  function Heading(kinds: seq<Kind>): string {
    if kinds == [] then ""
    else if kinds[|kinds| - 1].Header? then kinds[|kinds| - 1].area
    else Heading(kinds[..|kinds| - 1])
  }

  // Line `i` is an entry of number `k`, under a heading.
  predicate Entered(kinds: seq<Kind>, i: int, k: int) {
    && 0 <= i < |kinds|
    && kinds[i].Item?
    && kinds[i].number == k
    && Heading(kinds[..i]) != ""
  }

  // The headings that the entries of number `k` stand under, but for "(unlabeled)".
  function AreasUnder(kinds: seq<Kind>, k: int): seq<string> {
    if kinds == [] then []
    else
      var n := |kinds| - 1;
      AreasUnder(kinds[..n], k) + (if Entered(kinds, n, k) && Heading(kinds[..n]) != "(unlabeled)" then [Heading(kinds[..n])] else [])
  }

  // The first entry of number `k` is at `i`.
  ghost predicate FirstAt(kinds: seq<Kind>, i: int, k: int) {
    Entered(kinds, i, k) && forall j :: 0 <= j < i ==> !Entered(kinds, j, k)
  }

  // What the parser has on number `k`: the count of its first entry, and the headings of all.
  ghost predicate Reads(found: Option<Entry>, kinds: seq<Kind>, k: int) {
    match found
    case None => forall i :: !Entered(kinds, i, k)
    case Some(e) =>
      && e.number == k
      && e.areas == AreasUnder(kinds, k)
      && exists i :: FirstAt(kinds, i, k) && kinds[i].count == e.count
  }

  lemma EnteredBefore(kinds: seq<Kind>, last: Kind, i: int, k: int)
    requires i < |kinds|
    ensures Entered(kinds + [last], i, k) <==> Entered(kinds, i, k)
  {
    if 0 <= i {
      assert (kinds + [last])[..i] == kinds[..i];
    }
  }

  lemma AllEnteredBefore(kinds: seq<Kind>, last: Kind, k: int)
    ensures forall i :: i < |kinds| ==> (Entered(kinds + [last], i, k) <==> Entered(kinds, i, k))
    ensures Entered(kinds + [last], |kinds|, k) <==> last.Item? && last.number == k && Heading(kinds) != ""
    ensures AreasUnder(kinds + [last], k) ==
            AreasUnder(kinds, k) +
            (if last.Item? && last.number == k && Heading(kinds) != "" then Labels(Heading(kinds)) else [])
    ensures Heading(kinds + [last]) == if last.Header? then last.area else Heading(kinds)
  {
    Seqs.TakeOfConcat(kinds, [last]);
    forall i | i < |kinds|
      ensures Entered(kinds + [last], i, k) <==> Entered(kinds, i, k)
    {
      EnteredBefore(kinds, last, i, k);
    }
  }

  lemma {:induction false} NothingUnder(kinds: seq<Kind>, k: int)
    requires forall i :: !Entered(kinds, i, k)
    ensures AreasUnder(kinds, k) == []
  {
    if kinds != [] {
      var front, last := kinds[..|kinds| - 1], kinds[|kinds| - 1];
      Seqs.FrontLast(kinds);
      AllEnteredBefore(front, last, k);
      forall i
        ensures !Entered(front, i, k)
      {
        assert i < |front| ==> !Entered(kinds, i, k);
      }
      NothingUnder(front, k);
    }
  }

  // What is known of `k` after a line of that kind under that heading.
  function After(found: Option<Entry>, last: Kind, heading: string, k: int): Option<Entry> {
    if last.Item? && last.number == k && heading != "" then
      Some(if found.None? then Entry(k, Labels(heading), last.count)
           else found.value.(areas := found.value.areas + Labels(heading)))
    else found
  }

  lemma FirstStaysFirst(kinds: seq<Kind>, last: Kind, i: int, k: int)
    requires FirstAt(kinds, i, k)
    ensures FirstAt(kinds + [last], i, k) && (kinds + [last])[i] == kinds[i]
  {
    AllEnteredBefore(kinds, last, k);
  }

  lemma FirstIsLast(kinds: seq<Kind>, last: Kind, k: int)
    requires (forall i :: !Entered(kinds, i, k)) && Entered(kinds + [last], |kinds|, k)
    ensures FirstAt(kinds + [last], |kinds|, k) && AreasUnder(kinds, k) == []
  {
    AllEnteredBefore(kinds, last, k);
    NothingUnder(kinds, k);
  }

  lemma ReadsOn(found: Option<Entry>, kinds: seq<Kind>, last: Kind, k: int)
    requires Reads(found, kinds, k)
    ensures Reads(After(found, last, Heading(kinds), k), kinds + [last], k)
  {
    AllEnteredBefore(kinds, last, k);
    Seqs.NoMore(AreasUnder(kinds, k));
    if found.Some? {
      var i :| FirstAt(kinds, i, k) && kinds[i].count == found.value.count;
      FirstStaysFirst(kinds, last, i, k);
    } else if Entered(kinds + [last], |kinds|, k) {
      FirstIsLast(kinds, last, k);
      Seqs.NoMore(Labels(Heading(kinds)));
    }
  }

  // The same of the parser, one line on.
  lemma FedLookup(p: Parser, line: string, k: int)
    ensures Lookup(Feed(p, line).entries, k) == After(Lookup(p.entries, k), Classify(line), p.current, k)
    ensures Feed(p, line).current == if Classify(line).Header? then Classify(line).area else p.current
  {
    FedKind(p, Classify(line), k);
  }

  lemma FedKind(p: Parser, kind: Kind, k: int)
    ensures Lookup(FeedKind(p, kind).entries, k) == After(Lookup(p.entries, k), kind, p.current, k)
  {
    if kind.Item? {
      RecordLookup(p.entries, kind.number, kind.count, p.current, k);
    }
  }

  lemma KindsAppend(lines: seq<string>, line: string)
    ensures Kinds(lines + [line]) == Kinds(lines) + [Classify(line)]
  {
  }

  lemma {:induction false} EntriesOfLines(lines: seq<string>, k: int)
    ensures Reads(Lookup(FeedAll(START, lines).entries, k), Kinds(lines), k)
    ensures FeedAll(START, lines).current == Heading(Kinds(lines))
  {
    if lines != [] {
      var front, line := lines[..|lines| - 1], lines[|lines| - 1];
      var p := FeedAll(START, front);
      EntriesOfLines(front, k);
      Seqs.FrontLast(lines);
      KindsAppend(front, line);
      FedLookup(p, line, k);
      ReadsOn(Lookup(p.entries, k), Kinds(front), Classify(line), k);
      AllEnteredBefore(Kinds(front), Classify(line), k);
    }
  }

  lemma ReadsDecides(found: Option<Entry>, e: Entry, kinds: seq<Kind>)
    requires Reads(found, kinds, e.number) && Reads(Some(e), kinds, e.number)
    ensures found == Some(e)
  {
    var i :| FirstAt(kinds, i, e.number) && kinds[i].count == e.count;
    if found.Some? {
      var h :| FirstAt(kinds, h, e.number) && kinds[h].count == found.value.count;
      assert h == i;
    }
  }

  /** Whatever the body, the parser has one entry for each number on an entry line under a heading, with the count
      of the first such line and the headings of all of them in order. */
  lemma ParsedEntriesAreExact(body: string, e: Entry)
    ensures DistinctEntries(Parse(body))
    ensures e in Parse(body) <==> Reads(Some(e), Kinds(SplitLines(body)), e.number)
  {
    var lines := SplitLines(body);
    var found := FeedAll(START, lines).entries;
    ParsedAreasAreGood(lines);
    SortDescSorts(found, (e: Entry) => e.count);
    SameMultisetMembers(Parse(body), found);
    DistinctPermutes(found, Parse(body));
    EntriesOfLines(lines, e.number);
    LookupMember(found, e);
    if Reads(Some(e), Kinds(lines), e.number) {
      ReadsDecides(Lookup(found, e.number), e, Kinds(lines));
    }
  }

  // ----- the areas of a magnet -----

  // "area:" does not occur in `s`.
  ghost predicate Plain(s: string) {
    forall i :: 0 <= i <= |s| ==> !("area:" <= s[i..])
  }

  // The names after "area:" among some labels, in order.
  ghost predicate Names(labels: seq<string>, names: seq<string>) {
    if labels == [] then names == []
    else if "area:" <= labels[0] then
      names != [] && labels[0] == "area:" + names[0] && Plain(names[0]) && Names(labels[1..], names[1..])
    else Names(labels[1..], names)
  }

  lemma {:induction false} NothingToRemove(s: string)
    requires Plain(s)
    ensures RemoveAll(s, "area:") == s
  {
    if s != [] {
      assert s[0..] == s;
      forall i | 0 <= i <= |s[1..]|
        ensures !("area:" <= s[1..][i..])
      {
        assert s[1..][i..] == s[i + 1..];
      }
      NothingToRemove(s[1..]);
      Seqs.HeadTail(s);
    }
  }

  lemma PrefixRemoved(name: string)
    requires Plain(name)
    ensures "area:" <= "area:" + name && RemoveAll("area:" + name, "area:") == name
  {
    var tag := "area:" + name;
    Seqs.TakeOfConcat("area:", name);
    assert tag[|"area:"|..] == name;
    NothingToRemove(name);
  }

  lemma {:induction false} AreaLabelsConcat(a: seq<string>, b: seq<string>)
    ensures AreaLabels(a + b) == AreaLabels(a) + AreaLabels(b)
  {
    if b == [] {
      Seqs.NoMore(a);
      Seqs.NoMore(AreaLabels(a));
    } else {
      var last := b[|b| - 1];
      AreaLabelsConcat(a, b[..|b| - 1]);
      Seqs.FrontOfConcat(a, b);
      Seqs.Regroup(AreaLabels(a), AreaLabels(b[..|b| - 1]), if AREA_PREFIX <= last then [RemoveAll(last, AREA_PREFIX)] else []);
    }
  }

  lemma OneLabel(tag: string)
    ensures AreaLabels([tag]) == if AREA_PREFIX <= tag then [RemoveAll(tag, AREA_PREFIX)] else []
  {
    assert [tag][..0] == [];
  }

  /** The areas are the names after "area:" in the order of the labels. */
  lemma {:induction false} AreasAreNames(labels: seq<string>, names: seq<string>)
    requires Names(labels, names)
    ensures AreaLabels(labels) == names
  {
    if labels != [] {
      Seqs.HeadTail(labels);
      AreaLabelsConcat([labels[0]], labels[1..]);
      OneLabel(labels[0]);
      if "area:" <= labels[0] {
        PrefixRemoved(names[0]);
        AreasAreNames(labels[1..], names[1..]);
        Seqs.HeadTail(names);
      } else {
        AreasAreNames(labels[1..], names);
        Seqs.NoMore(names);
      }
    }
  }
}
