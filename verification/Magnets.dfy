/**
 The duplicate-magnet tracking issue: printed by
 script/github-find-top-duplicated-bugs.py, parsed by
 script/github-check-new-issue-for-duplicates.py.
 */
module Magnets {
  import opened Wrappers
  import opened MagnetText
  import opened Sorting
  import Seqs

  const UNLABELED := "(unlabeled)"
  const ISSUES := "/issues/"

  datatype Magnet = Magnet(number: nat, url: string, areas: seq<string>, count: nat)

  // What the parser recovers of a magnet.
  datatype Entry = Entry(number: int, areas: seq<string>, count: int)

  function Intro(): string {
    "These are the issues that " + "are frequently re-reported. " +
    "The list is generated regularly " + "by running a script."
  }

  // ----- the printer -----

  // The magnets listed under one area heading.
  datatype Group = Group(area: string, infos: seq<Magnet>, total: nat)

  // The magnets of an area and its total, kept together; both dicts keep the order of first use.
  function AddToGroups(groups: seq<Group>, area: string, m: Magnet): seq<Group> {
    if groups == [] then [Group(area, [m], m.count)]
    else if groups[0].area == area then
      [Group(area, groups[0].infos + [m], groups[0].total + m.count)] + groups[1..]
    else [groups[0]] + AddToGroups(groups[1..], area, m)
  }

  // One (area, magnet) pair for each label of each magnet.
  function AreaPairs(areas: seq<string>, m: Magnet): seq<(string, Magnet)> {
    if areas == [] then [] else AreaPairs(areas[..|areas| - 1], m) + [(areas[|areas| - 1], m)]
  }

  function AllPairs(ms: seq<Magnet>): seq<(string, Magnet)> {
    if ms == [] then [] else AllPairs(ms[..|ms| - 1]) + AreaPairs(ms[|ms| - 1].areas, ms[|ms| - 1])
  }

  function GroupsOf(pairs: seq<(string, Magnet)>): seq<Group> {
    if pairs == [] then []
    else
      var (area, m) := pairs[|pairs| - 1];
      AddToGroups(GroupsOf(pairs[..|pairs| - 1]), area, m)
  }

  function PrintedGroups(ms: seq<Magnet>): seq<Group> {
    SortDesc(GroupsOf(AllPairs(ms)), (g: Group) => g.total)
  }

  function PrintedInfos(g: Group): seq<Magnet> {
    SortDesc(g.infos, (m: Magnet) => m.count)
  }

  function PadTwo(s: string): string {
    if |s| < 2 then " " + s else s
  }

  function EntryLine(m: Magnet): string {
    "-   [" + PadTwo(Dec(m.count)) + " dupes] " + m.url
  }

  function EntryLines(infos: seq<Magnet>): seq<string> {
    if infos == [] then [] else EntryLines(infos[..|infos| - 1]) + [EntryLine(infos[|infos| - 1])]
  }

  function GroupLines(groups: seq<Group>): seq<string> {
    if groups == [] then []
    else
      var g := groups[|groups| - 1];
      GroupLines(groups[..|groups| - 1]) + ["", "## " + g.area, ""] + EntryLines(PrintedInfos(g))
  }

  function MarkdownBody(ms: seq<Magnet>): string {
    JoinLines([Intro()] + GroupLines(PrintedGroups(ms)))
  }

  // ----- the parser -----

  datatype Kind = Header(area: string) | Item(count: int, number: int) | Other

  function FirstInt(s: Option<string>, strip: bool): Option<int> {
    if s.None? || FirstWord(s.value).None? then None
    else
      var word := FirstWord(s.value).value;
      ParseInt(if strip then StripParens(word) else word)
  }

  // What a line means to the parser, whatever heading it is under.
  function Classify(line: string): Kind {
    if StartsWith(line, "## ") then Header(Strip(line[3..]))
    else if !StartsWith(line, "-") || Find(line, ISSUES) == |line| then Other
    else
      var count := FirstInt(SecondPart(line, "["), false);
      var number := FirstInt(SecondPart(line, ISSUES), true);
      if count.Some? && number.Some? then Item(count.value, number.value) else Other
  }

  // `current` is "" before the first heading; the entries are a dict in insertion order.
  datatype Parser = Parser(current: string, entries: seq<Entry>)

  function Record(entries: seq<Entry>, number: int, count: int, area: string): seq<Entry> {
    var labels := if area == UNLABELED then [] else [area];
    if entries == [] then [Entry(number, labels, count)]
    else if entries[0].number == number then [entries[0].(areas := entries[0].areas + labels)] + entries[1..]
    else [entries[0]] + Record(entries[1..], number, count, area)
  }

  function FeedKind(p: Parser, kind: Kind): Parser {
    match kind
    case Header(area) => p.(current := area)
    case Item(count, number) =>
      if p.current == "" then p else p.(entries := Record(p.entries, number, count, p.current))
    case Other => p
  }

  function Feed(p: Parser, line: string): Parser {
    FeedKind(p, Classify(line))
  }

  function FeedAll(p: Parser, lines: seq<string>): Parser {
    if lines == [] then p else Feed(FeedAll(p, lines[..|lines| - 1]), lines[|lines| - 1])
  }

  const START := Parser("", [])

  function Parse(body: string): seq<Entry> {
    SortDesc(FeedAll(START, SplitLines(body)).entries, (e: Entry) => e.count)
  }

  // ----- one printed line, read back -----

  // A GitHub issue URL ends in its number, and "/issues/" occurs only before it.
  ghost predicate IssueUrl(m: Magnet) {
    var i := Find(m.url, ISSUES);
    i < |m.url| && m.url[i + |ISSUES|..] == Dec(m.number) && '\n' !in m.url
  }

  predicate GoodArea(area: string) {
    area != "" && Trimmed(area) && '\n' !in area
  }

  lemma DigitsAreInert(n: nat)
    ensures forall c :: c in Dec(n) ==> IsDigit(c) && !IsSpace(c) && c != '/' && c != '\n' && c != '[' && c != ')'
  {
    forall c | c in Dec(n)
      ensures IsDigit(c)
    {
      var i :| 0 <= i < |Dec(n)| && Dec(n)[i] == c;
    }
  }

  lemma {:induction false} FindAbsent(s: string, pat: string)
    requires pat != "" && pat[0] !in s
    ensures Find(s, pat) == |s|
  {
    FindSkips(s, "", pat);
    assert s + "" == s;
  }

  // Everything on an entry line before its URL.
  function EntryHead(num: string): string {
    "-   [" + PadTwo(num) + " dupes] "
  }

  lemma SecondPartAfter(head: string, sep: string, rest: string)
    requires sep != "" && sep[0] !in head
    ensures SecondPart(head + sep + rest, sep) == Some(rest[..Find(rest, sep)])
  {
    FindSkips(head, sep + rest, sep);
    assert head + sep + rest == head + (sep + rest);
    Seqs.TakeOfConcat(sep, rest);
    assert (head + sep + rest)[|head| + |sep|..] == rest;
  }

  // The count is the first word up to the next bracket.
  lemma CountWord(n: nat, tail: string)
    requires tail != "" && tail[0] == ' '
    ensures var s := PadTwo(Dec(n)) + tail;
            FirstWord(s[..Find(s, "[")]) == Some(Dec(n))
  {
    DigitsAreInert(n);
    CutAfterPad(PadTwo(Dec(n)), tail);
    var s := PadTwo(Dec(n)) + tail;
    FirstWordOfPadded(Dec(n), s[|PadTwo(Dec(n))|..Find(s, "[")]);
  }

  // No bracket comes before the space that follows `pad`.
  lemma CutAfterPad(pad: string, tail: string)
    requires tail != "" && tail[0] == ' ' && '[' !in pad + " "
    ensures var s := pad + tail;
            var cut := Find(s, "[");
            |pad| < cut <= |s| && s[..cut] == pad + s[|pad|..cut] && s[|pad|..cut][0] == ' '
  {
    var s := pad + tail;
    Seqs.HeadTail(tail);
    Seqs.Regroup(pad, " ", tail[1..]);
    FindSkips(pad + " ", tail[1..], "[");
  }

  // An entry line up to its bracket, the bracket, and the rest.
  lemma EntryLineParts(m: Magnet)
    ensures EntryLine(m) == "-   " + "[" + (PadTwo(Dec(m.count)) + (" dupes] " + m.url))
    ensures EntryLine(m) == EntryHead(Dec(m.count)) + m.url
  {
  }

  lemma FirstIntIs(s: string, word: string, n: int)
    requires FirstWord(s) == Some(word) && ParseInt(word) == Some(n)
    ensures FirstInt(Some(s), false) == Some(n)
  {
  }

  lemma EntryCount(m: Magnet)
    ensures FirstInt(SecondPart(EntryLine(m), "["), false) == Some(m.count)
  {
    var tail := " dupes] " + m.url;
    EntryLineParts(m);
    var rest := PadTwo(Dec(m.count)) + tail;
    SecondPartAfter("-   ", "[", rest);
    CountWord(m.count, tail);
    ParseIntDec(m.count);
    FirstIntIs(rest[..Find(rest, "[")], Dec(m.count), m.count);
  }

  lemma FirstWordOf(w: string, rest: string)
    requires w != "" && forall c :: c in w ==> !IsSpace(c)
    requires rest == [] || IsSpace(rest[0])
    ensures StripLeft(w + rest) == w + rest && FirstWord(w + rest) == Some(w)
  {
    WordEndOf(w, rest);
    assert w[0] in w;
    Seqs.TakeOfConcat(w, rest);
  }

  lemma FirstWordOfPadded(w: string, rest: string)
    requires w != "" && forall c :: c in w ==> !IsSpace(c)
    requires rest == [] || IsSpace(rest[0])
    ensures FirstWord(w + rest) == Some(w) && FirstWord(PadTwo(w) + rest) == Some(w)
  {
    FirstWordOf(w, rest);
    if |w| < 2 {
      Seqs.Regroup(" ", w, rest);
      StripLeftSpace(w + rest);
    }
  }

  lemma StripParensInert(s: string)
    requires ')' !in s
    ensures StripParens(s) == s
  {
    if s != [] {
      assert s[|s| - 1] in s;
    }
  }

  lemma WordInt(num: string, n: int)
    requires num != "" && ParseInt(num) == Some(n)
    requires forall c :: c in num ==> !IsSpace(c) && c != '/' && c != ')'
    ensures FirstInt(Some(num[..Find(num, ISSUES)]), true) == Some(n)
  {
    FindAbsent(num, ISSUES);
    assert num[..|num|] == num;
    FirstWordOfPadded(num, "");
    assert num + "" == num;
    StripParensInert(num);
  }

  lemma DropOfConcat(head: string, url: string, k: nat)
    requires k <= |url|
    ensures (head + url)[|head| + k..] == url[k..]
  {
  }

  lemma SecondPartOfUrl(head: string, url: string, sep: string, number: string)
    requires sep != "" && sep[0] !in head
    requires var i := Find(url, sep); i < |url| && url[i + |sep|..] == number
    ensures Find(head + url, sep) < |head + url|
    ensures SecondPart(head + url, sep) == Some(number[..Find(number, sep)])
  {
    var i := Find(url, sep);
    var line := head + url;
    FindSkips(head, url, sep);
    DropOfConcat(head, url, i + |sep|);
    assert Find(line, sep) + |sep| == |head| + (i + |sep|);
  }

  lemma EntryNumber(m: Magnet)
    requires IssueUrl(m)
    ensures Find(EntryLine(m), ISSUES) < |EntryLine(m)|
    ensures FirstInt(SecondPart(EntryLine(m), ISSUES), true) == Some(m.number)
  {
    var head, number := EntryHead(Dec(m.count)), Dec(m.number);
    EntryLineParts(m);
    SecondPartOfUrl(head, m.url, ISSUES, number);
    DigitsAreInert(m.number);
    ParseIntDec(m.number);
    WordInt(number, m.number);
  }

  /** The parser reads back from an entry line the count and number printed on it. */
  lemma EntryLineReadsBack(m: Magnet)
    requires IssueUrl(m)
    ensures Classify(EntryLine(m)) == Item(m.count, m.number)
  {
    EntryCount(m);
    EntryNumber(m);
    EntryLineParts(m);
    StartOf(EntryLine(m));
  }

  lemma StartOf(line: string)
    requires line != ""
    ensures StartsWith(line, "-") <==> line[0] == '-'
    ensures StartsWith(line, "## ") ==> line[0] == '#'
  {
    assert line[..1] == [line[0]];
    if StartsWith(line, "## ") {
      assert line[0] == line[..3][0] == '#';
    }
  }

  lemma HeaderReadsBack(area: string)
    requires GoodArea(area)
    ensures Classify("## " + area) == Header(area)
  {
    assert ("## " + area)[3..] == area;
    StripTrims(area);
  }

  // ----- the lines, fed to the parser -----

  // What the parser makes of (area, magnet) pairs in the order they are printed.
  function FeedPairs(entries: seq<Entry>, pairs: seq<(string, Magnet)>): seq<Entry> {
    if pairs == [] then entries
    else
      var (area, m) := pairs[|pairs| - 1];
      Record(FeedPairs(entries, pairs[..|pairs| - 1]), m.number, m.count, area)
  }

  function InfoPairs(area: string, infos: seq<Magnet>): seq<(string, Magnet)> {
    if infos == [] then [] else InfoPairs(area, infos[..|infos| - 1]) + [(area, infos[|infos| - 1])]
  }

  function Flatten(groups: seq<Group>): seq<(string, Magnet)> {
    if groups == [] then []
    else
      var g := groups[|groups| - 1];
      Flatten(groups[..|groups| - 1]) + InfoPairs(g.area, PrintedInfos(g))
  }

  lemma {:induction false} FeedAllConcat(p: Parser, a: seq<string>, b: seq<string>)
    ensures FeedAll(p, a + b) == FeedAll(FeedAll(p, a), b)
  {
    if b == [] {
      Seqs.NoMore(a);
    } else {
      FeedAllConcat(p, a, b[..|b| - 1]);
      Seqs.FrontOfConcat(a, b);
    }
  }

  lemma {:induction false} FeedPairsConcat(es: seq<Entry>, a: seq<(string, Magnet)>, b: seq<(string, Magnet)>)
    ensures FeedPairs(es, a + b) == FeedPairs(FeedPairs(es, a), b)
  {
    if b == [] {
      Seqs.NoMore(a);
    } else {
      FeedPairsConcat(es, a, b[..|b| - 1]);
      Seqs.FrontOfConcat(a, b);
    }
  }

  lemma {:induction false} EntriesFeed(p: Parser, infos: seq<Magnet>)
    requires p.current != "" && forall m :: m in infos ==> IssueUrl(m)
    ensures FeedAll(p, EntryLines(infos)) == p.(entries := FeedPairs(p.entries, InfoPairs(p.current, infos)))
  {
    if infos != [] {
      var front, m := infos[..|infos| - 1], infos[|infos| - 1];
      assert m in infos;
      EntriesFeed(p, front);
      EntryLineReadsBack(m);
      FeedAllConcat(p, EntryLines(front), [EntryLine(m)]);
      assert [EntryLine(m)][..0] == [];
      FeedPairsConcat(p.entries, InfoPairs(p.current, front), [(p.current, m)]);
      assert [(p.current, m)][..0] == [];
    }
  }

  lemma ThreeLines(blank: string, heading: string)
    ensures [blank, heading, blank] == [blank] + [heading] + [blank]
  {
  }

  lemma HeadingFeeds(p: Parser, area: string)
    requires GoodArea(area)
    ensures FeedAll(p, ["", "## " + area, ""]) == p.(current := area)
  {
    var blank, heading := "", "## " + area;
    HeaderReadsBack(area);
    assert Classify(blank) == Other;
    ThreeLines(blank, heading);
    FeedAllConcat(p, [blank] + [heading], [blank]);
    FeedAllConcat(p, [blank], [heading]);
  }

  ghost predicate GoodGroups(groups: seq<Group>) {
    forall i :: 0 <= i < |groups| ==>
      GoodArea(groups[i].area) && forall m :: m in groups[i].infos ==> IssueUrl(m)
  }

  lemma {:induction false} GroupsFeed(groups: seq<Group>)
    requires GoodGroups(groups)
    ensures FeedAll(START, GroupLines(groups)).entries == FeedPairs([], Flatten(groups))
  {
    if groups != [] {
      var front, g := groups[..|groups| - 1], groups[|groups| - 1];
      GroupsFeed(front);
      var before := FeedAll(START, GroupLines(front));
      var heading, items := ["", "## " + g.area, ""], EntryLines(PrintedInfos(g));
      FeedAllConcat(START, GroupLines(front) + heading, items);
      FeedAllConcat(START, GroupLines(front), heading);
      HeadingFeeds(before, g.area);
      PrintedInfosPermute(g);
      EntriesFeed(before.(current := g.area), PrintedInfos(g));
      FeedPairsConcat([], Flatten(front), InfoPairs(g.area, PrintedInfos(g)));
    }
  }

  lemma PrintedInfosPermute(g: Group)
    ensures multiset(PrintedInfos(g)) == multiset(g.infos)
    ensures forall m :: m in PrintedInfos(g) <==> m in g.infos
  {
    SortDescSorts(g.infos, (m: Magnet) => m.count);
    SameMultisetMembers(PrintedInfos(g), g.infos);
  }

  // ----- grouping and sorting lose and invent nothing -----

  lemma {:induction false} InfoPairsPermute(area: string, a: seq<Magnet>, b: seq<Magnet>)
    requires multiset(a) == multiset(b)
    ensures multiset(InfoPairs(area, a)) == multiset(InfoPairs(area, b))
  {
    SameMultisetMembers(a, b);
    if a != [] {
      var x := a[|a| - 1];
      var i := LastElsewhere(a, b);
      InfoPairsPermute(area, a[..|a| - 1], b[..i] + b[i + 1..]);
      InfoPairsConcat(area, b[..i], [x] + b[i + 1..]);
      InfoPairsConcat(area, [x], b[i + 1..]);
      InfoPairsConcat(area, b[..i], b[i + 1..]);
      assert [x][..0] == [];
    }
  }

  lemma {:induction false} InfoPairsConcat(area: string, a: seq<Magnet>, b: seq<Magnet>)
    ensures InfoPairs(area, a + b) == InfoPairs(area, a) + InfoPairs(area, b)
  {
    if b == [] {
      Seqs.NoMore(a);
      Seqs.NoMore(InfoPairs(area, a));
    } else {
      InfoPairsConcat(area, a, b[..|b| - 1]);
      Seqs.FrontOfConcat(a, b);
      Seqs.Regroup(InfoPairs(area, a), InfoPairs(area, b[..|b| - 1]), [(area, b[|b| - 1])]);
    }
  }

  // The pairs of a list of groups, in the order they were added.
  function GroupedPairs(groups: seq<Group>): seq<(string, Magnet)> {
    if groups == [] then [] else PairsIn(groups[0]) + GroupedPairs(groups[1..])
  }

  function PairsIn(g: Group): seq<(string, Magnet)> {
    InfoPairs(g.area, g.infos)
  }

  ghost function Bag(groups: seq<Group>): multiset<(string, Magnet)> {
    multiset(GroupedPairs(groups))
  }

  lemma Regroup<T>(x: multiset<T>, y: multiset<T>, z: multiset<T>)
    ensures x + (y + z) == (x + y) + z && x + y == y + x
  {
  }

  lemma {:induction false} GroupedConcat(a: seq<Group>, b: seq<Group>)
    ensures GroupedPairs(a + b) == GroupedPairs(a) + GroupedPairs(b)
  {
    if a == [] {
      Seqs.NoMore(b);
      Seqs.NoMore(GroupedPairs(b));
    } else {
      GroupedConcat(a[1..], b);
      Seqs.TailOfConcat(a, b);
      Seqs.Regroup(PairsIn(a[0]), GroupedPairs(a[1..]), GroupedPairs(b));
    }
  }

  lemma BagConcat(a: seq<Group>, b: seq<Group>)
    ensures Bag(a + b) == Bag(a) + Bag(b)
  {
    GroupedConcat(a, b);
  }

  lemma BagOne(g: Group)
    ensures Bag([g]) == multiset(PairsIn(g))
  {
    assert [g][1..] == [];
    assert GroupedPairs([g]) == PairsIn(g) + [];
  }

  lemma FlattenAppend(front: seq<Group>, g: Group)
    ensures Flatten(front + [g]) == Flatten(front) + InfoPairs(g.area, PrintedInfos(g))
  {
    assert (front + [g])[..|front|] == front;
  }

  lemma PrintedPairsIn(g: Group)
    ensures multiset(InfoPairs(g.area, PrintedInfos(g))) == multiset(PairsIn(g))
  {
    PrintedInfosPermute(g);
    InfoPairsPermute(g.area, PrintedInfos(g), g.infos);
  }

  lemma {:induction false} FlattenBag(groups: seq<Group>)
    ensures multiset(Flatten(groups)) == Bag(groups)
    decreases |groups|
  {
    if groups != [] {
      var front, g := groups[..|groups| - 1], groups[|groups| - 1];
      assert groups == front + [g];
      FlattenBag(front);
      FlattenAppend(front, g);
      PrintedPairsIn(g);
      BagConcat(front, [g]);
      BagOne(g);
    }
  }

  lemma {:induction false} BagOfAdded(groups: seq<Group>, area: string, m: Magnet)
    ensures Bag(AddToGroups(groups, area, m)) == Bag(groups) + multiset{(area, m)}
  {
    if groups == [] {
      InfoPairsConcat(area, [], [m]);
      assert [m][..0] == [];
      assert InfoPairs(area, [m]) == [(area, m)];
      assert AddToGroups(groups, area, m)[1..] == [];
    } else if groups[0].area == area {
      InfoPairsConcat(area, groups[0].infos, [m]);
      assert [m][..0] == [];
      assert AddToGroups(groups, area, m)[1..] == groups[1..];
    } else {
      BagOfAdded(groups[1..], area, m);
      assert AddToGroups(groups, area, m)[1..] == AddToGroups(groups[1..], area, m);
    }
  }

  lemma {:induction false} BagOfGroups(pairs: seq<(string, Magnet)>)
    ensures Bag(GroupsOf(pairs)) == multiset(pairs)
  {
    if pairs != [] {
      var front := pairs[..|pairs| - 1];
      var (area, m) := pairs[|pairs| - 1];
      BagOfGroups(front);
      BagOfAdded(GroupsOf(front), area, m);
      assert pairs == front + [(area, m)];
    }
  }

  lemma {:induction false} BagPermutes(a: seq<Group>, b: seq<Group>)
    requires multiset(a) == multiset(b)
    ensures Bag(a) == Bag(b)
  {
    SameMultisetMembers(a, b);
    if a != [] {
      var i := LastElsewhere(a, b);
      var front, last := a[..|a| - 1], [a[|a| - 1]];
      var left, right := b[..i], b[i + 1..];
      BagPermutes(front, left + right);
      assert a == front + last;
      BagConcat(front, last);
      BagConcat(left, last + right);
      BagConcat(last, right);
      BagConcat(left, right);
      Regroup(Bag(left), Bag(last), Bag(right));
      Regroup(Bag(left), Bag(right), Bag(last));
      Regroup(Bag(last), Bag(right), multiset{});
    }
  }

  /** The printed entries are, as a bag, one per label of each magnet. */
  lemma PrintedPairsArePermuted(ms: seq<Magnet>)
    ensures multiset(Flatten(PrintedGroups(ms))) == multiset(AllPairs(ms))
  {
    var groups := GroupsOf(AllPairs(ms));
    SortDescSorts(groups, (g: Group) => g.total);
    FlattenBag(PrintedGroups(ms));
    BagPermutes(PrintedGroups(ms), groups);
    BagOfGroups(AllPairs(ms));
  }

  // ----- what the parser's dict holds -----

  function Lookup(es: seq<Entry>, k: int): Option<Entry> {
    if es == [] then None else if es[0].number == k then Some(es[0]) else Lookup(es[1..], k)
  }

  ghost predicate DistinctEntries(es: seq<Entry>) {
    forall i, j :: 0 <= i < j < |es| ==> es[i].number != es[j].number
  }

  function Labels(area: string): seq<string> {
    if area == UNLABELED then [] else [area]
  }

  lemma {:induction false} RecordLookup(es: seq<Entry>, number: int, count: int, area: string, k: int)
    ensures Lookup(Record(es, number, count, area), k) ==
            if k != number then Lookup(es, k)
            else match Lookup(es, k)
                 case None => Some(Entry(number, Labels(area), count))
                 case Some(e) => Some(e.(areas := e.areas + Labels(area)))
  {
    if es != [] && es[0].number != number {
      RecordLookup(es[1..], number, count, area, k);
      assert Record(es, number, count, area)[1..] == Record(es[1..], number, count, area);
    }
  }

  // The entry that `record` touched, over the untouched rest.
  lemma RecordShape(es: seq<Entry>, number: int, count: int, area: string)
    requires es != []
    ensures var out := Record(es, number, count, area);
            out == if es[0].number == number then [es[0].(areas := es[0].areas + Labels(area))] + es[1..]
                   else [es[0]] + Record(es[1..], number, count, area)
    ensures forall e :: e in es <==> e == es[0] || e in es[1..]
  {
    Seqs.HeadTail(es);
  }

  lemma {:induction false} RecordNumbers(es: seq<Entry>, number: int, count: int, area: string)
    ensures forall e :: e in Record(es, number, count, area) ==> e.number == number || exists d :: d in es && d.number == e.number
  {
    if es != [] {
      RecordShape(es, number, count, area);
      if es[0].number != number {
        RecordNumbers(es[1..], number, count, area);
      }
    }
  }

  lemma {:induction false} RecordAreas(es: seq<Entry>, number: int, count: int, area: string)
    ensures forall e, x :: e in Record(es, number, count, area) && x in e.areas ==>
              x == area || exists d :: d in es && x in d.areas
  {
    if es != [] {
      RecordShape(es, number, count, area);
      if es[0].number != number {
        RecordAreas(es[1..], number, count, area);
      }
    }
  }

  lemma {:induction false} RecordDistinct(es: seq<Entry>, number: int, count: int, area: string)
    requires DistinctEntries(es)
    ensures DistinctEntries(Record(es, number, count, area))
  {
    if es != [] {
      RecordShape(es, number, count, area);
      assert forall i :: 0 <= i < |es[1..]| ==> es[1..][i] == es[i + 1] && es[i + 1].number != es[0].number;
      if es[0].number != number {
        RecordDistinct(es[1..], number, count, area);
        RecordNumbers(es[1..], number, count, area);
        var rest := Record(es[1..], number, count, area);
        forall j | 0 <= j < |rest|
          ensures rest[j].number != es[0].number
        {
          assert rest[j] in rest;
        }
      }
    }
  }

  lemma RecordMembers(es: seq<Entry>, number: int, count: int, area: string)
    requires DistinctEntries(es)
    ensures DistinctEntries(Record(es, number, count, area))
    ensures forall e :: e in Record(es, number, count, area) ==> e.number == number || exists d :: d in es && d.number == e.number
    ensures forall e, x :: e in Record(es, number, count, area) && x in e.areas ==>
              x == area || exists d :: d in es && x in d.areas
  {
    RecordDistinct(es, number, count, area);
    RecordNumbers(es, number, count, area);
    RecordAreas(es, number, count, area);
  }

  lemma {:induction false} LookupMember(es: seq<Entry>, e: Entry)
    requires DistinctEntries(es)
    ensures e in es <==> Lookup(es, e.number) == Some(e)
  {
    if es != [] {
      assert es == [es[0]] + es[1..];
      LookupMember(es[1..], e);
      assert forall i :: 0 <= i < |es[1..]| ==> es[1..][i] == es[i + 1] && es[i + 1].number != es[0].number;
    }
  }

  // The labels recorded for number `k`, in the order they were printed.
  function AreasOf(pairs: seq<(string, Magnet)>, k: nat): seq<string> {
    if pairs == [] then []
    else
      var (area, m) := pairs[|pairs| - 1];
      AreasOf(pairs[..|pairs| - 1], k) + (if m.number == k then Labels(area) else [])
  }

  ghost predicate Mentions(pairs: seq<(string, Magnet)>, k: int) {
    exists p :: p in pairs && p.1.number == k
  }

  // The lookup, after one more pair.
  lemma FedPair(es: seq<Entry>, pairs: seq<(string, Magnet)>, area: string, m: Magnet, k: nat, count: nat)
    requires Lookup(es, k) == if Mentions(pairs, k) then Some(Entry(k, AreasOf(pairs, k), count)) else None
    requires m.number == k ==> m.count == count
    ensures Lookup(Record(es, m.number, m.count, area), k) ==
            if Mentions(pairs, k) || m.number == k
            then Some(Entry(k, AreasOf(pairs, k) + (if m.number == k then Labels(area) else []), count)) else None
  {
    RecordLookup(es, m.number, m.count, area, k);
    Seqs.NoMore(AreasOf(pairs, k));
    Seqs.NoMore(Labels(area));
    if !Mentions(pairs, k) {
      NoAreas(pairs, k);
    }
  }

  lemma MentionsAppend(pairs: seq<(string, Magnet)>, p: (string, Magnet), k: int)
    ensures Mentions(pairs + [p], k) <==> Mentions(pairs, k) || p.1.number == k
  {
    assert forall x :: x in pairs + [p] <==> x in pairs || x == p;
    if p.1.number == k {
      assert p in pairs + [p];
    }
    if Mentions(pairs, k) {
      var x :| x in pairs && x.1.number == k;
      assert x in pairs + [p];
    }
  }

  lemma {:induction false} FeedPairsLookup(pairs: seq<(string, Magnet)>, k: nat, count: nat)
    requires forall p :: p in pairs && p.1.number == k ==> p.1.count == count
    ensures DistinctEntries(FeedPairs([], pairs))
    ensures Lookup(FeedPairs([], pairs), k) ==
            if Mentions(pairs, k) then Some(Entry(k, AreasOf(pairs, k), count)) else None
  {
    if pairs != [] {
      var front := pairs[..|pairs| - 1];
      var (area, m) := pairs[|pairs| - 1];
      Seqs.FrontLast(pairs);
      assert (area, m) in pairs;
      FeedPairsLookup(front, k, count);
      FedPair(FeedPairs([], front), front, area, m, k, count);
      RecordDistinct(FeedPairs([], front), m.number, m.count, area);
      MentionsAppend(front, (area, m), k);
    }
  }

  lemma {:induction false} NoAreas(pairs: seq<(string, Magnet)>, k: nat)
    requires !Mentions(pairs, k)
    ensures AreasOf(pairs, k) == []
  {
    if pairs != [] {
      assert pairs[|pairs| - 1] in pairs;
      NoAreas(pairs[..|pairs| - 1], k);
    }
  }

  lemma {:induction false} AreasConcat(a: seq<(string, Magnet)>, b: seq<(string, Magnet)>, k: nat)
    ensures AreasOf(a + b, k) == AreasOf(a, k) + AreasOf(b, k)
  {
    if b == [] {
      Seqs.NoMore(a);
      Seqs.NoMore(AreasOf(a, k));
    } else {
      var (area, m) := b[|b| - 1];
      AreasConcat(a, b[..|b| - 1], k);
      Seqs.FrontOfConcat(a, b);
      Seqs.Regroup(AreasOf(a, k), AreasOf(b[..|b| - 1], k), if m.number == k then Labels(area) else []);
    }
  }

  lemma {:induction false} AreasPermute(a: seq<(string, Magnet)>, b: seq<(string, Magnet)>, k: nat)
    requires multiset(a) == multiset(b)
    ensures multiset(AreasOf(a, k)) == multiset(AreasOf(b, k))
    decreases |a|
  {
    SameMultisetMembers(a, b);
    if a != [] {
      var i := LastElsewhere(a, b);
      var front, last := a[..|a| - 1], [a[|a| - 1]];
      var left, right := b[..i], b[i + 1..];
      AreasPermute(front, left + right, k);
      assert a == front + last;
      AreasConcat(front, last, k);
      AreasConcat(left, last + right, k);
      AreasConcat(last, right, k);
      AreasConcat(left, right, k);
    }
  }

  // ----- the pairs of a list of magnets -----

  function Labeled(areas: seq<string>): seq<string> {
    if areas == [] then [] else Labeled(areas[..|areas| - 1]) + Labels(areas[|areas| - 1])
  }

  lemma {:induction false} AreaPairsOf(areas: seq<string>, m: Magnet, k: nat)
    ensures AreasOf(AreaPairs(areas, m), k) == if k == m.number then Labeled(areas) else []
  {
    if areas != [] {
      var front, area := areas[..|areas| - 1], areas[|areas| - 1];
      AreaPairsOf(front, m, k);
      AreasOfAppend(AreaPairs(front, m), area, m, k);
      Seqs.NoMore(AreasOf(AreaPairs(front, m), k));
    }
  }

  lemma AreasOfAppend(pairs: seq<(string, Magnet)>, area: string, m: Magnet, k: nat)
    ensures AreasOf(pairs + [(area, m)], k) == AreasOf(pairs, k) + (if m.number == k then Labels(area) else [])
  {
    Seqs.TakeOfConcat(pairs, [(area, m)]);
  }

  lemma {:induction false} AreaPairsMembers(areas: seq<string>, m: Magnet)
    ensures forall p :: p in AreaPairs(areas, m) <==> p.1 == m && p.0 in areas
  {
    if areas != [] {
      AreaPairsMembers(areas[..|areas| - 1], m);
      Seqs.FrontLast(areas);
    }
  }

  ghost predicate DistinctMagnets(ms: seq<Magnet>) {
    forall i, j :: 0 <= i < j < |ms| ==> ms[i].number != ms[j].number
  }

  lemma {:induction false} AllPairsMembers(ms: seq<Magnet>)
    ensures forall p :: p in AllPairs(ms) <==> p.1 in ms && p.0 in p.1.areas
  {
    if ms != [] {
      var front, m := ms[..|ms| - 1], ms[|ms| - 1];
      AllPairsMembers(front);
      AreaPairsMembers(m.areas, m);
      Seqs.FrontLast(ms);
    }
  }

  lemma {:induction false} AllPairsAreas(ms: seq<Magnet>, m: Magnet)
    requires DistinctMagnets(ms) && m in ms
    ensures AreasOf(AllPairs(ms), m.number) == Labeled(m.areas)
  {
    var front, last, k := ms[..|ms| - 1], ms[|ms| - 1], m.number;
    Seqs.FrontLast(ms);
    AreasConcat(AllPairs(front), AreaPairs(last.areas, last), k);
    AreaPairsOf(last.areas, last, k);
    var before := AreasOf(AllPairs(front), k);
    if m == last {
      OthersHaveOtherNumbers(ms, m);
      NoAreas(AllPairs(front), k);
      Seqs.NoMore(Labeled(m.areas));
    } else {
      OtherNumber(ms, m);
      AllPairsAreas(front, m);
      Seqs.NoMore(before);
    }
  }

  lemma OtherNumber(ms: seq<Magnet>, m: Magnet)
    requires DistinctMagnets(ms) && m in ms && m != ms[|ms| - 1]
    ensures m in ms[..|ms| - 1] && m.number != ms[|ms| - 1].number && DistinctMagnets(ms[..|ms| - 1])
  {
    var i :| 0 <= i < |ms| && ms[i] == m;
    assert ms[..|ms| - 1][i] == m;
  }

  lemma OthersHaveOtherNumbers(ms: seq<Magnet>, m: Magnet)
    requires DistinctMagnets(ms) && ms != [] && m == ms[|ms| - 1]
    ensures !Mentions(AllPairs(ms[..|ms| - 1]), m.number)
  {
    var front := ms[..|ms| - 1];
    AllPairsMembers(front);
    forall p | p in AllPairs(front)
      ensures p.1.number != m.number
    {
      var i :| 0 <= i < |front| && front[i] == p.1;
      assert ms[i].number != ms[|ms| - 1].number;
    }
  }

  // ----- the round trip -----

  // The parsed entries are the magnets: the same numbers, each once, with its count and the bag of its labels.
  ghost predicate Recovered(es: seq<Entry>, ms: seq<Magnet>) {
    && DistinctEntries(es)
    && (forall e :: e in es ==> exists m :: m in ms && m.number == e.number)
    && (forall m :: m in ms ==> exists e :: e in es && Matches(e, m))
  }

  ghost predicate Matches(e: Entry, m: Magnet) {
    e.number == m.number && e.count == m.count && multiset(e.areas) == multiset(Labeled(m.areas))
  }

  ghost predicate GoodMagnets(ms: seq<Magnet>) {
    forall m :: m in ms ==> m.areas != [] && forall a :: a in m.areas ==> GoodArea(a)
  }

  lemma {:induction false} DistinctPermutes(a: seq<Entry>, b: seq<Entry>)
    requires multiset(a) == multiset(b) && DistinctEntries(a)
    ensures DistinctEntries(b)
    decreases |a|
  {
    SameMultisetMembers(a, b);
    if a != [] {
      var i := LastElsewhere(a, b);
      var front, last := a[..|a| - 1], a[|a| - 1];
      var rest := b[..i] + b[i + 1..];
      DistinctPermutes(front, rest);
      SameMultisetMembers(front, rest);
      forall x | x in rest
        ensures x.number != last.number
      {
        var j :| 0 <= j < |front| && front[j] == x;
        assert a[j].number != a[|a| - 1].number;
      }
      forall x, y | 0 <= x < y < |b|
        ensures b[x].number != b[y].number
      {
        var x', y' := if x < i then x else x - 1, if y < i then y else y - 1;
        if x == i {
          assert b[y] == rest[y'];
        } else if y == i {
          assert b[x] == rest[x'];
        } else {
          assert b[x] == rest[x'] && b[y] == rest[y'];
        }
      }
    }
  }

  lemma RecoveredPermutes(a: seq<Entry>, b: seq<Entry>, ms: seq<Magnet>)
    requires multiset(a) == multiset(b) && Recovered(a, ms)
    ensures Recovered(b, ms)
  {
    DistinctPermutes(a, b);
    SameMultisetMembers(a, b);
  }

  // Printed groups are good when the magnets are.
  lemma GoodPrintedGroups(ms: seq<Magnet>)
    requires GoodMagnets(ms) && forall m :: m in ms ==> IssueUrl(m)
    ensures GoodGroups(PrintedGroups(ms))
  {
    AllPairsMembers(ms);
    GroupsOfGood(AllPairs(ms));
    var groups := GroupsOf(AllPairs(ms));
    SortDescSorts(groups, (g: Group) => g.total);
    SameMultisetMembers(PrintedGroups(ms), groups);
    forall i | 0 <= i < |PrintedGroups(ms)|
      ensures GoodArea(PrintedGroups(ms)[i].area) && forall m :: m in PrintedGroups(ms)[i].infos ==> IssueUrl(m)
    {
      assert PrintedGroups(ms)[i] in groups;
    }
  }

  lemma {:induction false} GroupsOfGood(pairs: seq<(string, Magnet)>)
    requires forall p :: p in pairs ==> GoodArea(p.0) && IssueUrl(p.1)
    ensures GoodGroups(GroupsOf(pairs))
  {
    if pairs != [] {
      assert pairs[|pairs| - 1] in pairs;
      GroupsOfGood(pairs[..|pairs| - 1]);
      AddKeepsGood(GroupsOf(pairs[..|pairs| - 1]), pairs[|pairs| - 1].0, pairs[|pairs| - 1].1);
    }
  }

  lemma {:induction false} AddKeepsGood(groups: seq<Group>, area: string, m: Magnet)
    requires GoodGroups(groups) && GoodArea(area) && IssueUrl(m)
    ensures GoodGroups(AddToGroups(groups, area, m))
  {
    if groups != [] && groups[0].area != area {
      AddKeepsGood(groups[1..], area, m);
    }
  }

  lemma {:induction false} LinesAreWhole(groups: seq<Group>)
    requires GoodGroups(groups)
    ensures forall l :: l in GroupLines(groups) ==> '\n' !in l
  {
    if groups != [] {
      var g := groups[|groups| - 1];
      LinesAreWhole(groups[..|groups| - 1]);
      PrintedInfosPermute(g);
      EntryLinesAreWhole(PrintedInfos(g));
    }
  }

  lemma EntryLineIsWhole(m: Magnet)
    requires IssueUrl(m)
    ensures '\n' !in EntryLine(m)
  {
    EntryLineParts(m);
  }

  lemma {:induction false} EntryLinesAreWhole(infos: seq<Magnet>)
    requires forall m :: m in infos ==> IssueUrl(m)
    ensures forall l :: l in EntryLines(infos) ==> '\n' !in l
  {
    if infos != [] {
      var front, m := infos[..|infos| - 1], infos[|infos| - 1];
      assert m in infos;
      EntryLinesAreWhole(front);
      EntryLineIsWhole(m);
      assert forall l :: l in EntryLines(infos) ==> l in EntryLines(front) || l == EntryLine(m);
    }
  }

  lemma IntroIsInert()
    ensures Classify(Intro()) == Other && '\n' !in Intro()
  {
    FirstHalfIsInert();
    SecondHalfIsInert();
    JoinedIsInert("These are the issues that ", "are frequently re-reported. ",
                  "The list is generated regularly ", "by running a script.");
    StartOf(Intro());
  }

  lemma FirstHalfIsInert()
    ensures "These are the issues that " != "" && "These are the issues that "[0] == 'T'
    ensures '\n' !in "These are the issues that " && '\n' !in "are frequently re-reported. "
  {
  }

  lemma SecondHalfIsInert()
    ensures '\n' !in "The list is generated regularly " && '\n' !in "by running a script."
  {
  }

  lemma JoinedIsInert(a: string, b: string, c: string, d: string)
    requires a != "" && a[0] == 'T'
    requires '\n' !in a && '\n' !in b && '\n' !in c && '\n' !in d
    ensures var s := a + b + c + d; s != "" && s[0] == 'T' && '\n' !in s
  {
    assert forall x :: x in a + b + c + d <==> x in a || x in b || x in c || x in d;
  }

  lemma AllWhole(intro: string, more: seq<string>)
    requires '\n' !in intro && forall l :: l in more ==> '\n' !in l
    ensures forall i :: 0 <= i < |[intro] + more| ==> '\n' !in ([intro] + more)[i]
  {
    forall i | 0 <= i < |[intro] + more|
      ensures '\n' !in ([intro] + more)[i]
    {
      assert i > 0 ==> ([intro] + more)[i] == more[i - 1];
    }
  }

  lemma BodyFeeds(intro: string, groups: seq<Group>)
    requires Classify(intro) == Other && '\n' !in intro
    requires GoodGroups(groups)
    ensures FeedAll(START, SplitLines(JoinLines([intro] + GroupLines(groups)))).entries == FeedPairs([], Flatten(groups))
  {
    LinesAreWhole(groups);
    AllWhole(intro, GroupLines(groups));
    SplitJoin([intro] + GroupLines(groups));
    FeedAllConcat(START, [intro], GroupLines(groups));
    GroupsFeed(groups);
  }

  lemma ParsedEntries(ms: seq<Magnet>)
    requires GoodMagnets(ms) && forall m :: m in ms ==> IssueUrl(m)
    ensures FeedAll(START, SplitLines(MarkdownBody(ms))).entries == FeedPairs([], Flatten(PrintedGroups(ms)))
  {
    GoodPrintedGroups(ms);
    IntroIsInert();
    BodyFeeds(Intro(), PrintedGroups(ms));
  }

  lemma FedPairsRecover(ms: seq<Magnet>, pairs: seq<(string, Magnet)>)
    requires DistinctMagnets(ms) && GoodMagnets(ms) && multiset(pairs) == multiset(AllPairs(ms))
    ensures Recovered(FeedPairs([], pairs), ms)
  {
    var es := FeedPairs([], pairs);
    AllPairsMembers(ms);
    SameMultisetMembers(pairs, AllPairs(ms));
    forall m | m in ms
      ensures exists e :: e in es && Matches(e, m)
    {
      assert m.areas[0] in m.areas;
      assert (m.areas[0], m) in pairs;
      SameNumberSameMagnet(ms, m);
      FeedPairsLookup(pairs, m.number, m.count);
      AreasPermute(pairs, AllPairs(ms), m.number);
      AllPairsAreas(ms, m);
      var e := Entry(m.number, AreasOf(pairs, m.number), m.count);
      LookupMember(es, e);
      assert Matches(e, m);
    }
    FedNumbers(pairs);
    forall e | e in es
      ensures exists m :: m in ms && m.number == e.number
    {
      var p :| p in pairs && p.1.number == e.number;
      assert p.1 in ms;
    }
  }

  lemma SameNumberSameMagnet(ms: seq<Magnet>, m: Magnet)
    requires DistinctMagnets(ms) && m in ms
    ensures forall x :: x in ms && x.number == m.number ==> x == m
  {
  }

  lemma {:induction false} FedNumbers(pairs: seq<(string, Magnet)>)
    ensures DistinctEntries(FeedPairs([], pairs))
    ensures forall e :: e in FeedPairs([], pairs) ==> Mentions(pairs, e.number)
  {
    if pairs != [] {
      var front, last := pairs[..|pairs| - 1], pairs[|pairs| - 1];
      FedNumbers(front);
      RecordMembers(FeedPairs([], front), last.1.number, last.1.count, last.0);
      assert last in pairs;
      forall e | e in FeedPairs([], pairs)
        ensures Mentions(pairs, e.number)
      {
        if e.number != last.1.number {
          var d :| d in FeedPairs([], front) && d.number == e.number;
          var p :| p in front && p.1.number == d.number;
          assert p in pairs;
        }
      }
    }
  }

  // What the parser has after some lines: a good current area, and entries with good areas only.
  ghost predicate Sane(p: Parser) {
    && (p.current == "" || GoodArea(p.current))
    && DistinctEntries(p.entries)
    && forall e, a :: e in p.entries && a in e.areas ==> GoodArea(a)
  }

  lemma RecordKeepsSane(p: Parser, number: int, count: int)
    requires Sane(p) && p.current != ""
    ensures Sane(p.(entries := Record(p.entries, number, count, p.current)))
  {
    RecordMembers(p.entries, number, count, p.current);
  }

  lemma HeaderIsSane(name: string)
    requires '\n' !in name
    ensures Strip(name) == "" || GoodArea(Strip(name))
  {
    StripTrims(name);
  }

  lemma FeedKeepsSane(p: Parser, line: string)
    requires Sane(p) && '\n' !in line
    ensures Sane(Feed(p, line))
  {
    var kind := Classify(line);
    match kind
    case Header(_) => HeaderIsSane(line[3..]);
    case Item(count, number) =>
      if p.current != "" {
        RecordKeepsSane(p, number, count);
      }
    case Other =>
  }

  // Whatever body it reads, the parser only ever records good area names.
  lemma {:induction false} ParsedAreasAreGood(lines: seq<string>)
    requires forall i :: 0 <= i < |lines| ==> '\n' !in lines[i]
    ensures Sane(FeedAll(START, lines))
  {
    if lines != [] {
      ParsedAreasAreGood(lines[..|lines| - 1]);
      FeedKeepsSane(FeedAll(START, lines[..|lines| - 1]), lines[|lines| - 1]);
    }
  }

  lemma {:induction false} LabeledMembers(areas: seq<string>)
    ensures forall a :: a in Labeled(areas) <==> a in areas && a != UNLABELED
  {
    if areas != [] {
      LabeledMembers(areas[..|areas| - 1]);
      assert areas == areas[..|areas| - 1] + [areas[|areas| - 1]];
    }
  }

  lemma ParseIsGood(body: string)
    ensures AllGood(Parse(body))
  {
    var found := FeedAll(START, SplitLines(body)).entries;
    ParsedAreasAreGood(SplitLines(body));
    SortDescSorts(found, (e: Entry) => e.count);
    SameMultisetMembers(Parse(body), found);
  }

  lemma MatchedAreasAreGood(e: Entry, m: Magnet)
    requires Matches(e, m) && forall a :: a in e.areas ==> GoodArea(a)
    ensures forall a :: a in m.areas ==> GoodArea(a)
  {
    LabeledMembers(m.areas);
    SameMultisetMembers(e.areas, Labeled(m.areas));
    assert UNLABELED[0] == '(' && UNLABELED[|UNLABELED| - 1] == ')';
    assert GoodArea(UNLABELED);
  }

  ghost predicate AllGood(es: seq<Entry>) {
    forall e :: e in es ==> forall a :: a in e.areas ==> GoodArea(a)
  }

  lemma RecoveredAreasAreGood(es: seq<Entry>, m: Magnet)
    requires (exists e :: e in es && Matches(e, m)) && AllGood(es)
    ensures forall a :: a in m.areas ==> GoodArea(a)
  {
    var e :| e in es && Matches(e, m);
    MatchedAreasAreGood(e, m);
  }

  /** The contract between the two scripts. Parsing the printed body gives every magnet back,
      its count and its labels, if the area names are trimmed, newline-free and not empty. */
  lemma RoundTrip(ms: seq<Magnet>)
    requires DistinctMagnets(ms) && (forall m :: m in ms ==> IssueUrl(m)) && GoodMagnets(ms)
    ensures Recovered(Parse(MarkdownBody(ms)), ms)
  {
    ParsedEntries(ms);
    PrintedPairsArePermuted(ms);
    FedPairsRecover(ms, Flatten(PrintedGroups(ms)));
    var found := FeedAll(START, SplitLines(MarkdownBody(ms))).entries;
    SortDescSorts(found, (e: Entry) => e.count);
    RecoveredPermutes(found, Parse(MarkdownBody(ms)), ms);
  }

  /** And only then. */
  lemma RoundTripIff(ms: seq<Magnet>)
    requires DistinctMagnets(ms) && (forall m :: m in ms ==> IssueUrl(m) && m.areas != [])
    ensures Recovered(Parse(MarkdownBody(ms)), ms) <==> forall m, a :: m in ms && a in m.areas ==> GoodArea(a)
  {
    if Recovered(Parse(MarkdownBody(ms)), ms) {
      var es := Parse(MarkdownBody(ms));
      ParseIsGood(MarkdownBody(ms));
      forall m | m in ms
        ensures forall a :: a in m.areas ==> GoodArea(a)
      {
        RecoveredAreasAreGood(es, m);
      }
    }
    if forall m, a :: m in ms && a in m.areas ==> GoodArea(a) {
      RoundTrip(ms);
    }
  }

  /** The parser lists the most duplicated first. */
  lemma ParseDescends(body: string)
    ensures forall i, j :: 0 <= i < j < |Parse(body)| ==> Parse(body)[j].count <= Parse(body)[i].count
  {
    var key := (e: Entry) => e.count;
    SortDescSorts(FeedAll(START, SplitLines(body)).entries, key);
    assert Descending(Parse(body), key);
  }

  // ----- the scripts' own loops -----

  // One more label of `m`, on top of the pairs in `before`.
  lemma GroupsStep(before: seq<(string, Magnet)>, m: Magnet, j: nat)
    requires j < |m.areas|
    ensures GroupsOf(before + AreaPairs(m.areas[..j + 1], m)) ==
            AddToGroups(GroupsOf(before + AreaPairs(m.areas[..j], m)), m.areas[j], m)
  {
    var pairs, pair := before + AreaPairs(m.areas[..j], m), (m.areas[j], m);
    Seqs.TakeTake(m.areas, j, j + 1);
    Seqs.Regroup(before, AreaPairs(m.areas[..j], m), [pair]);
    Seqs.TakeOfConcat(pairs, [pair]);
    GroupsOfOneMore(pairs, pair);
  }

  lemma GroupsOfOneMore(pairs: seq<(string, Magnet)>, pair: (string, Magnet))
    ensures GroupsOf(pairs + [pair]) == AddToGroups(GroupsOf(pairs), pair.0, pair.1)
  {
    Seqs.TakeOfConcat(pairs, [pair]);
  }

  lemma AllPairsStep(ms: seq<Magnet>, i: nat)
    requires i < |ms|
    ensures AllPairs(ms[..i + 1]) == AllPairs(ms[..i]) + AreaPairs(ms[i].areas, ms[i])
  {
    Seqs.TakeTake(ms, i, i + 1);
  }

  // The first loop: by_area and area_totals, which are keyed alike.
  method GroupByArea(duplicateMagnets: seq<Magnet>) returns (groups: seq<Group>)
    ensures groups == GroupsOf(AllPairs(duplicateMagnets))
  {
    groups := [];
    for i := 0 to |duplicateMagnets|
      invariant groups == GroupsOf(AllPairs(duplicateMagnets[..i]))
    {
      ghost var before := AllPairs(duplicateMagnets[..i]);
      AllPairsStep(duplicateMagnets, i);
      groups := AddLabels(groups, duplicateMagnets[i], before);
    }
    Seqs.TakeAll(duplicateMagnets);
  }

  // Its inner loop, over the labels of one magnet.
  method AddLabels(given: seq<Group>, info: Magnet, ghost before: seq<(string, Magnet)>) returns (groups: seq<Group>)
    requires given == GroupsOf(before)
    ensures groups == GroupsOf(before + AreaPairs(info.areas, info))
  {
    groups := given;
    Seqs.NoMore(before);
    for j := 0 to |info.areas|
      invariant groups == GroupsOf(before + AreaPairs(info.areas[..j], info))
    {
      GroupsStep(before, info, j);
      groups := AddToGroups(groups, info.areas[j], info);
    }
    Seqs.TakeAll(info.areas);
  }

  lemma EntryLinesStep(infos: seq<Magnet>, j: nat, before: seq<string>)
    requires j < |infos|
    ensures before + EntryLines(infos[..j]) + [EntryLine(infos[j])] == before + EntryLines(infos[..j + 1])
  {
    Seqs.TakeTake(infos, j, j + 1);
    Seqs.Regroup(before, EntryLines(infos[..j]), [EntryLine(infos[j])]);
  }

  lemma GroupLinesStep(groups: seq<Group>, i: nat, before: seq<string>)
    requires i < |groups|
    ensures before + GroupLines(groups[..i]) + ["", "## " + groups[i].area, ""] + EntryLines(PrintedInfos(groups[i])) ==
            before + GroupLines(groups[..i + 1])
  {
    var heading, items := ["", "## " + groups[i].area, ""], EntryLines(PrintedInfos(groups[i]));
    Seqs.TakeTake(groups, i, i + 1);
    Seqs.Regroup(before, GroupLines(groups[..i]), heading);
    Seqs.Regroup(before, GroupLines(groups[..i]) + heading, items);
  }

  // The inner loop of the second loop.
  method AppendEntries(lines: seq<string>, issues: seq<Magnet>) returns (r: seq<string>)
    ensures r == lines + EntryLines(issues)
  {
    r := lines;
    Seqs.NoMore(lines);
    for j := 0 to |issues|
      invariant r == lines + EntryLines(issues[..j])
    {
      EntryLinesStep(issues, j, lines);
      r := r + [EntryLine(issues[j])];
    }
    assert issues[..|issues|] == issues;
  }

  // The second loop, over the areas in order.
  method AppendLines(intro: string, groups: seq<Group>) returns (lines: seq<string>)
    ensures lines == [intro] + GroupLines(groups)
  {
    lines := [intro];
    for i := 0 to |groups|
      invariant lines == [intro] + GroupLines(groups[..i])
    {
      var g := groups[i];
      var issues := SortDesc(g.infos, (m: Magnet) => m.count);
      GroupLinesStep(groups, i, [intro]);
      lines := lines + ["", "## " + g.area, ""];
      lines := AppendEntries(lines, issues);
    }
    assert groups[..|groups|] == groups;
  }

  method BuildMarkdownBody(duplicateMagnets: seq<Magnet>) returns (body: string)
    ensures body == MarkdownBody(duplicateMagnets)
  {
    var groups := GroupByArea(duplicateMagnets);
    var lines := AppendLines(Intro(), SortDesc(groups, (g: Group) => g.total));
    body := JoinLines(lines);
  }

  lemma FeedAllStep(lines: seq<string>, i: nat)
    requires i < |lines|
    ensures FeedAll(START, lines[..i + 1]) == Feed(FeedAll(START, lines[..i]), lines[i])
  {
    Seqs.TakeTake(lines, i, i + 1);
  }

  // One turn of the loop over the body's lines.
  method ReadLine(currentArea: string, found: seq<Entry>, line: string) returns (area: string, entries: seq<Entry>)
    ensures Parser(area, entries) == Feed(Parser(currentArea, found), line)
  {
    area, entries := currentArea, found;
    if StartsWith(line, "## ") {
      area := Strip(line[3..]);
      return;
    }
    if currentArea == "" || !StartsWith(line, "-") || Find(line, ISSUES) == |line| {
      return;
    }
    var dupeCount := FirstInt(SecondPart(line, "["), false);
    var number := FirstInt(SecondPart(line, ISSUES), true);
    if dupeCount.None? || number.None? {
      return;
    }
    entries := Record(found, number.value, dupeCount.value, currentArea);
  }

  method ParseDuplicateMagnets(body: Option<string>) returns (magnets: seq<Entry>)
    ensures magnets == Parse(if body.Some? then body.value else "")
  {
    var lines := SplitLines(if body.Some? then body.value else "");
    var currentArea, found := "", [];
    for i := 0 to |lines|
      invariant Parser(currentArea, found) == FeedAll(START, lines[..i])
    {
      FeedAllStep(lines, i);
      currentArea, found := ReadLine(currentArea, found, lines[i]);
    }
    assert lines[..|lines|] == lines;
    magnets := SortDesc(found, (e: Entry) => e.count);
  }

  // ----- what the printer is given -----

  const AREA_PREFIX := "area:"

  // A timeline node: a duplicate that is closed, or anything else.
  datatype DuplicateEvent = ClosedDuplicate(number: nat) | OtherEvent

  // `s.replace(pat, "")`
  function RemoveAll(s: string, pat: string): string
    requires pat != ""
  {
    if s == [] then [] else if pat <= s then RemoveAll(s[|pat|..], pat) else [s[0]] + RemoveAll(s[1..], pat)
  }

  function AreaLabels(labels: seq<string>): seq<string> {
    if labels == [] then []
    else
      AreaLabels(labels[..|labels| - 1]) +
      (if AREA_PREFIX <= labels[|labels| - 1] then [RemoveAll(labels[|labels| - 1], AREA_PREFIX)] else [])
  }

  // Every magnet the printer is given has at least one area and two distinct closed duplicates.
  method ExtractDuplicateInfo(number: nat, url: string, labels: seq<string>, events: seq<DuplicateEvent>)
    returns (info: Option<Magnet>)
    ensures var closed := set e | e in events && e.ClosedDuplicate? :: e.number;
            && (info.Some? <==> |closed| >= 2)
            && (info.Some? ==> info.value.number == number && info.value.url == url && info.value.count == |closed|)
    ensures info.Some? ==> info.value.areas != []
    ensures info.Some? ==>
              info.value.areas == if exists l :: l in labels && AREA_PREFIX <= l then AreaLabels(labels) else [UNLABELED]
  {
    var seen: set<nat> := {};
    for i := 0 to |events|
      invariant seen == set e | e in events[..i] && e.ClosedDuplicate? :: e.number
    {
      assert events[..i + 1] == events[..i] + [events[i]];
      if events[i].ClosedDuplicate? {
        seen := seen + {events[i].number};
      }
    }
    assert events[..|events|] == events;
    if |seen| < 2 {
      return None;
    }
    var areas := AreaLabels(labels);
    AreaLabelsPresent(labels);
    return Some(Magnet(number, url, if areas != [] then areas else [UNLABELED], |seen|));
  }

  lemma {:induction false} AreaLabelsPresent(labels: seq<string>)
    ensures AreaLabels(labels) != [] <==> exists l :: l in labels && AREA_PREFIX <= l
  {
    if labels != [] {
      var front, last := labels[..|labels| - 1], labels[|labels| - 1];
      AreaLabelsPresent(front);
      assert labels == front + [last];
      assert forall l :: l in labels <==> l in front || l == last;
      var added := if AREA_PREFIX <= last then [RemoveAll(last, AREA_PREFIX)] else [];
      assert AreaLabels(labels) == AreaLabels(front) + added;
      if AREA_PREFIX <= last {
        assert added != [] && last in labels;
      } else {
        assert added == [];
        assert (exists l :: l in labels && AREA_PREFIX <= l) <==> (exists l :: l in front && AREA_PREFIX <= l);
      }
    }
  }

  // The label that is the bare prefix names the empty area.
  lemma {:induction false} BareLabelIsEmptyArea(labels: seq<string>)
    requires AREA_PREFIX in labels
    ensures "" in AreaLabels(labels)
  {
    var front, last := labels[..|labels| - 1], labels[|labels| - 1];
    if last == AREA_PREFIX {
      BareLabelAlone();
    } else {
      Seqs.FrontLast(labels);
      BareLabelIsEmptyArea(front);
    }
  }

  lemma BareLabelAlone()
    ensures RemoveAll(AREA_PREFIX, AREA_PREFIX) == "" && AreaLabels([AREA_PREFIX]) == [""]
  {
    assert RemoveAll(AREA_PREFIX, AREA_PREFIX) == RemoveAll(AREA_PREFIX[|AREA_PREFIX|..], AREA_PREFIX);
    assert [AREA_PREFIX][..0] == [];
  }

  /** A magnet with the label "area:" does not survive printing and parsing, whatever else is printed with it. */
  lemma BareLabelIsNotRecovered(ms: seq<Magnet>, m: Magnet, labels: seq<string>)
    requires DistinctMagnets(ms) && (forall x :: x in ms ==> IssueUrl(x) && x.areas != [])
    requires m in ms && m.areas == AreaLabels(labels) && AREA_PREFIX in labels
    ensures !Recovered(Parse(MarkdownBody(ms)), ms)
  {
    BareLabelIsEmptyArea(labels);
    RoundTripIff(ms);
    assert !GoodArea("");
  }

  // The smallest such board: one issue, whose one label is "area:".
  lemma OneBareLabel(m: Magnet)
    requires IssueUrl(m) && m.areas == AreaLabels([AREA_PREFIX])
    ensures m.areas == [""] && !Recovered(Parse(MarkdownBody([m])), [m])
  {
    BareLabelAlone();
    BareLabelIsNotRecovered([m], m, [AREA_PREFIX]);
  }
}
