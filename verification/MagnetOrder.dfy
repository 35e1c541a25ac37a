/**
 In what order the tracking issue is printed (script/github-find-top-duplicated-bugs.py):
 the areas by the duplicates of their magnets, and the magnets of an area by their own.
 */
module MagnetOrder {
  import opened Wrappers
  import opened Magnets
  import opened Sorting
  import MagnetText
  import Seqs

  // ----- totals, counted over the magnets -----

  // All labels, in the order the script comes upon them.
  function Labelings(ms: seq<Magnet>): seq<string> {
    if ms == [] then [] else Labelings(ms[..|ms| - 1]) + ms[|ms| - 1].areas
  }

  // The duplicates of all magnets with that label; a label counts as often as a magnet has it.
  function TotalOf(ms: seq<Magnet>, area: string): nat {
    if ms == [] then 0
    else TotalOf(ms[..|ms| - 1], area) + Times(ms[|ms| - 1].areas, area) * ms[|ms| - 1].count
  }

  function Times(areas: seq<string>, area: string): nat {
    if areas == [] then 0 else Times(areas[..|areas| - 1], area) + (if areas[|areas| - 1] == area then 1 else 0)
  }

  // The magnets with that label, as often as they have it.
  function MagnetsOf(ms: seq<Magnet>, area: string): seq<Magnet> {
    if ms == [] then []
    else MagnetsOf(ms[..|ms| - 1], area) + seq(Times(ms[|ms| - 1].areas, area), _ => ms[|ms| - 1])
  }

  // Where `x` first occurs.
  function FirstUse<T(==)>(s: seq<T>, x: T): (i: nat)
    ensures i <= |s|
  {
    if s == [] || s[0] == x then 0 else 1 + FirstUse(s[1..], x)
  }

  // The areas that have a heading, most duplicates first, and among equals the one used first.
  ghost predicate Ranked(ms: seq<Magnet>, areas: seq<string>) {
    && (forall a :: a in areas <==> exists m :: m in ms && a in m.areas)
    && forall i, j :: 0 <= i < j < |areas| ==>
         || TotalOf(ms, areas[i]) > TotalOf(ms, areas[j])
         || (TotalOf(ms, areas[i]) == TotalOf(ms, areas[j]) &&
             FirstUse(Labelings(ms), areas[i]) < FirstUse(Labelings(ms), areas[j]))
  }

  // The magnets under a heading, most duplicates first.
  ghost predicate Listed(ms: seq<Magnet>, area: string, infos: seq<Magnet>) {
    && multiset(infos) == multiset(MagnetsOf(ms, area))
    && forall i, j :: 0 <= i < j < |infos| ==> infos[j].count <= infos[i].count
  }

  function Section(area: string, infos: seq<Magnet>): seq<string> {
    ["", "## " + area, ""] + EntryLines(infos)
  }

  function Sections(areas: seq<string>, lists: seq<seq<Magnet>>): seq<string>
    requires |areas| == |lists|
  {
    if areas == [] then []
    else Sections(areas[..|areas| - 1], lists[..|lists| - 1]) + Section(areas[|areas| - 1], lists[|lists| - 1])
  }

  // ----- what a group holds -----

  function Lookup(groups: seq<Group>, area: string): Option<Group> {
    if groups == [] then None else if groups[0].area == area then Some(groups[0]) else Lookup(groups[1..], area)
  }

  // The group as it is after all pairs in `pairs`.
  function PairInfos(pairs: seq<(string, Magnet)>, area: string): seq<Magnet> {
    if pairs == [] then []
    else PairInfos(pairs[..|pairs| - 1], area) + (if pairs[|pairs| - 1].0 == area then [pairs[|pairs| - 1].1] else [])
  }

  function PairTotal(pairs: seq<(string, Magnet)>, area: string): nat {
    if pairs == [] then 0
    else PairTotal(pairs[..|pairs| - 1], area) + (if pairs[|pairs| - 1].0 == area then pairs[|pairs| - 1].1.count else 0)
  }

  lemma {:induction false} AddedLookup(groups: seq<Group>, area: string, m: Magnet, a: string)
    ensures Lookup(AddToGroups(groups, area, m), a) ==
            if a != area then Lookup(groups, a)
            else match Lookup(groups, a)
                 case None => Some(Group(area, [m], m.count))
                 case Some(g) => Some(Group(area, g.infos + [m], g.total + m.count))
  {
    if groups != [] && groups[0].area != area {
      AddedLookup(groups[1..], area, m, a);
      Seqs.TailOfCons(groups[0], AddToGroups(groups[1..], area, m));
    } else if groups != [] {
      Seqs.TailOfCons(Group(area, groups[0].infos + [m], groups[0].total + m.count), groups[1..]);
    }
  }

  lemma {:induction false} NoInfosNoTotal(pairs: seq<(string, Magnet)>, a: string)
    ensures PairInfos(pairs, a) == [] ==> PairTotal(pairs, a) == 0
  {
    if pairs != [] {
      NoInfosNoTotal(pairs[..|pairs| - 1], a);
    }
  }

  lemma InfosNext(pairs: seq<(string, Magnet)>, p: (string, Magnet), a: string)
    ensures PairInfos(pairs + [p], a) == if p.0 == a then PairInfos(pairs, a) + [p.1] else PairInfos(pairs, a)
    ensures PairTotal(pairs + [p], a) == if p.0 == a then PairTotal(pairs, a) + p.1.count else PairTotal(pairs, a)
    ensures PairInfos(pairs, a) == [] ==> PairInfos(pairs, a) + [p.1] == [p.1]
    ensures PairInfos(pairs, a) + [p.1] != []
  {
    Seqs.TakeOfConcat(pairs, [p]);
    Seqs.NoMore(PairInfos(pairs, a));
    Seqs.NoMore([p.1]);
  }

  lemma {:induction false} GroupedLookup(pairs: seq<(string, Magnet)>, a: string)
    ensures Lookup(GroupsOf(pairs), a) ==
            if PairInfos(pairs, a) == [] then None else Some(Group(a, PairInfos(pairs, a), PairTotal(pairs, a)))
  {
    if pairs != [] {
      var front, last := pairs[..|pairs| - 1], pairs[|pairs| - 1];
      GroupedLookup(front, a);
      AddedLookup(GroupsOf(front), last.0, last.1, a);
      NoInfosNoTotal(front, a);
      InfosNext(front, last, a);
      Seqs.FrontLast(pairs);
    }
  }

  lemma {:induction false} InfosConcat(a: seq<(string, Magnet)>, b: seq<(string, Magnet)>, area: string)
    ensures PairInfos(a + b, area) == PairInfos(a, area) + PairInfos(b, area)
    ensures PairTotal(a + b, area) == PairTotal(a, area) + PairTotal(b, area)
  {
    if b == [] {
      Seqs.NoMore(a);
      Seqs.NoMore(PairInfos(a, area));
    } else {
      var last := b[|b| - 1];
      InfosConcat(a, b[..|b| - 1], area);
      Seqs.FrontOfConcat(a, b);
      Seqs.Regroup(PairInfos(a, area), PairInfos(b[..|b| - 1], area), if last.0 == area then [last.1] else []);
    }
  }

  lemma RepeatOnce<T>(n: nat, x: T)
    ensures seq(n, _ => x) + [x] == seq(n + 1, _ => x)
  {
  }

  lemma {:induction false} InfosOfOne(areas: seq<string>, m: Magnet, area: string)
    ensures PairInfos(AreaPairs(areas, m), area) == seq(Times(areas, area), _ => m)
    ensures PairTotal(AreaPairs(areas, m), area) == Times(areas, area) * m.count
  {
    if areas != [] {
      var front, last := areas[..|areas| - 1], areas[|areas| - 1];
      InfosOfOne(front, m, area);
      Seqs.TakeOfConcat(AreaPairs(front, m), [(last, m)]);
      RepeatOnce(Times(front, area), m);
      Seqs.NoMore(PairInfos(AreaPairs(front, m), area));
      OneMoreTime(Times(front, area), m.count);
    }
  }

  lemma OneMoreTime(n: nat, count: nat)
    ensures (n + 1) * count == n * count + count
  {
  }

  lemma {:induction false} InfosOfAll(ms: seq<Magnet>, area: string)
    ensures PairInfos(AllPairs(ms), area) == MagnetsOf(ms, area)
    ensures PairTotal(AllPairs(ms), area) == TotalOf(ms, area)
  {
    if ms != [] {
      var front, m := ms[..|ms| - 1], ms[|ms| - 1];
      InfosOfAll(front, area);
      InfosConcat(AllPairs(front), AreaPairs(m.areas, m), area);
      InfosOfOne(m.areas, m, area);
    }
  }

  // ----- which areas have a group, and in what order -----

  function GroupAreas(groups: seq<Group>): seq<string> {
    seq(|groups|, i requires 0 <= i < |groups| => groups[i].area)
  }

  // The first occurrences, in order.
  function Uniques(s: seq<string>): seq<string> {
    if s == [] then [] else AddUnique(Uniques(s[..|s| - 1]), s[|s| - 1])
  }

  function AddUnique(s: seq<string>, x: string): seq<string> {
    if x in s then s else s + [x]
  }

  lemma AddUniqueCons(x: string, rest: seq<string>, y: string)
    ensures AddUnique([x] + rest, y) == if x == y then [x] + rest else [x] + AddUnique(rest, y)
  {
    if x != y && y !in rest {
      Seqs.Regroup([x], rest, [y]);
    }
  }

  lemma AreasCons(g: Group, groups: seq<Group>)
    ensures GroupAreas([g] + groups) == [g.area] + GroupAreas(groups)
  {
  }

  lemma {:induction false} AddedAreas(groups: seq<Group>, area: string, m: Magnet)
    ensures GroupAreas(AddToGroups(groups, area, m)) == AddUnique(GroupAreas(groups), area)
  {
    if groups == [] {
      assert GroupAreas([Group(area, [m], m.count)]) == [area];
    } else {
      Seqs.HeadTail(groups);
      AreasCons(groups[0], groups[1..]);
      AddUniqueCons(groups[0].area, GroupAreas(groups[1..]), area);
      if groups[0].area == area {
        AreasCons(Group(area, groups[0].infos + [m], groups[0].total + m.count), groups[1..]);
      } else {
        AddedAreas(groups[1..], area, m);
        AreasCons(groups[0], AddToGroups(groups[1..], area, m));
      }
    }
  }

  function PairAreas(pairs: seq<(string, Magnet)>): seq<string> {
    seq(|pairs|, i requires 0 <= i < |pairs| => pairs[i].0)
  }

  lemma PairAreasAppend(pairs: seq<(string, Magnet)>, p: (string, Magnet))
    ensures PairAreas(pairs + [p]) == PairAreas(pairs) + [p.0]
  {
  }

  lemma {:induction false} GroupedAreas(pairs: seq<(string, Magnet)>)
    ensures GroupAreas(GroupsOf(pairs)) == Uniques(PairAreas(pairs))
  {
    if pairs == [] {
      assert GroupAreas([]) == [];
    } else {
      var front, last := pairs[..|pairs| - 1], pairs[|pairs| - 1];
      GroupedAreas(front);
      AddedAreas(GroupsOf(front), last.0, last.1);
      Seqs.FrontLast(pairs);
      PairAreasAppend(front, last);
      Seqs.TakeOfConcat(PairAreas(front), [last.0]);
    }
  }

  lemma {:induction false} AreasOfOne(areas: seq<string>, m: Magnet)
    ensures PairAreas(AreaPairs(areas, m)) == areas
  {
    if areas != [] {
      var front, last := areas[..|areas| - 1], areas[|areas| - 1];
      AreasOfOne(front, m);
      PairAreasAppend(AreaPairs(front, m), (last, m));
      Seqs.FrontLast(areas);
    }
  }

  lemma PairAreasConcat(a: seq<(string, Magnet)>, b: seq<(string, Magnet)>)
    ensures PairAreas(a + b) == PairAreas(a) + PairAreas(b)
  {
  }

  lemma {:induction false} AreasOfAll(ms: seq<Magnet>)
    ensures PairAreas(AllPairs(ms)) == Labelings(ms)
  {
    if ms != [] {
      var front, m := ms[..|ms| - 1], ms[|ms| - 1];
      AreasOfAll(front);
      PairAreasConcat(AllPairs(front), AreaPairs(m.areas, m));
      AreasOfOne(m.areas, m);
    }
  }

  lemma {:induction false} FirstUseAppend(s: seq<string>, last: string, x: string)
    ensures FirstUse(s + [last], x) == if x in s then FirstUse(s, x) else if x == last then |s| else |s| + 1
    ensures x in s <==> FirstUse(s, x) < |s|
  {
    if s != [] {
      FirstUseAppend(s[1..], last, x);
      Seqs.TailOfConcat(s, [last]);
      Seqs.HeadTail(s);
    } else {
      Seqs.NoMore([last]);
    }
  }

  lemma {:induction false} UniquesInOrder(s: seq<string>)
    ensures forall x :: x in Uniques(s) <==> x in s
    ensures forall i, j :: 0 <= i < j < |Uniques(s)| ==> FirstUse(s, Uniques(s)[i]) < FirstUse(s, Uniques(s)[j])
  {
    if s != [] {
      var front, last := s[..|s| - 1], s[|s| - 1];
      UniquesInOrder(front);
      Seqs.FrontLast(s);
      forall x
        ensures FirstUse(s, x) == if x in front then FirstUse(front, x) else if x == last then |front| else |front| + 1
        ensures x in front <==> FirstUse(front, x) < |front|
      {
        FirstUseAppend(front, last, x);
      }
      forall i, j | 0 <= i < j < |Uniques(s)|
        ensures FirstUse(s, Uniques(s)[i]) < FirstUse(s, Uniques(s)[j])
      {
        assert Uniques(s)[i] == Uniques(front)[i] && Uniques(front)[i] in front;
        assert j < |Uniques(front)| ==> Uniques(s)[j] == Uniques(front)[j] && Uniques(front)[j] in front;
      }
    }
  }

  // ----- sorting keeps ties in order -----

  ghost predicate InRank<T>(xs: seq<T>, key: T -> int, pos: T -> int) {
    forall i, j :: 0 <= i < j < |xs| ==> Above(xs[i], xs[j], key, pos)
  }

  predicate Above<T>(x: T, y: T, key: T -> int, pos: T -> int) {
    key(x) > key(y) || (key(x) == key(y) && pos(x) < pos(y))
  }

  lemma {:induction false} InsertRanks<T>(x: T, xs: seq<T>, key: T -> int, pos: T -> int)
    requires InRank(xs, key, pos) && forall y :: y in xs ==> pos(x) < pos(y)
    ensures InRank(Insert(x, xs, key), key, pos)
  {
    if xs == [] || key(xs[0]) <= key(x) {
      ConsRanks(x, xs, key, pos);
    } else {
      var rest := Insert(x, xs[1..], key);
      Seqs.HeadTail(xs);
      InsertRanks(x, xs[1..], key, pos);
      InsertPermutes(x, xs[1..], key);
      forall y | y in rest
        ensures Above(xs[0], y, key, pos)
      {
        assert y in multiset(rest);
        if y != x {
          assert y in xs[1..];
        }
      }
      ConsAbove(xs[0], rest, key, pos);
    }
  }

  lemma ConsAbove<T>(x: T, xs: seq<T>, key: T -> int, pos: T -> int)
    requires InRank(xs, key, pos) && forall y :: y in xs ==> Above(x, y, key, pos)
    ensures InRank([x] + xs, key, pos)
  {
    var all := [x] + xs;
    forall i, j | 0 <= i < j < |all|
      ensures Above(all[i], all[j], key, pos)
    {
      assert all[j] == xs[j - 1] && (i > 0 ==> all[i] == xs[i - 1]);
    }
  }

  lemma ConsRanks<T>(x: T, xs: seq<T>, key: T -> int, pos: T -> int)
    requires InRank(xs, key, pos) && (forall y :: y in xs ==> pos(x) < pos(y)) && (xs != [] ==> key(xs[0]) <= key(x))
    ensures InRank([x] + xs, key, pos)
  {
    forall y | y in xs
      ensures Above(x, y, key, pos)
    {
      var i :| 0 <= i < |xs| && xs[i] == y;
      assert i > 0 ==> Above(xs[0], xs[i], key, pos);
    }
    ConsAbove(x, xs, key, pos);
  }

  lemma {:induction false} SortRanks<T>(xs: seq<T>, key: T -> int, pos: T -> int)
    requires forall i, j :: 0 <= i < j < |xs| ==> pos(xs[i]) < pos(xs[j])
    ensures InRank(SortDesc(xs, key), key, pos)
  {
    if xs != [] {
      var x, rest := xs[0], xs[1..];
      var sorted := SortDesc(rest, key);
      SortRanks(rest, key, pos);
      SortDescSorts(rest, key);
      forall y | y in rest
        ensures pos(x) < pos(y)
      {
        var j :| 0 <= j < |rest| && rest[j] == y;
        assert xs[j + 1] == y;
      }
      AllAfter(x, rest, sorted, pos);
      InsertRanks(x, sorted, key, pos);
    }
  }

  lemma AllAfter<T>(x: T, xs: seq<T>, ys: seq<T>, pos: T -> int)
    requires multiset(xs) == multiset(ys) && forall y :: y in xs ==> pos(x) < pos(y)
    ensures forall y :: y in ys ==> pos(x) < pos(y)
  {
    SameMultisetMembers(xs, ys);
  }

  // ----- the printed order -----

  lemma {:induction false} DistinctLookup(groups: seq<Group>, i: nat)
    requires i < |groups| && forall h, j :: 0 <= h < j < |groups| ==> groups[h].area != groups[j].area
    ensures Lookup(groups, groups[i].area) == Some(groups[i])
  {
    if i > 0 {
      assert groups[0].area != groups[i].area;
      DistinctLookup(groups[1..], i - 1);
    }
  }

  // Every group is that of its area, and they come in the order of first use.
  lemma GroupsAre(ms: seq<Magnet>)
    ensures var groups := GroupsOf(AllPairs(ms));
            && (forall g :: g in groups ==> g == Group(g.area, MagnetsOf(ms, g.area), TotalOf(ms, g.area)))
            && (forall i, j :: 0 <= i < j < |groups| ==>
                  FirstUse(Labelings(ms), groups[i].area) < FirstUse(Labelings(ms), groups[j].area))
            && (forall a :: a in Labelings(ms) <==> exists g :: g in groups && g.area == a)
  {
    var groups := GroupsOf(AllPairs(ms));
    GroupedAreas(AllPairs(ms));
    AreasOfAll(ms);
    UniquesInOrder(Labelings(ms));
    forall i | 0 <= i < |groups|
      ensures groups[i].area == Uniques(Labelings(ms))[i]
    {
      assert GroupAreas(groups)[i] == groups[i].area;
    }
    forall g | g in groups
      ensures g == Group(g.area, MagnetsOf(ms, g.area), TotalOf(ms, g.area))
    {
      var i :| 0 <= i < |groups| && groups[i] == g;
      DistinctLookup(groups, i);
      GroupedLookup(AllPairs(ms), g.area);
      InfosOfAll(ms, g.area);
    }
    forall a
      ensures a in Labelings(ms) <==> exists g :: g in groups && g.area == a
    {
      if a in Labelings(ms) {
        var i :| 0 <= i < |Uniques(Labelings(ms))| && Uniques(Labelings(ms))[i] == a;
        assert groups[i] in groups && groups[i].area == a;
      }
    }
  }

  lemma {:induction false} LabelingsMembers(ms: seq<Magnet>)
    ensures forall a :: a in Labelings(ms) <==> exists m :: m in ms && a in m.areas
  {
    if ms != [] {
      LabelingsMembers(ms[..|ms| - 1]);
      Seqs.FrontLast(ms);
      assert forall m :: m in ms <==> m in ms[..|ms| - 1] || m == ms[|ms| - 1];
    }
  }

  function PrintedLists(groups: seq<Group>): seq<seq<Magnet>> {
    seq(|groups|, i requires 0 <= i < |groups| => PrintedInfos(groups[i]))
  }

  lemma {:induction false} LinesAreSections(groups: seq<Group>)
    ensures GroupLines(groups) == Sections(GroupAreas(groups), PrintedLists(groups))
  {
    if groups != [] {
      var front, g := groups[..|groups| - 1], groups[|groups| - 1];
      LinesAreSections(front);
      assert GroupAreas(groups)[..|groups| - 1] == GroupAreas(front);
      assert PrintedLists(groups)[..|groups| - 1] == PrintedLists(front);
      Seqs.Regroup(GroupLines(front), ["", "## " + g.area, ""], EntryLines(PrintedInfos(g)));
    }
  }

  lemma PrintedAreGroups(ms: seq<Magnet>)
    ensures forall g :: g in PrintedGroups(ms) <==> g in GroupsOf(AllPairs(ms))
    ensures forall a :: a in Labelings(ms) <==> exists g :: g in PrintedGroups(ms) && g.area == a
  {
    GroupsAre(ms);
    SortDescSorts(GroupsOf(AllPairs(ms)), (g: Group) => g.total);
    SameMultisetMembers(PrintedGroups(ms), GroupsOf(AllPairs(ms)));
  }

  lemma PrintedAbove(ms: seq<Magnet>, i: nat, j: nat)
    requires i < j < |PrintedGroups(ms)|
    ensures var g, h := PrintedGroups(ms)[i], PrintedGroups(ms)[j];
            || TotalOf(ms, g.area) > TotalOf(ms, h.area)
            || (TotalOf(ms, g.area) == TotalOf(ms, h.area) &&
                FirstUse(Labelings(ms), g.area) < FirstUse(Labelings(ms), h.area))
  {
    var key, pos := (g: Group) => g.total, (g: Group) => FirstUse(Labelings(ms), g.area) as int;
    GroupsAre(ms);
    SortRanks(GroupsOf(AllPairs(ms)), key, pos);
    PrintedAreGroups(ms);
    var g, h := PrintedGroups(ms)[i], PrintedGroups(ms)[j];
    assert Above(g, h, key, pos);
    assert g in PrintedGroups(ms) && h in PrintedGroups(ms);
  }

  lemma PrintedAreRanked(ms: seq<Magnet>)
    ensures Ranked(ms, GroupAreas(PrintedGroups(ms)))
  {
    var printed := PrintedGroups(ms);
    var areas := GroupAreas(printed);
    PrintedAreGroups(ms);
    LabelingsMembers(ms);
    forall i, j | 0 <= i < j < |areas|
      ensures TotalOf(ms, areas[i]) > TotalOf(ms, areas[j]) ||
              (TotalOf(ms, areas[i]) == TotalOf(ms, areas[j]) &&
               FirstUse(Labelings(ms), areas[i]) < FirstUse(Labelings(ms), areas[j]))
    {
      PrintedAbove(ms, i, j);
    }
    forall a
      ensures a in areas <==> a in Labelings(ms)
    {
      if a in Labelings(ms) {
        var g :| g in printed && g.area == a;
        var i :| 0 <= i < |printed| && printed[i] == g;
        assert areas[i] == a;
      }
      if a in areas {
        var i :| 0 <= i < |areas| && areas[i] == a;
        assert printed[i] in printed;
      }
    }
  }

  lemma PrintedAreListed(ms: seq<Magnet>, i: nat)
    requires i < |PrintedGroups(ms)|
    ensures Listed(ms, PrintedGroups(ms)[i].area, PrintedInfos(PrintedGroups(ms)[i]))
  {
    var groups, g := GroupsOf(AllPairs(ms)), PrintedGroups(ms)[i];
    var count := (m: Magnet) => m.count as int;
    GroupsAre(ms);
    SortDescSorts(groups, (g: Group) => g.total);
    SameMultisetMembers(PrintedGroups(ms), groups);
    assert g in groups;
    InfosDescend(g);
    PrintedInfosPermute(g);
  }

  lemma InfosDescend(g: Group)
    ensures forall i, j :: 0 <= i < j < |PrintedInfos(g)| ==> PrintedInfos(g)[j].count <= PrintedInfos(g)[i].count
  {
    SortDescSorts(g.infos, (m: Magnet) => m.count);
    assert Descending(PrintedInfos(g), (m: Magnet) => m.count);
  }

  /** The body has one heading for each area that some magnet has, the area with the most duplicates first and of equals
      the one met first; and under each heading exactly the area's magnets, the one with the most duplicates first. */
  lemma PrintedInOrder(ms: seq<Magnet>) returns (areas: seq<string>, lists: seq<seq<Magnet>>)
    ensures |areas| == |lists| && MarkdownBody(ms) == MagnetText.JoinLines([Intro()] + Sections(areas, lists))
    ensures Ranked(ms, areas)
    ensures forall i :: 0 <= i < |areas| ==> Listed(ms, areas[i], lists[i])
  {
    var printed := PrintedGroups(ms);
    areas, lists := GroupAreas(printed), PrintedLists(printed);
    LinesAreSections(printed);
    PrintedAreRanked(ms);
    forall i | 0 <= i < |areas|
      ensures Listed(ms, areas[i], lists[i])
    {
      PrintedAreListed(ms, i);
    }
  }

  // ----- the lines -----

  lemma {:induction false} DigitsOf(n: nat)
    ensures n < 10 ==> |MagnetText.Dec(n)| == 1
    ensures 10 <= n < 100 ==> |MagnetText.Dec(n)| == 2
    ensures 100 <= n ==> |MagnetText.Dec(n)| >= 3
  {
    if n >= 10 {
      DigitsOf(n / 10);
    }
  }

  /** Below a hundred duplicates all entries of the list line up: the URL starts in the same column. */
  lemma EntriesLineUp(m: Magnet)
    ensures EntryLine(m) == EntryLine(m)[..|EntryLine(m)| - |m.url|] + m.url
    ensures m.count < 100 ==> |EntryLine(m)| == 15 + |m.url|
    ensures EntryLine(m)[..5] == "-   ["
  {
    DigitsOf(m.count);
    var line := EntryLine(m);
    assert line == "-   [" + (PadTwo(MagnetText.Dec(m.count)) + (" dupes] " + m.url));
    assert line[|line| - |m.url|..] == m.url;
  }
}
