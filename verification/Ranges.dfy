/**
 Which excerpts a pending diff shows (crates/acp_thread/src/diff.rs): the diff
 hunks and the revealed ranges, sorted and merged.
 */
module Ranges {
  import Seqs

  datatype Point = Point(row: nat, column: nat)

  predicate Before(p: Point, q: Point) {
    p.row < q.row || (p.row == q.row && p.column < q.column)
  }

  predicate AtMost(p: Point, q: Point) {
    !Before(q, p)
  }

  function Max(p: Point, q: Point): Point {
    if Before(p, q) then q else p
  }

  datatype RawRange = Range(start: Point, end: Point)

  // Anchors of one range resolve in order.
  type Range = r: RawRange | AtMost(r.start, r.end) witness Range(Point(0, 0), Point(0, 0))

  // Half open: the end is not covered.
  predicate Covers(r: Range, p: Point) {
    AtMost(r.start, p) && Before(p, r.end)
  }

  predicate Empty(r: Range) {
    r.start == r.end
  }

  predicate Inside(r: Range, s: Range) {
    AtMost(s.start, r.start) && AtMost(r.end, s.end)
  }

  ghost predicate CoveredBy(rs: seq<Range>, p: Point) {
    exists i :: 0 <= i < |rs| && Covers(rs[i], p)
  }

  ghost predicate InsideSome(r: Range, rs: seq<Range>) {
    exists i :: 0 <= i < |rs| && Inside(r, rs[i])
  }

  // Sorted, with a strict gap between one range and the next.
  ghost predicate Canonical(rs: seq<Range>) {
    forall i, j :: 0 <= i < j < |rs| ==> Before(rs[i].end, rs[j].start)
  }

  // ----- the sort key: by start, then by end, latest first -----

  predicate KeyAtMost(r: Range, s: Range) {
    Before(r.start, s.start) || (r.start == s.start && AtMost(s.end, r.end))
  }

  ghost predicate Sorted(rs: seq<Range>) {
    forall i, j :: 0 <= i < j < |rs| ==> KeyAtMost(rs[i], rs[j])
  }

  function Insert(r: Range, rs: seq<Range>): seq<Range> {
    if rs == [] then [r]
    else if KeyAtMost(r, rs[0]) then [r] + rs
    else [rs[0]] + Insert(r, rs[1..])
  }

  // Ranges with equal keys are equal, so every sort by this key gives this sequence.
  function Sort(rs: seq<Range>): seq<Range> {
    if rs == [] then [] else Insert(rs[0], Sort(rs[1..]))
  }

  lemma {:induction false} InsertAdds(r: Range, rs: seq<Range>)
    ensures multiset(Insert(r, rs)) == multiset(rs) + multiset{r}
    ensures forall x :: x in Insert(r, rs) <==> x == r || x in rs
  {
    if rs != [] && !KeyAtMost(r, rs[0]) {
      InsertAdds(r, rs[1..]);
      Seqs.HeadTail(rs);
    }
  }

  lemma {:induction false} InsertSorts(r: Range, rs: seq<Range>)
    requires Sorted(rs)
    ensures Sorted(Insert(r, rs))
  {
    if rs != [] && !KeyAtMost(r, rs[0]) {
      InsertSorts(r, rs[1..]);
      InsertAdds(r, rs[1..]);
      var t := Insert(r, rs[1..]);
      forall j | 0 <= j < |t|
        ensures KeyAtMost(rs[0], t[j])
      {
        assert t[j] in t;
      }
    }
  }

  lemma {:induction false} SortSorts(rs: seq<Range>)
    ensures Sorted(Sort(rs)) && multiset(Sort(rs)) == multiset(rs)
    ensures forall x :: x in Sort(rs) <==> x in rs
  {
    if rs != [] {
      SortSorts(rs[1..]);
      InsertSorts(rs[0], Sort(rs[1..]));
      InsertAdds(rs[0], Sort(rs[1..]));
      Seqs.HeadTail(rs);
    }
  }

  /** The sort is unstable, yet there is only one sorted arrangement. */
  lemma {:induction false} SortIsUnique(s: seq<Range>, t: seq<Range>)
    requires Sorted(s) && Sorted(t) && multiset(s) == multiset(t)
    ensures s == t
  {
    assert |s| == |multiset(s)| == |multiset(t)| == |t|;
    if s != [] {
      assert s[0] in multiset(t) && t[0] in multiset(s);
      SameHead(s, t);
      SortIsUnique(s[1..], t[1..]);
      Seqs.HeadTail(s);
      Seqs.HeadTail(t);
    }
  }

  lemma SameHead(s: seq<Range>, t: seq<Range>)
    requires Sorted(s) && Sorted(t) && multiset(s) == multiset(t) && s != [] && t != []
    requires s[0] in t && t[0] in s
    ensures s[0] == t[0] && multiset(s[1..]) == multiset(t[1..])
  {
    Seqs.HeadTail(s);
    Seqs.HeadTail(t);
    assert multiset(s[1..]) == multiset(s) - multiset{s[0]};
    assert multiset(t[1..]) == multiset(t) - multiset{t[0]};
  }

  // ----- the merge -----

  function Grow(r: Range, next: Range): Range {
    Range(r.start, Max(r.end, next.end))
  }

  // `r` is being grown; `rest` are the ranges not looked at yet.
  function MergeFrom(r: Range, rest: seq<Range>): seq<Range>
    decreases |rest|
  {
    if rest == [] then [r]
    else if AtMost(rest[0].start, r.end) then MergeFrom(Grow(r, rest[0]), rest[1..])
    else [r] + MergeFrom(rest[0], rest[1..])
  }

  function MergeSorted(rs: seq<Range>): seq<Range> {
    if rs == [] then [] else MergeFrom(rs[0], rs[1..])
  }

  function Merge(rs: seq<Range>): seq<Range> {
    MergeSorted(Sort(rs))
  }

  // ----- the merge is canonical and covers its inputs -----

  ghost predicate AscendingStarts(rs: seq<Range>) {
    forall i, j :: 0 <= i < j < |rs| ==> AtMost(rs[i].start, rs[j].start)
  }

  // The tail of an ascending list, with its head grown by what it swallows.
  lemma Ascends(r: Range, rest: seq<Range>)
    requires AscendingStarts([r] + rest) && rest != []
    ensures AtMost(r.start, rest[0].start)
    ensures AscendingStarts([Grow(r, rest[0])] + rest[1..]) && AscendingStarts([rest[0]] + rest[1..])
  {
    var all := [r] + rest;
    assert AtMost(all[0].start, all[1].start);
    forall j | 0 <= j < |rest|
      ensures AtMost(r.start, rest[j].start)
    {
      assert all[j + 1] == rest[j];
    }
    forall i, j | 0 <= i < j < |rest|
      ensures AtMost(rest[i].start, rest[j].start)
    {
      assert AtMost(all[i + 1].start, all[j + 1].start);
    }
  }

  lemma {:induction false} MergeFromCanonical(r: Range, rest: seq<Range>)
    requires AscendingStarts([r] + rest)
    ensures var out := MergeFrom(r, rest);
            Canonical(out) && out != [] && out[0].start == r.start && AtMost(r.end, out[0].end)
    decreases |rest|
  {
    if rest != [] {
      Ascends(r, rest);
      var next := if AtMost(rest[0].start, r.end) then Grow(r, rest[0]) else rest[0];
      MergeFromCanonical(next, rest[1..]);
      var out := MergeFrom(next, rest[1..]);
      if Before(r.end, rest[0].start) {
        var whole := [r] + out;
        forall i, j | 0 <= i < j < |whole|
          ensures Before(whole[i].end, whole[j].start)
        {
          if i == 0 && j > 1 {
            assert Before(out[0].end, out[j - 1].start);
          }
        }
      }
    }
  }

  lemma InsideTransitive(x: Range, y: Range, rs: seq<Range>)
    requires Inside(x, y) && InsideSome(y, rs)
    ensures InsideSome(x, rs)
  {
    var i :| 0 <= i < |rs| && Inside(y, rs[i]);
    assert Inside(x, rs[i]);
  }

  lemma {:induction false} MergeFromContains(r: Range, rest: seq<Range>)
    requires AscendingStarts([r] + rest)
    ensures forall x :: x == r || x in rest ==> InsideSome(x, MergeFrom(r, rest))
    decreases |rest|
  {
    var out := MergeFrom(r, rest);
    if rest == [] {
      assert Inside(r, out[0]);
    } else {
      Ascends(r, rest);
      var next := if AtMost(rest[0].start, r.end) then Grow(r, rest[0]) else rest[0];
      MergeFromContains(next, rest[1..]);
      var tail := MergeFrom(next, rest[1..]);
      forall x | x == r || x in rest
        ensures InsideSome(x, out)
      {
        if AtMost(rest[0].start, r.end) {
          if x !in rest[1..] {
            InsideTransitive(x, next, out);
          }
        } else if x == r {
          assert Inside(r, out[0]);
        } else {
          assert rest == [next] + rest[1..];
          assert x == next || x in rest[1..];
          assert InsideSome(x, tail);
          var i :| 0 <= i < |tail| && Inside(x, tail[i]);
          assert out[i + 1] == tail[i];
        }
      }
    }
  }

  // Two ranges that touch lie in the same member of a canonical list.
  lemma TouchingShare(r: Range, next: Range, c: seq<Range>)
    requires Canonical(c) && InsideSome(r, c) && InsideSome(next, c)
    requires AtMost(r.start, next.start) && AtMost(next.start, r.end)
    ensures InsideSome(Grow(r, next), c)
  {
    var i :| 0 <= i < |c| && Inside(r, c[i]);
    var j :| 0 <= j < |c| && Inside(next, c[j]);
    assert i == j;
    assert Inside(Grow(r, next), c[i]);
  }

  lemma {:induction false} MergeFromLeast(r: Range, rest: seq<Range>, c: seq<Range>)
    requires AscendingStarts([r] + rest) && Canonical(c)
    requires forall x :: x == r || x in rest ==> InsideSome(x, c)
    ensures forall x :: x in MergeFrom(r, rest) ==> InsideSome(x, c)
    decreases |rest|
  {
    if rest != [] {
      Ascends(r, rest);
      if AtMost(rest[0].start, r.end) {
        TouchingShare(r, rest[0], c);
        MergeFromLeast(Grow(r, rest[0]), rest[1..], c);
      } else {
        MergeFromLeast(rest[0], rest[1..], c);
      }
    }
  }

  lemma {:induction false} MergeFromAddsNoPoint(r: Range, rest: seq<Range>, p: Point)
    requires AscendingStarts([r] + rest) && CoveredBy(MergeFrom(r, rest), p)
    ensures Covers(r, p) || CoveredBy(rest, p)
    decreases |rest|
  {
    if rest != [] {
      Ascends(r, rest);
      var next := if AtMost(rest[0].start, r.end) then Grow(r, rest[0]) else rest[0];
      var tail := MergeFrom(next, rest[1..]);
      var out := MergeFrom(r, rest);
      var i :| 0 <= i < |out| && Covers(out[i], p);
      if !Covers(r, p) {
        assert CoveredBy(tail, p) by {
          if Before(r.end, rest[0].start) {
            assert tail[i - 1] == out[i];
          }
        }
        MergeFromAddsNoPoint(next, rest[1..], p);
        if CoveredBy(rest[1..], p) {
          var j :| 0 <= j < |rest[1..]| && Covers(rest[1..][j], p);
          assert rest[j + 1] == rest[1..][j];
        } else {
          assert Covers(rest[0], p);
        }
      }
    }
  }

  // ----- the theorems -----

  // `c` is the merge of the ranges in `rs`: it contains each of them, and any
  // canonical list that does contains each member of `c`.
  ghost predicate IsMergeOf(c: seq<Range>, rs: seq<Range>) {
    && Canonical(c)
    && (forall x :: x in rs ==> InsideSome(x, c))
    && (forall d :: Canonical(d) && (forall x :: x in rs ==> InsideSome(x, d)) ==> Refines(c, d))
  }

  ghost predicate Refines(c: seq<Range>, d: seq<Range>) {
    forall x :: x in c ==> InsideSome(x, d)
  }

  /** The merge is the finest canonical list that contains every input. */
  lemma MergeIsLeast(rs: seq<Range>)
    ensures IsMergeOf(Merge(rs), rs)
  {
    SortSorts(rs);
    var s := Sort(rs);
    if s != [] {
      Seqs.HeadTail(s);
      MergeFromCanonical(s[0], s[1..]);
      MergeFromContains(s[0], s[1..]);
      forall d | Canonical(d) && (forall x :: x in rs ==> InsideSome(x, d))
        ensures Refines(Merge(rs), d)
      {
        MergeFromLeast(s[0], s[1..], d);
      }
    } else {
      assert forall x :: x in rs ==> x in s;
    }
  }

  lemma InputsAreCovered(rs: seq<Range>, p: Point)
    requires CoveredBy(rs, p)
    ensures CoveredBy(Merge(rs), p)
  {
    var c := Merge(rs);
    MergeIsLeast(rs);
    var i :| 0 <= i < |rs| && Covers(rs[i], p);
    assert rs[i] in rs;
    var k :| 0 <= k < |c| && Inside(rs[i], c[k]);
  }

  lemma OnlyInputsAreCovered(rs: seq<Range>, p: Point)
    requires CoveredBy(Merge(rs), p)
    ensures CoveredBy(rs, p)
  {
    SortSorts(rs);
    var s := Sort(rs);
    Seqs.HeadTail(s);
    MergeFromAddsNoPoint(s[0], s[1..], p);
    var x :| x in s && Covers(x, p);
    var k :| 0 <= k < |rs| && rs[k] == x;
  }

  /** The merged ranges cover the same half-open points as the inputs. */
  lemma MergeCoversTheSame(rs: seq<Range>, p: Point)
    ensures CoveredBy(Merge(rs), p) <==> CoveredBy(rs, p)
  {
    if CoveredBy(rs, p) {
      InputsAreCovered(rs, p);
    }
    if CoveredBy(Merge(rs), p) {
      OnlyInputsAreCovered(rs, p);
    }
  }

  // A canonical list that lies inside another, and back, is the same list.
  lemma {:induction false} CanonicalIsUnique(c: seq<Range>, d: seq<Range>)
    requires Canonical(c) && Canonical(d) && Refines(c, d) && Refines(d, c)
    ensures c == d
  {
    MutualMembers(c, d);
    MutualMembers(d, c);
    SameMembers(c, d);
  }

  lemma MutualMembers(c: seq<Range>, d: seq<Range>)
    requires Canonical(c) && Refines(c, d) && Refines(d, c)
    ensures forall x :: x in c ==> x in d
  {
    forall x | x in c
      ensures x in d
    {
      var i :| 0 <= i < |c| && c[i] == x;
      var j :| 0 <= j < |d| && Inside(x, d[j]);
      assert d[j] in d;
      var k :| 0 <= k < |c| && Inside(d[j], c[k]);
      assert i == k;
      assert x == d[j];
    }
  }

  lemma HasMember(c: seq<Range>)
    ensures c != [] ==> exists x :: x in c
  {
    if c != [] {
      assert c[0] in c;
    }
  }

  lemma {:induction false} SameMembers(c: seq<Range>, d: seq<Range>)
    requires Canonical(c) && Canonical(d)
    requires forall x :: x in c <==> x in d
    ensures c == d
  {
    HasMember(c);
    HasMember(d);
    if c != [] {
      assert c[0] in d && d[0] in c;
      assert c[0] == d[0];
      forall x
        ensures x in c[1..] <==> x in d[1..]
      {
        if x in c[1..] {
          assert x in c;
          assert x != c[0];
        }
        if x in d[1..] {
          assert x in d;
          assert x != d[0];
        }
      }
      SameMembers(c[1..], d[1..]);
    }
  }

  /** Order and repetition of the inputs do not matter. */
  lemma MergeDependsOnTheSet(rs: seq<Range>, ts: seq<Range>)
    requires forall x :: x in rs <==> x in ts
    ensures Merge(rs) == Merge(ts)
  {
    MergeIsLeast(rs);
    MergeIsLeast(ts);
    CanonicalIsUnique(Merge(rs), Merge(ts));
  }

  /** Merging merged ranges changes nothing. */
  lemma MergeIsIdempotent(rs: seq<Range>)
    ensures Merge(Merge(rs)) == Merge(rs)
  {
    var c := Merge(rs);
    MergeIsLeast(rs);
    MergeIsLeast(c);
    assert Refines(c, c) by {
      forall x | x in c
        ensures InsideSome(x, c)
      {
        var i :| 0 <= i < |c| && c[i] == x;
        assert Inside(x, c[i]);
      }
    }
    CanonicalIsUnique(Merge(c), c);
  }

  /** More inputs only widen: every old merged range lies inside a new one. */
  lemma MergeIsMonotone(rs: seq<Range>, more: seq<Range>)
    requires forall x :: x in rs ==> x in more
    ensures Refines(Merge(rs), Merge(more))
  {
    MergeIsLeast(rs);
    MergeIsLeast(more);
  }

  // ----- non-empty inputs: only the covered points matter -----

  lemma {:induction false} MergeFromNonEmpty(r: Range, rest: seq<Range>)
    requires AscendingStarts([r] + rest)
    requires !Empty(r) && forall x :: x in rest ==> !Empty(x)
    ensures forall x :: x in MergeFrom(r, rest) ==> !Empty(x)
    decreases |rest|
  {
    if rest != [] {
      Ascends(r, rest);
      MergeFromNonEmpty(if AtMost(rest[0].start, r.end) then Grow(r, rest[0]) else rest[0], rest[1..]);
    }
  }

  lemma SamePointsRefine(c: seq<Range>, d: seq<Range>)
    requires Canonical(c) && Canonical(d)
    requires forall x :: x in c && Empty(x) ==> InsideSome(x, d)
    requires forall p :: CoveredBy(c, p) <==> CoveredBy(d, p)
    ensures Refines(c, d)
  {
    forall x | x in c
      ensures InsideSome(x, d)
    {
      if !Empty(x) {
        var i :| 0 <= i < |c| && c[i] == x;
        assert Covers(c[i], x.start);
        assert CoveredBy(c, x.start);
        var j :| 0 <= j < |d| && Covers(d[j], x.start);
        assert !CoveredBy(c, d[j].end);
        assert !Covers(c[i], d[j].end);
        assert Inside(x, d[j]);
      }
    }
  }

  /** With no empty range among the inputs, the covered points alone decide the merge. */
  lemma MergeDependsOnThePoints(rs: seq<Range>, ts: seq<Range>)
    requires forall x :: x in rs || x in ts ==> !Empty(x)
    requires forall p :: CoveredBy(rs, p) <==> CoveredBy(ts, p)
    ensures Merge(rs) == Merge(ts)
  {
    forall p
      ensures CoveredBy(Merge(rs), p) <==> CoveredBy(Merge(ts), p)
    {
      MergeCoversTheSame(rs, p);
      MergeCoversTheSame(ts, p);
    }
    MergeIsLeast(rs);
    MergeIsLeast(ts);
    MergeNonEmpty(rs);
    MergeNonEmpty(ts);
    SamePointsRefine(Merge(rs), Merge(ts));
    SamePointsRefine(Merge(ts), Merge(rs));
    CanonicalIsUnique(Merge(rs), Merge(ts));
  }

  lemma MergeNonEmpty(rs: seq<Range>)
    requires forall x :: x in rs ==> !Empty(x)
    ensures forall x :: x in Merge(rs) ==> !Empty(x)
  {
    SortSorts(rs);
    var s := Sort(rs);
    if s != [] {
      Seqs.HeadTail(s);
      MergeFromNonEmpty(s[0], s[1..]);
    }
  }

  /** An empty range is kept, so with one the covered points do not decide the merge. */
  lemma EmptyRangeShows(p: Point)
    ensures !CoveredBy([Range(p, p)], p) && Merge([Range(p, p)]) != Merge([])
  {
    var r := Range(p, p);
    assert Sort([r]) == Insert(r, Sort([]));
    assert Sort([r]) == [r];
    assert MergeSorted([r]) == MergeFrom(r, []);
  }

  // ----- any inputs: the covered points and the lone empty ranges -----

  // An empty input that no non-empty input touches.
  ghost predicate Lone(rs: seq<Range>, p: Point) {
    Range(p, p) in rs && forall x :: x in rs && !Empty(x) ==> !(AtMost(x.start, p) && AtMost(p, x.end))
  }

  // A member of the merge ends where a non-empty input ends, or is itself an empty input.
  lemma {:induction false} MembersComeFromInputs(r: Range, rest: seq<Range>, x: Range)
    requires AscendingStarts([r] + rest) && x in MergeFrom(r, rest)
    ensures if Empty(x) then x == r || x in rest
            else exists y :: (y == r || y in rest) && !Empty(y) && y.end == x.end
    decreases |rest|
  {
    if rest != [] {
      Ascends(r, rest);
      assert rest[0] in rest;
      if AtMost(rest[0].start, r.end) {
        GrowKeepsAnEnd(r, rest[0]);
        MembersComeFromInputs(Grow(r, rest[0]), rest[1..], x);
      } else if x in MergeFrom(rest[0], rest[1..]) {
        MembersComeFromInputs(rest[0], rest[1..], x);
      } else {
        assert x == r;
      }
    }
  }

  lemma GrowKeepsAnEnd(r: Range, next: Range)
    requires AtMost(r.start, next.start) && AtMost(next.start, r.end)
    ensures !Empty(Grow(r, next)) ==>
              (!Empty(r) && r.end == Grow(r, next).end) || (!Empty(next) && next.end == Grow(r, next).end)
    ensures Empty(Grow(r, next)) ==> Grow(r, next) == r
  {
  }

  lemma MemberOfMerge(rs: seq<Range>, x: Range)
    requires x in Merge(rs)
    ensures if Empty(x) then x in rs else exists y :: y in rs && !Empty(y) && y.end == x.end
  {
    SortSorts(rs);
    var s := Sort(rs);
    Seqs.HeadTail(s);
    MembersComeFromInputs(s[0], s[1..], x);
  }

  /** The empty members of the merge are exactly the lone empty inputs. */
  lemma LoneIff(rs: seq<Range>, p: Point)
    ensures Range(p, p) in Merge(rs) <==> Lone(rs, p)
  {
    var c, r := Merge(rs), Range(p, p);
    MergeIsLeast(rs);
    if r in c {
      MemberOfMerge(rs, r);
      forall x | x in rs && !Empty(x)
        ensures !(AtMost(x.start, p) && AtMost(p, x.end))
      {
        var i :| 0 <= i < |c| && c[i] == r;
        var j :| 0 <= j < |c| && Inside(x, c[j]);
        assert i != j;
      }
    }
    if Lone(rs, p) {
      var i :| 0 <= i < |c| && Inside(r, c[i]);
      assert c[i] in c;
      MemberOfMerge(rs, c[i]);
      if Empty(c[i]) {
        assert c[i] == r;
      } else {
        LoneIsNotInside(rs, p, c[i]);
      }
    }
  }

  lemma LoneIsNotCovered(rs: seq<Range>, p: Point)
    requires Lone(rs, p)
    ensures !CoveredBy(Merge(rs), p)
  {
    MergeCoversTheSame(rs, p);
    forall k | 0 <= k < |rs|
      ensures !Covers(rs[k], p)
    {
      assert rs[k] in rs;
    }
  }

  // No non-empty member of the merge holds a lone empty input.
  lemma LoneIsNotInside(rs: seq<Range>, p: Point, x: Range)
    requires Lone(rs, p) && x in Merge(rs) && !Empty(x)
    ensures !Inside(Range(p, p), x)
  {
    MemberOfMerge(rs, x);
    LoneIsNotCovered(rs, p);
    var i :| 0 <= i < |Merge(rs)| && Merge(rs)[i] == x;
    assert !Covers(Merge(rs)[i], p);
    var y :| y in rs && !Empty(y) && y.end == x.end;
  }

  /** Two lists of ranges show the same excerpts exactly when they cover the same points and have the
      same lone empty ranges. */
  lemma SameMergeIff(rs: seq<Range>, ts: seq<Range>)
    ensures Merge(rs) == Merge(ts) <==>
            (forall p :: CoveredBy(rs, p) <==> CoveredBy(ts, p)) && (forall p :: Lone(rs, p) <==> Lone(ts, p))
  {
    forall p
      ensures CoveredBy(Merge(rs), p) <==> CoveredBy(rs, p)
      ensures CoveredBy(Merge(ts), p) <==> CoveredBy(ts, p)
      ensures Range(p, p) in Merge(rs) <==> Lone(rs, p)
      ensures Range(p, p) in Merge(ts) <==> Lone(ts, p)
    {
      MergeCoversTheSame(rs, p);
      MergeCoversTheSame(ts, p);
      LoneIff(rs, p);
      LoneIff(ts, p);
    }
    if (forall p :: CoveredBy(rs, p) <==> CoveredBy(ts, p)) && (forall p :: Lone(rs, p) <==> Lone(ts, p)) {
      MergeIsLeast(rs);
      MergeIsLeast(ts);
      EmptiesAgree(Merge(rs), Merge(ts));
      EmptiesAgree(Merge(ts), Merge(rs));
      SamePointsRefine(Merge(rs), Merge(ts));
      SamePointsRefine(Merge(ts), Merge(rs));
      CanonicalIsUnique(Merge(rs), Merge(ts));
    }
  }

  lemma EmptiesAgree(c: seq<Range>, d: seq<Range>)
    requires forall p :: Range(p, p) in c ==> Range(p, p) in d
    ensures forall x :: x in c && Empty(x) ==> InsideSome(x, d)
  {
    forall x | x in c && Empty(x)
      ensures InsideSome(x, d)
    {
      assert x == Range(x.start, x.start);
      var i :| 0 <= i < |d| && d[i] == x;
      assert Inside(x, d[i]);
    }
  }

  // ----- the code -----

  // The inner loop: the range grows over what touches it, and `next` is the first that does not.
  method GrowRange(first: Range, ranges: seq<Range>, from: nat) returns (range: Range, next: nat)
    requires from <= |ranges|
    ensures from <= next <= |ranges|
    ensures MergeFrom(first, ranges[from..]) == [range] + MergeSorted(ranges[next..])
  {
    range, next := first, from;
    while next < |ranges| && AtMost(ranges[next].start, range.end)
      invariant from <= next <= |ranges|
      invariant MergeFrom(first, ranges[from..]) == MergeFrom(range, ranges[next..])
    {
      range := Range(range.start, Max(range.end, ranges[next].end));
      next := next + 1;
    }
  }

  // The outer loop, on ranges already sorted.
  method MergeAdjacent(ranges: seq<Range>) returns (merged: seq<Range>)
    ensures merged == MergeSorted(ranges)
  {
    merged := [];
    var i := 0;
    Seqs.NoMore(MergeSorted(ranges));
    Seqs.WholeFrom(ranges);
    while i < |ranges|
      invariant 0 <= i <= |ranges|
      invariant MergeSorted(ranges) == merged + MergeSorted(ranges[i..])
    {
      Seqs.DropOne(ranges, i + 1);
      var range, next := GrowRange(ranges[i], ranges, i + 1);
      merged, i := merged + [range], next;
    }
    Seqs.NoMore(merged);
  }

  class PendingDiff {
    var hunks: seq<Range>
    var revealedRanges: seq<Range>
    var visible: seq<Range>

    ghost predicate Valid()
      reads this
    {
      visible == Merge(hunks + revealedRanges)
    }

    constructor (hunks: seq<Range>)
      ensures Valid() && this.hunks == hunks && revealedRanges == []
    {
      this.hunks, revealedRanges, visible := hunks, [], Merge(hunks + []);
    }

    // A new diff snapshot arrives.
    method Update(hunks: seq<Range>)
      modifies this
      ensures Valid() && this.hunks == hunks && revealedRanges == old(revealedRanges)
    {
      this.hunks := hunks;
      UpdateVisibleRanges();
    }

    method RevealRange(range: Range)
      requires Valid()
      modifies this
      ensures Valid() && hunks == old(hunks) && revealedRanges == old(revealedRanges) + [range]
      ensures Refines(old(visible), visible) && InsideSome(range, visible)
    {
      revealedRanges := revealedRanges + [range];
      UpdateVisibleRanges();
      MergeIsMonotone(old(hunks + revealedRanges), hunks + revealedRanges);
      MergeIsLeast(hunks + revealedRanges);
      assert range in hunks + revealedRanges;
    }

    method UpdateVisibleRanges()
      modifies this`visible
      ensures Valid()
    {
      visible := ExcerptRanges();
    }

    method ExcerptRanges() returns (merged: seq<Range>)
      ensures merged == Merge(hunks + revealedRanges)
    {
      merged := MergeAdjacent(Sort(hunks + revealedRanges));
    }
  }
}
