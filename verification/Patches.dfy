/**
 Patches (crates/text/src/patch.rs): lists of edits from one text to another, and
 composing the edits from a text to a second with those from the second to a third.
 */
module Patches {
  import opened Wrappers
  import Seqs

  datatype Span = Span(start: int, end: int)

  // What stood at `was` in the old text is replaced by what stands at `now` in the new one.
  datatype Edit = Edit(was: Span, now: Span)

  function Len(s: Span): int {
    s.end - s.start
  }

  predicate IsEmpty(e: Edit) {
    Len(e.was) == 0 && Len(e.now) == 0
  }

  // ----- what a list of edits means -----

  // From position `i` of the old text and `j` of the new one on, the edits come in order, and
  // the text between them is as long in the one as in the other.
  predicate Fits(edits: seq<Edit>, i: int, j: int) {
    edits != [] ==>
      var e := edits[0];
      && i <= e.was.start <= e.was.end
      && e.now.start <= e.now.end
      && e.was.start - i == e.now.start - j
      && Fits(edits[1..], e.was.end, e.now.end)
  }

  // Where the character at `x` of the old text is in the new one, unless an edit replaced it.
  function Image(edits: seq<Edit>, i: int, j: int, x: int): Option<int> {
    if edits == [] || x < edits[0].was.start then Some(x - i + j)
    else if x < edits[0].was.end then None
    else Image(edits[1..], edits[0].was.end, edits[0].now.end, x)
  }

  // Through two lists of edits in turn.
  function Through(olds: seq<Edit>, i: int, j: int, news: seq<Edit>, k: int, x: int): Option<int> {
    match Image(olds, i, j, x)
    case None => None
    case Some(y) => Image(news, j, k, y)
  }

  // Unchanged text lies between the two, in both texts.
  predicate Parted(e: Edit, f: Edit) {
    e.was.end < f.was.start && e.now.end < f.now.start
  }

  // Every edit changes something, and unchanged text parts each from the next.
  predicate Tidy(edits: seq<Edit>) {
    edits != [] ==>
      && !IsEmpty(edits[0])
      && (|edits| > 1 ==> Parted(edits[0], edits[1]))
      && Tidy(edits[1..])
  }

  lemma {:induction false} ImageIsLater(edits: seq<Edit>, i: int, j: int, x: int)
    requires Fits(edits, i, j) && i <= x && Image(edits, i, j, x).Some?
    ensures j <= Image(edits, i, j, x).value
  {
    if edits != [] && edits[0].was.end <= x {
      ImageIsLater(edits[1..], edits[0].was.end, edits[0].now.end, x);
    }
  }

  // Skipping unchanged text before the first edit.
  lemma Skip(edits: seq<Edit>, i: int, j: int, d: int)
    requires Fits(edits, i, j) && 0 <= d && (edits != [] ==> i + d <= edits[0].was.start)
    ensures Fits(edits, i + d, j + d)
  {
  }

  lemma SkipImage(edits: seq<Edit>, i: int, j: int, d: int, x: int)
    ensures Image(edits, i + d, j + d, x) == Image(edits, i, j, x)
  {
  }

  // An edit shows where it starts, and where unchanged text goes on after it.
  lemma FirstEditShows(edits: seq<Edit>, i: int, j: int)
    requires Fits(edits, i, j) && Tidy(edits) && edits != []
    ensures var e := edits[0];
            && Image(edits, i, j, e.was.start) != Some(e.was.start - i + j)
            && Image(edits, i, j, e.was.end) == Some(e.now.end)
  {
  }

  /** Tidy lists that take every character to the same place are the same list. */
  lemma {:induction false} ImageDecides(a: seq<Edit>, b: seq<Edit>, i: int, j: int)
    requires Fits(a, i, j) && Tidy(a) && Fits(b, i, j) && Tidy(b)
    requires forall x :: i <= x ==> Image(a, i, j, x) == Image(b, i, j, x)
    ensures a == b
  {
    if a != [] {
      FirstEditShows(a, i, j);
    }
    if b != [] {
      FirstEditShows(b, i, j);
    }
    if a != [] && b != [] {
      FirstIsTheSame(a, b, i, j);
      var e := a[0];
      forall x | e.was.end <= x
        ensures Image(a[1..], e.was.end, e.now.end, x) == Image(b[1..], e.was.end, e.now.end, x)
      {
        assert Image(a, i, j, x) == Image(b, i, j, x);
      }
      ImageDecides(a[1..], b[1..], e.was.end, e.now.end);
      Seqs.HeadTail(a);
      Seqs.HeadTail(b);
    }
  }

  lemma FirstIsTheSame(a: seq<Edit>, b: seq<Edit>, i: int, j: int)
    requires Fits(a, i, j) && Tidy(a) && Fits(b, i, j) && Tidy(b) && a != [] && b != []
    requires forall x :: i <= x ==> Image(a, i, j, x) == Image(b, i, j, x)
    ensures a[0] == b[0]
  {
    FirstEditShows(a, i, j);
    FirstEditShows(b, i, j);
  }

  // ----- pushing an edit -----

  function Push(edits: seq<Edit>, e: Edit): seq<Edit> {
    if IsEmpty(e) then edits
    else if edits != [] && edits[|edits| - 1].was.end >= e.was.start then
      edits[..|edits| - 1] + [Joined(edits[|edits| - 1], e)]
    else edits + [e]
  }

  // After the last edit unchanged text leads up to `i` and `j`.
  predicate LeadsTo(edits: seq<Edit>, i: int, j: int) {
    if edits == [] then 0 <= i == j
    else edits[|edits| - 1].was.end <= i && i - edits[|edits| - 1].was.end == j - edits[|edits| - 1].now.end
  }

  lemma {:induction false} FitsAppended(edits: seq<Edit>, e: Edit, i: int, j: int)
    ensures Fits(edits + [e], i, j) <==>
            Fits(edits, i, j) &&
            (var (k, l) := if edits == [] then (i, j) else (edits[|edits| - 1].was.end, edits[|edits| - 1].now.end);
             k <= e.was.start <= e.was.end && e.now.start <= e.now.end && e.was.start - k == e.now.start - l)
  {
    if edits == [] {
      Seqs.NoMore([e]);
    } else {
      Seqs.TailOfConcat(edits, [e]);
      FitsAppended(edits[1..], e, edits[0].was.end, edits[0].now.end);
    }
  }

  lemma {:induction false} ImageAppended(edits: seq<Edit>, e: Edit, i: int, j: int, x: int)
    requires Fits(edits + [e], i, j)
    ensures Image(edits + [e], i, j, x) ==
            if x < e.was.start then Image(edits, i, j, x)
            else if x < e.was.end then None
            else Some(x - e.was.end + e.now.end)
  {
    if edits == [] {
      Seqs.NoMore([e]);
    } else {
      Seqs.TailOfConcat(edits, [e]);
      FitsAppended(edits, e, i, j);
      StartsBefore(edits, e, i, j);
      ImageAppended(edits[1..], e, edits[0].was.end, edits[0].now.end, x);
    }
  }

  lemma {:induction false} StartsBefore(edits: seq<Edit>, e: Edit, i: int, j: int)
    requires edits != [] && Fits(edits + [e], i, j)
    ensures edits[0].was.end <= e.was.start
  {
    Seqs.TailOfConcat(edits, [e]);
    if |edits| > 1 {
      StartsBefore(edits[1..], e, edits[0].was.end, edits[0].now.end);
    } else {
      Seqs.NoMore([e]);
    }
  }

  lemma {:induction false} ImageAfter(edits: seq<Edit>, i: int, j: int, k: int, l: int, x: int)
    requires Fits(edits, i, j) && edits != [] && LeadsTo(edits, k, l) && k <= x
    ensures Image(edits, i, j, x) == Some(x - k + l)
  {
    var front, last := edits[..|edits| - 1], edits[|edits| - 1];
    Seqs.FrontLast(edits);
    ImageAppended(front, last, i, j, x);
    FitsAppended(front, last, i, j);
  }

  function Joined(last: Edit, e: Edit): Edit {
    Edit(Span(last.was.start, e.was.end), Span(last.now.start, e.now.end))
  }

  predicate Ordered(e: Edit) {
    e.was.start <= e.was.end && e.now.start <= e.now.end
  }

  lemma {:induction false} TidyAppended(edits: seq<Edit>, e: Edit)
    ensures Tidy(edits + [e]) <==>
            Tidy(edits) && !IsEmpty(e) && (edits != [] ==> Parted(edits[|edits| - 1], e))
  {
    if edits == [] {
      Seqs.NoMore([e]);
    } else {
      Seqs.TailOfConcat(edits, [e]);
      TidyAppended(edits[1..], e);
    }
  }

  // `e` starts where `last` ends, in both texts.
  predicate Touches(last: Edit, e: Edit) {
    && last.was.end == e.was.start <= e.was.end
    && last.now.end == e.now.start <= e.now.end
  }

  lemma JoinedFits(front: seq<Edit>, last: Edit, e: Edit)
    requires Fits(front + [last], 0, 0) && Touches(last, e)
    ensures Fits(front + [Joined(last, e)], 0, 0)
  {
    FitsAppended(front, last, 0, 0);
    FitsAppended(front, Joined(last, e), 0, 0);
  }

  lemma JoinedIsTidy(front: seq<Edit>, last: Edit, e: Edit)
    requires Tidy(front + [last]) && Touches(last, e) && Ordered(last)
    ensures Tidy(front + [Joined(last, e)])
  {
    TidyAppended(front, last);
    TidyAppended(front, Joined(last, e));
  }

  lemma JoinedMeans(front: seq<Edit>, last: Edit, e: Edit, x: int)
    requires Fits(front + [last], 0, 0) && Touches(last, e)
    ensures Image(front + [Joined(last, e)], 0, 0, x) ==
            if x < e.was.start then Image(front + [last], 0, 0, x)
            else if x < e.was.end then None
            else Some(x - e.was.end + e.now.end)
  {
    JoinedFits(front, last, e);
    FitsAppended(front, last, 0, 0);
    ImageAppended(front, last, 0, 0, x);
    ImageAppended(front, Joined(last, e), 0, 0, x);
  }

  // The edits fit, are tidy and lead up to `i` and `j`.
  predicate Built(edits: seq<Edit>, i: int, j: int) {
    Fits(edits, 0, 0) && Tidy(edits) && LeadsTo(edits, i, j)
  }

  lemma LastIsOrdered(edits: seq<Edit>)
    requires Fits(edits, 0, 0) && edits != []
    ensures Ordered(edits[|edits| - 1])
  {
    Seqs.FrontLast(edits);
    FitsAppended(edits[..|edits| - 1], edits[|edits| - 1], 0, 0);
  }

  lemma PushBuilds(edits: seq<Edit>, e: Edit)
    requires Built(edits, e.was.start, e.now.start) && Ordered(e)
    ensures Built(Push(edits, e), e.was.end, e.now.end)
  {
    if !IsEmpty(e) {
      if edits != [] && edits[|edits| - 1].was.end >= e.was.start {
        LastIsOrdered(edits);
        Seqs.FrontLast(edits);
        JoinedFits(edits[..|edits| - 1], edits[|edits| - 1], e);
        JoinedIsTidy(edits[..|edits| - 1], edits[|edits| - 1], e);
      } else {
        FitsAppended(edits, e, 0, 0);
        TidyAppended(edits, e);
      }
    }
  }

  // What a push does to the meaning: the edit's own text is gone, and what follows is shifted.
  lemma PushMeans(edits: seq<Edit>, e: Edit, x: int)
    requires Built(edits, e.was.start, e.now.start) && Ordered(e)
    ensures Image(Push(edits, e), 0, 0, x) ==
            if x < e.was.start then Image(edits, 0, 0, x)
            else if x < e.was.end then None
            else Some(x - e.was.end + e.now.end)
  {
    if IsEmpty(e) {
      if e.was.start <= x && edits != [] {
        ImageAfter(edits, 0, 0, e.was.start, e.now.start, x);
      }
    } else if edits != [] && edits[|edits| - 1].was.end >= e.was.start {
      Seqs.FrontLast(edits);
      JoinedMeans(edits[..|edits| - 1], edits[|edits| - 1], e, x);
    } else {
      FitsAppended(edits, e, 0, 0);
      ImageAppended(edits, e, 0, 0, x);
    }
  }

  // ----- the steps of composing -----

  // The edits composed so far, which deal with the oldest and the newest text up to here.
  datatype Done = Done(edits: seq<Edit>, oldStart: int, newStart: int)

  // The edits not yet dealt with, the first of either list perhaps cut short.
  datatype Cursor = Cursor(olds: seq<Edit>, news: seq<Edit>, done: Done)

  predicate IsBuilt(d: Done) {
    Built(d.edits, d.oldStart, d.newStart) && 0 <= d.oldStart
  }

  predicate Awaits(c: Cursor, mid: int) {
    Fits(c.olds, c.done.oldStart, mid) && Fits(c.news, mid, c.done.newStart)
  }

  // The text in between has been dealt with up to `mid`.
  predicate OnTrack(c: Cursor, mid: int) {
    Awaits(c, mid) && IsBuilt(c.done)
  }

  // Where the character at `x` ends up, going by what is composed and what is left.
  function Whole(c: Cursor, mid: int, x: int): Option<int> {
    if x < c.done.oldStart then Image(c.done.edits, 0, 0, x)
    else Through(c.olds, c.done.oldStart, mid, c.news, c.done.newStart, x)
  }

  // Catching up by `d`, then replacing `oldLen` characters by `newLen`.
  function Emit(done: Done, d: int, oldLen: int, newLen: int): Done {
    var e := NextEdit(done, d, oldLen, newLen);
    Done(Push(done.edits, e), e.was.end, e.now.end)
  }

  function NextEdit(done: Done, d: int, oldLen: int, newLen: int): Edit {
    var oldStart, newStart := done.oldStart + d, done.newStart + d;
    Edit(Span(oldStart, oldStart + oldLen), Span(newStart, newStart + newLen))
  }

  lemma BuiltFurther(edits: seq<Edit>, i: int, j: int, d: int)
    requires Built(edits, i, j) && 0 <= d
    ensures Built(edits, i + d, j + d)
  {
  }

  lemma EmitKeeps(done: Done, d: int, oldLen: int, newLen: int)
    requires IsBuilt(done) && 0 <= d && 0 <= oldLen && 0 <= newLen
    ensures IsBuilt(Emit(done, d, oldLen, newLen))
  {
    BuiltFurther(done.edits, done.oldStart, done.newStart, d);
    PushBuilds(done.edits, NextEdit(done, d, oldLen, newLen));
  }

  // What an emitted edit leaves of the characters before its end.
  lemma EmitMeans(done: Done, d: int, oldLen: int, newLen: int, x: int)
    requires IsBuilt(done) && 0 <= d && 0 <= oldLen && 0 <= newLen
    requires x < done.oldStart + d + oldLen
    ensures Image(Emit(done, d, oldLen, newLen).edits, 0, 0, x) ==
            if x < done.oldStart then Image(done.edits, 0, 0, x)
            else if x < done.oldStart + d then Some(x - done.oldStart + done.newStart)
            else None
  {
    BuiltFurther(done.edits, done.oldStart, done.newStart, d);
    PushMeans(done.edits, NextEdit(done, d, oldLen, newLen), x);
    if done.oldStart <= x < done.oldStart + d && done.edits != [] {
      ImageAfter(done.edits, 0, 0, done.oldStart, done.newStart, x);
    }
  }

  // The old edit lies before the next new one.
  function TakeOld(c: Cursor): Cursor
    requires c.olds != []
  {
    var e := c.olds[0];
    Cursor(c.olds[1..], c.news, Emit(c.done, e.was.start - c.done.oldStart, Len(e.was), Len(e.now)))
  }

  lemma TakeOldAwaits(c: Cursor, mid: int)
    requires OnTrack(c, mid) && c.olds != [] && (c.news == [] || c.olds[0].now.end < c.news[0].was.start)
    ensures Awaits(TakeOld(c), c.olds[0].now.end)
  {
    var e := c.olds[0];
    Skip(c.news, mid, c.done.newStart, e.now.end - mid);
  }

  lemma TakeOldStays(c: Cursor, mid: int)
    requires OnTrack(c, mid) && c.olds != [] && (c.news == [] || c.olds[0].now.end < c.news[0].was.start)
    ensures OnTrack(TakeOld(c), c.olds[0].now.end)
  {
    var e := c.olds[0];
    EmitKeeps(c.done, e.was.start - c.done.oldStart, Len(e.was), Len(e.now));
    TakeOldAwaits(c, mid);
  }

  lemma TakeOldKeeps(c: Cursor, mid: int, x: int)
    requires OnTrack(c, mid) && c.olds != [] && (c.news == [] || c.olds[0].now.end < c.news[0].was.start)
    ensures Whole(TakeOld(c), c.olds[0].now.end, x) == Whole(c, mid, x)
  {
    var e := c.olds[0];
    if x < e.was.end {
      EmitMeans(c.done, e.was.start - c.done.oldStart, Len(e.was), Len(e.now), x);
    } else {
      forall y { SkipImage(c.news, mid, c.done.newStart, e.now.end - mid, y); }
    }
  }

  // The new edit lies before the next old one.
  function TakeNew(c: Cursor): Cursor
    requires c.news != []
  {
    var e := c.news[0];
    Cursor(c.olds, c.news[1..], Emit(c.done, e.now.start - c.done.newStart, Len(e.was), Len(e.now)))
  }

  lemma TakeNewAwaits(c: Cursor, mid: int)
    requires OnTrack(c, mid) && c.news != [] && (c.olds == [] || c.news[0].was.end < c.olds[0].now.start)
    ensures Awaits(TakeNew(c), c.news[0].was.end)
  {
    var e := c.news[0];
    Skip(c.olds, c.done.oldStart, mid, e.was.end - mid);
  }

  lemma TakeNewStays(c: Cursor, mid: int)
    requires OnTrack(c, mid) && c.news != [] && (c.olds == [] || c.news[0].was.end < c.olds[0].now.start)
    ensures OnTrack(TakeNew(c), c.news[0].was.end)
  {
    var e := c.news[0];
    EmitKeeps(c.done, e.now.start - c.done.newStart, Len(e.was), Len(e.now));
    TakeNewAwaits(c, mid);
  }

  lemma TakeNewKeeps(c: Cursor, mid: int, x: int)
    requires OnTrack(c, mid) && c.news != [] && (c.olds == [] || c.news[0].was.end < c.olds[0].now.start)
    ensures Whole(TakeNew(c), c.news[0].was.end, x) == Whole(c, mid, x)
  {
    var e := c.news[0];
    var d := e.now.start - c.done.newStart;
    if x < c.done.oldStart + d + Len(e.was) {
      EmitMeans(c.done, d, Len(e.was), Len(e.now), x);
    } else {
      SkipImage(c.olds, c.done.oldStart, mid, e.was.end - mid, x);
      ImageIsAfterSkip(c.olds, c.done.oldStart, mid, e.was.end - mid, x);
    }
  }

  lemma ImageIsAfterSkip(edits: seq<Edit>, i: int, j: int, d: int, x: int)
    requires Fits(edits, i, j) && 0 <= d && (edits != [] ==> i + d <= edits[0].was.start) && i + d <= x
    ensures Image(edits, i, j, x).Some? ==> j + d <= Image(edits, i, j, x).value
  {
    Skip(edits, i, j, d);
    if Image(edits, i, j, x).Some? {
      ImageIsLater(edits, i + d, j + d, x);
    }
  }

  // The front of the first edit cut off.
  predicate Rest(edits: seq<Edit>, r: Edit) {
    && edits != []
    && edits[0].was.start <= r.was.start <= r.was.end == edits[0].was.end
    && edits[0].now.start <= r.now.start <= r.now.end == edits[0].now.end
  }

  lemma FitsAgain(edits: seq<Edit>, i: int, j: int, r: Edit)
    requires Fits(edits, i, j) && Rest(edits, r)
    ensures Fits([r] + edits[1..], r.was.start, r.now.start)
  {
    Seqs.TailOfCons(r, edits[1..]);
  }

  lemma ImageAgain(edits: seq<Edit>, i: int, j: int, r: Edit, x: int)
    requires Fits(edits, i, j) && Rest(edits, r) && r.was.start <= x
    ensures Image([r] + edits[1..], r.was.start, r.now.start, x) == Image(edits, i, j, x)
  {
    Seqs.TailOfCons(r, edits[1..]);
  }

  function Min(a: int, b: int): int {
    if a <= b then a else b
  }

  // The two edits touch.
  predicate Meet(c: Cursor) {
    && c.olds != [] && c.news != []
    && c.news[0].was.start <= c.olds[0].now.end
    && c.olds[0].now.start <= c.news[0].was.end
  }

  // Cutting off what the old edit has before the new one begins.
  function CutOld(c: Cursor): Cursor
    requires c.olds != [] && c.news != []
  {
    var e, overshoot := c.olds[0], c.news[0].was.start - c.olds[0].now.start;
    var oldLen := Min(overshoot, Len(e.was));
    var rest := Edit(Span(e.was.start + oldLen, e.was.end), Span(e.now.start + overshoot, e.now.end));
    Cursor([rest] + c.olds[1..], c.news, Emit(c.done, e.was.start - c.done.oldStart, oldLen, overshoot))
  }

  // Cutting off what the new edit has before the old one begins.
  function CutNew(c: Cursor): Cursor
    requires c.olds != [] && c.news != []
  {
    var f, overshoot := c.news[0], c.olds[0].now.start - c.news[0].was.start;
    var newLen := Min(overshoot, Len(f.now));
    var rest := Edit(Span(f.was.start + overshoot, f.was.end), Span(f.now.start + newLen, f.now.end));
    Cursor(c.olds, [rest] + c.news[1..], Emit(c.done, f.now.start - c.done.newStart, overshoot, newLen))
  }

  // Both begin here, in all three texts.
  predicate Aligned(c: Cursor, mid: int) {
    && c.olds != [] && c.news != []
    && c.olds[0].was.start == c.done.oldStart
    && c.olds[0].now.start == mid == c.news[0].was.start
    && c.news[0].now.start == c.done.newStart
  }

  lemma CutOldAwaits(c: Cursor, mid: int)
    requires OnTrack(c, mid) && Meet(c) && c.olds[0].now.start < c.news[0].was.start
    ensures Awaits(CutOld(c), c.news[0].was.start) && Aligned(CutOld(c), c.news[0].was.start)
  {
    var e, f := c.olds[0], c.news[0];
    var overshoot := f.was.start - e.now.start;
    var oldLen := Min(overshoot, Len(e.was));
    Skip(c.news, mid, c.done.newStart, f.was.start - mid);
    FitsAgain(c.olds, c.done.oldStart, mid, Edit(Span(e.was.start + oldLen, e.was.end), Span(e.now.start + overshoot, e.now.end)));
  }

  lemma CutOldStays(c: Cursor, mid: int)
    requires OnTrack(c, mid) && Meet(c) && c.olds[0].now.start < c.news[0].was.start
    ensures OnTrack(CutOld(c), c.news[0].was.start)
  {
    CutOldAwaits(c, mid);
    var e, overshoot := c.olds[0], c.news[0].was.start - c.olds[0].now.start;
    EmitKeeps(c.done, e.was.start - c.done.oldStart, Min(overshoot, Len(e.was)), overshoot);
  }

  lemma CutOldKeeps(c: Cursor, mid: int, x: int)
    requires OnTrack(c, mid) && Meet(c) && c.olds[0].now.start < c.news[0].was.start
    ensures Whole(CutOld(c), c.news[0].was.start, x) == Whole(c, mid, x)
  {
    var e, f := c.olds[0], c.news[0];
    var overshoot := f.was.start - e.now.start;
    var oldLen := Min(overshoot, Len(e.was));
    if x < e.was.start + oldLen {
      EmitMeans(c.done, e.was.start - c.done.oldStart, oldLen, overshoot, x);
    } else {
      forall y { SkipImage(c.news, mid, c.done.newStart, f.was.start - mid, y); }
      ImageAgain(c.olds, c.done.oldStart, mid, Edit(Span(e.was.start + oldLen, e.was.end), Span(e.now.start + overshoot, e.now.end)), x);
    }
  }

  lemma CutNewAwaits(c: Cursor, mid: int)
    requires OnTrack(c, mid) && Meet(c) && c.news[0].was.start <= c.olds[0].now.start
    ensures Awaits(CutNew(c), c.olds[0].now.start) && Aligned(CutNew(c), c.olds[0].now.start)
  {
    var e, f := c.olds[0], c.news[0];
    var overshoot := e.now.start - f.was.start;
    var newLen := Min(overshoot, Len(f.now));
    Skip(c.olds, c.done.oldStart, mid, e.now.start - mid);
    FitsAgain(c.news, mid, c.done.newStart, Edit(Span(f.was.start + overshoot, f.was.end), Span(f.now.start + newLen, f.now.end)));
  }

  lemma CutNewStays(c: Cursor, mid: int)
    requires OnTrack(c, mid) && Meet(c) && c.news[0].was.start <= c.olds[0].now.start
    ensures OnTrack(CutNew(c), c.olds[0].now.start)
  {
    CutNewAwaits(c, mid);
    var f, overshoot := c.news[0], c.olds[0].now.start - c.news[0].was.start;
    EmitKeeps(c.done, f.now.start - c.done.newStart, overshoot, Min(overshoot, Len(f.now)));
  }

  lemma CutNewKeeps(c: Cursor, mid: int, x: int)
    requires OnTrack(c, mid) && Meet(c) && c.news[0].was.start <= c.olds[0].now.start
    ensures Whole(CutNew(c), c.olds[0].now.start, x) == Whole(c, mid, x)
  {
    var e, f := c.olds[0], c.news[0];
    var d, overshoot := f.now.start - c.done.newStart, e.now.start - f.was.start;
    var newLen := Min(overshoot, Len(f.now));
    if x < c.done.oldStart + d + overshoot {
      EmitMeans(c.done, d, overshoot, newLen, x);
    } else {
      SkipImage(c.olds, c.done.oldStart, mid, e.now.start - mid, x);
      ImageIsAfterSkip(c.olds, c.done.oldStart, mid, e.now.start - mid, x);
      var y := Image(c.olds, c.done.oldStart, mid, x);
      if y.Some? {
        ImageAgain(c.news, mid, c.done.newStart, Edit(Span(f.was.start + overshoot, f.was.end), Span(f.now.start + newLen, f.now.end)), y.value);
      }
    }
  }

  // Taking the new edit, which ends first, off the old one.
  function TakeNewOff(c: Cursor): Cursor
    requires c.olds != [] && c.news != []
  {
    var e, f := c.olds[0], c.news[0];
    var oldLen := Min(Len(e.was), Len(f.was));
    var rest := Edit(Span(c.done.oldStart + oldLen, e.was.end), Span(f.was.end, e.now.end));
    Cursor([rest] + c.olds[1..], c.news[1..], Emit(c.done, 0, oldLen, Len(f.now)))
  }

  // Taking the old edit, which ends first, off the new one.
  function TakeOldOff(c: Cursor): Cursor
    requires c.olds != [] && c.news != []
  {
    var e, f := c.olds[0], c.news[0];
    var newLen := Min(Len(e.now), Len(f.now));
    var rest := Edit(Span(e.now.end, f.was.end), Span(c.done.newStart + newLen, f.now.end));
    Cursor(c.olds[1..], [rest] + c.news[1..], Emit(c.done, 0, Len(e.was), newLen))
  }

  lemma TakeNewOffStays(c: Cursor, mid: int)
    requires OnTrack(c, mid) && Aligned(c, mid) && c.olds[0].now.end > c.news[0].was.end
    ensures OnTrack(TakeNewOff(c), c.news[0].was.end)
  {
    var e, f := c.olds[0], c.news[0];
    var oldLen := Min(Len(e.was), Len(f.was));
    EmitKeeps(c.done, 0, oldLen, Len(f.now));
    FitsAgain(c.olds, c.done.oldStart, mid, Edit(Span(c.done.oldStart + oldLen, e.was.end), Span(f.was.end, e.now.end)));
  }

  lemma TakeNewOffKeeps(c: Cursor, mid: int, x: int)
    requires OnTrack(c, mid) && Aligned(c, mid) && c.olds[0].now.end > c.news[0].was.end
    ensures Whole(TakeNewOff(c), c.news[0].was.end, x) == Whole(c, mid, x)
  {
    var e, f := c.olds[0], c.news[0];
    var oldLen := Min(Len(e.was), Len(f.was));
    if x < c.done.oldStart + oldLen {
      EmitMeans(c.done, 0, oldLen, Len(f.now), x);
    } else {
      ImageAgain(c.olds, c.done.oldStart, mid, Edit(Span(c.done.oldStart + oldLen, e.was.end), Span(f.was.end, e.now.end)), x);
      if e.was.end <= x && Image(c.olds[1..], e.was.end, e.now.end, x).Some? {
        ImageIsLater(c.olds[1..], e.was.end, e.now.end, x);
      }
    }
  }

  lemma TakeOldOffStays(c: Cursor, mid: int)
    requires OnTrack(c, mid) && Aligned(c, mid) && c.olds[0].now.end <= c.news[0].was.end
    ensures OnTrack(TakeOldOff(c), c.olds[0].now.end)
  {
    var e, f := c.olds[0], c.news[0];
    var newLen := Min(Len(e.now), Len(f.now));
    EmitKeeps(c.done, 0, Len(e.was), newLen);
    FitsAgain(c.news, mid, c.done.newStart, Edit(Span(e.now.end, f.was.end), Span(c.done.newStart + newLen, f.now.end)));
  }

  lemma TakeOldOffKeeps(c: Cursor, mid: int, x: int)
    requires OnTrack(c, mid) && Aligned(c, mid) && c.olds[0].now.end <= c.news[0].was.end
    ensures Whole(TakeOldOff(c), c.olds[0].now.end, x) == Whole(c, mid, x)
  {
    var e, f := c.olds[0], c.news[0];
    var newLen := Min(Len(e.now), Len(f.now));
    if x < e.was.end {
      EmitMeans(c.done, 0, Len(e.was), newLen, x);
    } else {
      var y := Image(c.olds[1..], e.was.end, e.now.end, x);
      if y.Some? {
        ImageIsLater(c.olds[1..], e.was.end, e.now.end, x);
        ImageAgain(c.news, mid, c.done.newStart, Edit(Span(e.now.end, f.was.end), Span(c.done.newStart + newLen, f.now.end)), y.value);
      }
    }
  }

  // ----- what a composition is -----

  // A tidy list that takes every character where the two lists in turn take it, or nowhere if
  // either of them replaces it.
  ghost predicate Composes(composed: seq<Edit>, olds: seq<Edit>, news: seq<Edit>) {
    && Fits(composed, 0, 0)
    && Tidy(composed)
    && forall x :: 0 <= x ==> Image(composed, 0, 0, x) == Through(olds, 0, 0, news, 0, x)
  }

  /** Two lists have one composition, and composing three in either order comes to the same. */
  lemma CompositionIsUnique(a: seq<Edit>, b: seq<Edit>, p: seq<Edit>, q: seq<Edit>)
    requires Composes(p, a, b) && Composes(q, a, b)
    ensures p == q
  {
    ImageDecides(p, q, 0, 0);
  }

  lemma ComposingAssociates(a: seq<Edit>, b: seq<Edit>, c: seq<Edit>, ab: seq<Edit>, bc: seq<Edit>, p: seq<Edit>, q: seq<Edit>)
    requires Fits(a, 0, 0) && Composes(ab, a, b) && Composes(bc, b, c)
    requires Composes(p, ab, c) && Composes(q, a, bc)
    ensures p == q
  {
    forall x | 0 <= x
      ensures Image(p, 0, 0, x) == Image(q, 0, 0, x)
    {
      if Image(a, 0, 0, x).Some? {
        ImageIsLater(a, 0, 0, x);
      }
    }
    ImageDecides(p, q, 0, 0);
  }

  // ----- the code -----

  method Compose(olds: seq<Edit>, news: seq<Edit>) returns (composed: seq<Edit>)
    requires Fits(olds, 0, 0) && Fits(news, 0, 0)
    ensures Composes(composed, olds, news)
  {
    var c := Cursor(olds, news, Done([], 0, 0));
    ghost var mid := 0;
    while true
      invariant OnTrack(c, mid)
      invariant forall x :: 0 <= x ==> Whole(c, mid, x) == Through(olds, 0, 0, news, 0, x)
      decreases |c.olds| + |c.news|
    {
      if c.olds != [] && (c.news == [] || c.olds[0].now.end < c.news[0].was.start) {
        TakeOldStays(c, mid);
        forall x { TakeOldKeeps(c, mid, x); }
        mid := c.olds[0].now.end;
        c := TakeOld(c);
        continue;
      }
      if c.news != [] && (c.olds == [] || c.news[0].was.end < c.olds[0].now.start) {
        TakeNewStays(c, mid);
        forall x { TakeNewKeeps(c, mid, x); }
        mid := c.news[0].was.end;
        c := TakeNew(c);
        continue;
      }
      if c.olds == [] || c.news == [] {
        break;
      }
      if c.olds[0].now.start < c.news[0].was.start {
        CutOldAwaits(c, mid);
        CutOldStays(c, mid);
        forall x { CutOldKeeps(c, mid, x); }
        mid := c.news[0].was.start;
        c := CutOld(c);
      } else {
        CutNewAwaits(c, mid);
        CutNewStays(c, mid);
        forall x { CutNewKeeps(c, mid, x); }
        mid := c.olds[0].now.start;
        c := CutNew(c);
      }
      if c.olds[0].now.end > c.news[0].was.end {
        TakeNewOffStays(c, mid);
        forall x { TakeNewOffKeeps(c, mid, x); }
        mid := c.news[0].was.end;
        c := TakeNewOff(c);
      } else {
        TakeOldOffStays(c, mid);
        forall x { TakeOldOffKeeps(c, mid, x); }
        mid := c.olds[0].now.end;
        c := TakeOldOff(c);
      }
    }
    composed := c.done.edits;
    forall x | 0 <= x
      ensures Image(composed, 0, 0, x) == Through(olds, 0, 0, news, 0, x)
    {
      assert Whole(c, mid, x) == Through(olds, 0, 0, news, 0, x);
      if c.done.oldStart <= x && composed != [] {
        ImageAfter(composed, 0, 0, c.done.oldStart, c.done.newStart, x);
      }
    }
  }
}
