/**
 The second-line triage queue (script/github-triage-queue-board.py): which creation
 days are eligible today, and making the board's issues exactly the eligible ones.
 */
module TriageWindow {
  import opened Wrappers
  import Seqs

  // Calendar days, counted as Python's `date.toordinal` does: day 1 is a Monday.
  type Day = int

  function IsoWeekday(d: Day): int {
    if d % 7 == 0 then 7 else d % 7
  }

  function EligibilityWindow(today: Day): (Day, Day) {
    var weekend := IsoWeekday(today) >= 6;
    var day := if weekend then today - (IsoWeekday(today) - 5) else today;
    var weekday := if weekend then 5 else IsoWeekday(today);
    var thisMonday := day - (weekday - 1);
    (thisMonday - 4, day - (if weekday <= 2 then 4 else 2))
  }

  function WindowStart(today: Day): Day { EligibilityWindow(today).0 }
  function WindowEnd(today: Day): Day { EligibilityWindow(today).1 }

  predicate Eligible(created: Day, today: Day) {
    WindowStart(today) <= created <= WindowEnd(today)
  }

  // ----- walking day by day -----

  predicate BusinessDay(d: Day) {
    IsoWeekday(d) <= 5
  }

  // `d`, or the last business day before it.
  function RollBack(d: Day): Day
    decreases (d + 2) % 7
  {
    if BusinessDay(d) then d else RollBack(d - 1)
  }

  function RollForward(d: Day): Day
    decreases 7 - (d + 2) % 7
  {
    if BusinessDay(d) then d else RollForward(d + 1)
  }

  function PreviousBusinessDay(d: Day): Day { RollBack(d - 1) }
  function NextBusinessDay(d: Day): Day { RollForward(d + 1) }

  // The last day before `d` that is weekday `w`.
  function LastBefore(d: Day, w: int): Day
    requires 1 <= w <= 7
    decreases (d - 1 - w) % 7
  {
    if IsoWeekday(d - 1) == w then d - 1 else LastBefore(d - 1, w)
  }

  lemma RollBackSteps(d: Day)
    ensures RollBack(d) == d - (if IsoWeekday(d) >= 6 then IsoWeekday(d) - 5 else 0)
  {
    if !BusinessDay(d) && !BusinessDay(d - 1) {
      assert RollBack(d - 1) == RollBack(d - 2) == d - 2;
    }
  }

  lemma RollForwardSteps(d: Day)
    ensures RollForward(d) == d + (if IsoWeekday(d) >= 6 then 8 - IsoWeekday(d) else 0)
  {
    if !BusinessDay(d) && !BusinessDay(d + 1) {
      assert RollForward(d + 1) == RollForward(d + 2) == d + 2;
    }
  }

  // Going back from `d` reaches weekday `w` within a week.
  function BackTo(d: Day, w: int): int
    requires 1 <= w <= 7
  {
    if w < IsoWeekday(d) then IsoWeekday(d) - w else IsoWeekday(d) + 7 - w
  }

  lemma WeekdayBefore(d: Day)
    ensures IsoWeekday(d - 1) == if IsoWeekday(d) == 1 then 7 else IsoWeekday(d) - 1
  {
  }

  lemma {:induction false} LastBeforeIs(d: Day, w: int)
    requires 1 <= w <= 7
    ensures LastBefore(d, w) == d - BackTo(d, w)
    decreases (d - 1 - w) % 7
  {
    WeekdayBefore(d);
    if IsoWeekday(d - 1) != w {
      LastBeforeIs(d - 1, w);
    }
  }

  // The weekday `k` days on, from the weekday now.
  lemma WeekdayShift(d: Day, k: int)
    requires -13 <= k <= 20
    ensures var sum := IsoWeekday(d) + k;
            IsoWeekday(d + k) ==
            if sum <= -7 then sum + 14 else if sum <= 0 then sum + 7 else if sum <= 7 then sum
            else if sum <= 14 then sum - 7 else if sum <= 21 then sum - 14 else sum - 21
  {
    var q, r := d / 7, d % 7;
    assert d == 7 * q + r;
  }

  lemma PreviousSteps(d: Day)
    ensures PreviousBusinessDay(d) == d - (if IsoWeekday(d) == 1 then 3 else if IsoWeekday(d) == 7 then 2 else 1)
  {
    WeekdayShift(d, -1);
    RollBackSteps(d - 1);
  }

  lemma TwoBack(day: Day)
    requires BusinessDay(day)
    ensures PreviousBusinessDay(PreviousBusinessDay(day)) == day - (if IsoWeekday(day) <= 2 then 4 else 2)
  {
    PreviousSteps(day);
    var previous := PreviousBusinessDay(day);
    WeekdayShift(day, previous - day);
    PreviousSteps(previous);
  }

  // The weekend-rolled day.
  lemma Rolled(today: Day)
    ensures var w := IsoWeekday(today);
            && RollBack(today) == today - (if w >= 6 then w - 5 else 0)
            && IsoWeekday(RollBack(today)) == (if w >= 6 then 5 else w)
  {
    RollBackSteps(today);
    WeekdayShift(today, RollBack(today) - today);
  }

  /** The end of the window is the second business day before today, a weekend counting as its Friday. */
  lemma EndIsTwoBusinessDaysBack(today: Day)
    ensures WindowEnd(today) == PreviousBusinessDay(PreviousBusinessDay(RollBack(today)))
  {
    Rolled(today);
    TwoBack(RollBack(today));
  }

  lemma ThursdayBefore(day: Day)
    requires BusinessDay(day)
    ensures LastBefore(LastBefore(day + 1, 1), 4) == day - IsoWeekday(day) - 3
  {
    WeekdayShift(day, 1);
    LastBeforeIs(day + 1, 1);
    var monday := LastBefore(day + 1, 1);
    WeekdayShift(day, monday - day);
    LastBeforeIs(monday, 4);
  }

  /** Its start is the last Thursday before this week's Monday, and no later than its end. */
  lemma StartIsPriorThursday(today: Day)
    ensures WindowStart(today) == LastBefore(LastBefore(RollBack(today) + 1, 1), 4)
    ensures IsoWeekday(WindowStart(today)) == 4 && WindowStart(today) <= WindowEnd(today)
  {
    Rolled(today);
    ThursdayBefore(RollBack(today));
    WeekdayShift(today, -IsoWeekday(today) - 3);
  }

  /** As days pass neither edge moves backwards. */
  lemma {:induction false} WindowNeverMovesBack(today: Day, later: Day)
    requires today <= later
    ensures WindowStart(today) <= WindowStart(later) && WindowEnd(today) <= WindowEnd(later)
    decreases later - today
  {
    if today < later {
      WeekdayShift(today, 1);
      assert WindowStart(today) <= WindowStart(today + 1) && WindowEnd(today) <= WindowEnd(today + 1);
      WindowNeverMovesBack(today + 1, later);
    }
  }

  // ----- the stretch a creation day is eligible for -----

  // Two business days after creation, a weekend counting as its Monday.
  function FirstEligible(created: Day): Day {
    NextBusinessDay(NextBusinessDay(RollForward(created)))
  }

  // The Sunday before the first Monday more than four days after creation.
  function LastEligible(created: Day): Day {
    LastBefore(created + 12, 1) - 1
  }

  lemma NextSteps(d: Day)
    requires BusinessDay(d)
    ensures NextBusinessDay(d) == d + (if IsoWeekday(d) == 5 then 3 else 1)
    ensures BusinessDay(NextBusinessDay(d))
    ensures IsoWeekday(NextBusinessDay(d)) == if IsoWeekday(d) == 5 then 1 else IsoWeekday(d) + 1
  {
    WeekdayShift(d, 1);
    RollForwardSteps(d + 1);
    WeekdayShift(d, NextBusinessDay(d) - d);
  }

  lemma FirstEligibleIs(created: Day)
    ensures var w := IsoWeekday(created);
            FirstEligible(created) == created + (if w <= 3 then 2 else if w <= 6 then 4 else 3)
    ensures BusinessDay(FirstEligible(created))
  {
    RollForwardSteps(created);
    var day := RollForward(created);
    WeekdayShift(created, day - created);
    NextSteps(day);
    NextSteps(NextBusinessDay(day));
  }

  lemma LastEligibleIs(created: Day)
    ensures var w := IsoWeekday(created);
            LastEligible(created) == created + (if w <= 3 then 7 - w else 14 - w)
  {
    WeekdayShift(created, 12);
    LastBeforeIs(created + 12, 1);
  }

  // The creation day enters the window on the first eligible day and leaves it after the last.
  lemma Entering(created: Day)
    ensures WindowEnd(FirstEligible(created) - 1) < created <= WindowEnd(FirstEligible(created))
  {
    FirstEligibleIs(created);
    var first := FirstEligible(created);
    WeekdayShift(created, first - 1 - created);
    WeekdayShift(created, first - created);
  }

  lemma Leaving(created: Day)
    ensures WindowStart(LastEligible(created)) <= created < WindowStart(LastEligible(created) + 1)
  {
    LastEligibleIs(created);
    var last := LastEligible(created);
    WeekdayShift(created, last - created);
    WeekdayShift(created, last + 1 - created);
  }

  /** Every creation day is eligible on one unbroken stretch of days and on no other, and the stretch
      begins with a business day. */
  lemma EligibleStretch(created: Day, today: Day)
    ensures Eligible(created, today) <==> FirstEligible(created) <= today <= LastEligible(created)
    ensures FirstEligible(created) <= LastEligible(created) && BusinessDay(FirstEligible(created))
  {
    FirstEligibleIs(created);
    LastEligibleIs(created);
    EntersOnce(created, today);
    LeavesOnce(created, today);
  }

  lemma EntersOnce(created: Day, today: Day)
    ensures created <= WindowEnd(today) <==> FirstEligible(created) <= today
  {
    Entering(created);
    var first := FirstEligible(created);
    if today < first {
      WindowNeverMovesBack(today, first - 1);
    } else {
      WindowNeverMovesBack(first, today);
    }
  }

  lemma LeavesOnce(created: Day, today: Day)
    ensures WindowStart(today) <= created <==> today <= LastEligible(created)
  {
    Leaving(created);
    var last := LastEligible(created);
    if today > last {
      WindowNeverMovesBack(last + 1, today);
    } else {
      WindowNeverMovesBack(today, last);
    }
  }

  // ----- the board -----

  // An item holds an issue, by its node id, or a draft or pull request.
  datatype Item = Item(id: nat, issue: Option<string>)

  function Without(items: seq<Item>, gone: set<nat>): seq<Item> {
    if items == [] then [] else (if items[0].id in gone then [] else [items[0]]) + Without(items[1..], gone)
  }

  predicate Stays(item: Item, eligible: seq<string>) {
    item.issue.None? || item.issue.value in eligible
  }

  function Retained(items: seq<Item>, eligible: seq<string>): seq<Item> {
    if items == [] then []
    else (if Stays(items[0], eligible) then [items[0]] else []) + Retained(items[1..], eligible)
  }

  // The ids of the items that do not stay.
  function StaleIds(items: seq<Item>, eligible: seq<string>): set<nat> {
    set x | x in items && !Stays(x, eligible) :: x.id
  }

  function Issues(items: seq<Item>): set<string> {
    set item | item in items && item.issue.Some? :: item.issue.value
  }

  // The items added for the eligible issues that are not on the board, with ids from `next`.
  function Additions(eligible: seq<string>, onBoard: set<string>, next: nat): seq<Item> {
    if eligible == [] then []
    else if eligible[0] in onBoard then Additions(eligible[1..], onBoard, next)
    else [Item(next, Some(eligible[0]))] + Additions(eligible[1..], onBoard, next + 1)
  }

  function Synced(items: seq<Item>, eligible: seq<string>, next: nat): seq<Item> {
    Retained(items, eligible) + Additions(eligible, Issues(items), next)
  }

  lemma {:induction false} RetainedMembers(items: seq<Item>, eligible: seq<string>)
    ensures forall x :: x in Retained(items, eligible) <==> x in items && Stays(x, eligible)
  {
    if items != [] {
      RetainedMembers(items[1..], eligible);
    }
  }

  lemma {:induction false} AdditionsMembers(eligible: seq<string>, onBoard: set<string>, next: nat)
    ensures Issues(Additions(eligible, onBoard, next)) == (set e | e in eligible) - onBoard
    ensures forall x :: x in Additions(eligible, onBoard, next) ==>
              x.issue.Some? && x.issue.value in eligible && next <= x.id
  {
    if eligible != [] {
      assert eligible == [eligible[0]] + eligible[1..];
      if eligible[0] in onBoard {
        AdditionsMembers(eligible[1..], onBoard, next);
      } else {
        AdditionsMembers(eligible[1..], onBoard, next + 1);
        var rest := Additions(eligible[1..], onBoard, next + 1);
        assert Issues([Item(next, Some(eligible[0]))] + rest) == {eligible[0]} + Issues(rest);
      }
    }
  }

  /** After a sync the issues on the board are exactly the eligible ones. */
  lemma SyncedIssues(items: seq<Item>, eligible: seq<string>, next: nat)
    ensures Issues(Synced(items, eligible, next)) == set e | e in eligible
  {
    RetainedMembers(items, eligible);
    AdditionsMembers(eligible, Issues(items), next);
    var kept, added := Retained(items, eligible), Additions(eligible, Issues(items), next);
    assert Issues(kept + added) == Issues(kept) + Issues(added);
    forall e
      ensures e in Issues(kept) <==> e in Issues(items) && e in eligible
    {
      if e in Issues(items) && e in eligible {
        var x :| x in items && x.issue == Some(e);
        assert x in kept;
      }
    }
  }

  // What the board holds besides issues.
  function Others(items: seq<Item>): seq<Item> {
    if items == [] then [] else (if items[0].issue.None? then [items[0]] else []) + Others(items[1..])
  }

  lemma {:induction false} OthersConcat(a: seq<Item>, b: seq<Item>)
    ensures Others(a + b) == Others(a) + Others(b)
  {
    if a == [] {
      Seqs.NoMore(b);
      Seqs.NoMore(Others(b));
    } else {
      OthersConcat(a[1..], b);
      Seqs.TailOfConcat(a, b);
      Seqs.Regroup(if a[0].issue.None? then [a[0]] else [], Others(a[1..]), Others(b));
    }
  }

  lemma {:induction false} RetainedOthers(items: seq<Item>, eligible: seq<string>)
    ensures Others(Retained(items, eligible)) == Others(items)
  {
    if items != [] {
      var first := if Stays(items[0], eligible) then [items[0]] else [];
      RetainedOthers(items[1..], eligible);
      OthersConcat(first, Retained(items[1..], eligible));
      assert Others(first) == if items[0].issue.None? then [items[0]] else [];
    }
  }

  lemma {:induction false} NoOthersAdded(eligible: seq<string>, onBoard: set<string>, next: nat)
    ensures Others(Additions(eligible, onBoard, next)) == []
  {
    if eligible != [] {
      if eligible[0] in onBoard {
        NoOthersAdded(eligible[1..], onBoard, next);
      } else {
        NoOthersAdded(eligible[1..], onBoard, next + 1);
        Seqs.TailOfCons(Item(next, Some(eligible[0])), Additions(eligible[1..], onBoard, next + 1));
      }
    }
  }

  /** Drafts and pull requests stay where they are, and so does the very item of every issue still eligible; the items
      of all other issues go. */
  lemma OthersStay(items: seq<Item>, eligible: seq<string>, next: nat)
    requires forall x :: x in items ==> x.id < next
    ensures Others(Synced(items, eligible, next)) == Others(items)
    ensures forall x :: x in items ==> (x in Synced(items, eligible, next) <==> x.issue.None? || x.issue.value in eligible)
  {
    var added := Additions(eligible, Issues(items), next);
    OthersConcat(Retained(items, eligible), added);
    RetainedOthers(items, eligible);
    NoOthersAdded(eligible, Issues(items), next);
    RetainedMembers(items, eligible);
    AdditionsMembers(eligible, Issues(items), next);
    Seqs.NoMore(Others(items));
  }

  lemma {:induction false} RetainedAll(items: seq<Item>, eligible: seq<string>)
    requires forall x :: x in items ==> Stays(x, eligible)
    ensures Retained(items, eligible) == items
  {
    if items != [] {
      RetainedAll(items[1..], eligible);
      assert items == [items[0]] + items[1..];
    }
  }

  lemma {:induction false} NoAdditions(eligible: seq<string>, onBoard: set<string>, next: nat)
    requires forall e :: e in eligible ==> e in onBoard
    ensures Additions(eligible, onBoard, next) == []
  {
    if eligible != [] {
      NoAdditions(eligible[1..], onBoard, next);
    }
  }

  /** A second pass with the same eligible issues changes nothing. */
  lemma SyncIsIdempotent(items: seq<Item>, eligible: seq<string>, next: nat, later: nat)
    ensures Synced(Synced(items, eligible, next), eligible, later) == Synced(items, eligible, next)
  {
    var board := Synced(items, eligible, next);
    SyncedIssues(items, eligible, next);
    RetainedMembers(items, eligible);
    AdditionsMembers(eligible, Issues(items), next);
    RetainedAll(board, eligible);
    NoAdditions(eligible, Issues(board), later);
  }

  // ----- what the board shows day by day -----

  // An open issue, by its node id and the day it was created.
  datatype OpenIssue = OpenIssue(id: string, created: Day)

  // What the search for issues created from `start` to `end` gives.
  function CreatedWithin(open: seq<OpenIssue>, start: Day, end: Day): seq<string> {
    if open == [] then []
    else (if start <= open[0].created <= end then [open[0].id] else []) + CreatedWithin(open[1..], start, end)
  }

  function EligibleIssues(open: seq<OpenIssue>, today: Day): seq<string> {
    CreatedWithin(open, WindowStart(today), WindowEnd(today))
  }

  lemma {:induction false} EligibleMembers(open: seq<OpenIssue>, today: Day, id: string)
    ensures id in EligibleIssues(open, today) <==>
            exists i :: 0 <= i < |open| && open[i].id == id && Eligible(open[i].created, today)
  {
    if open != [] {
      EligibleMembers(open[1..], today, id);
      assert forall i :: 0 < i < |open| ==> open[i] == open[1..][i - 1];
      var rest := open[1..];
      if j :| 0 <= j < |rest| && rest[j].id == id && Eligible(rest[j].created, today) {
        assert open[j + 1] == rest[j];
      }
    }
  }

  /** After a day's sync, whatever was on the board before, an issue is on it exactly if it is open and the
      day is within the stretch of its creation day. */
  lemma OnBoardIff(items: seq<Item>, open: seq<OpenIssue>, today: Day, next: nat, id: string)
    ensures id in Issues(Synced(items, EligibleIssues(open, today), next)) <==>
            exists i :: 0 <= i < |open| && open[i].id == id &&
              FirstEligible(open[i].created) <= today <= LastEligible(open[i].created)
  {
    SyncedIssues(items, EligibleIssues(open, today), next);
    EligibleMembers(open, today, id);
    forall i | 0 <= i < |open|
      ensures Eligible(open[i].created, today) <==>
              FirstEligible(open[i].created) <= today <= LastEligible(open[i].created)
    {
      EligibleStretch(open[i].created, today);
    }
  }

  // ----- the code -----

  lemma {:induction false} WithoutConcat(a: seq<Item>, b: seq<Item>, gone: set<nat>)
    ensures Without(a + b, gone) == Without(a, gone) + Without(b, gone)
  {
    if a == [] {
      Seqs.NoMore(b);
      Seqs.NoMore(Without(b, gone));
    } else {
      WithoutConcat(a[1..], b, gone);
      Seqs.TailOfConcat(a, b);
      Seqs.Regroup(if a[0].id in gone then [] else [a[0]], Without(a[1..], gone), Without(b, gone));
    }
  }

  lemma {:induction false} WithoutTwice(items: seq<Item>, gone: set<nat>, id: nat)
    ensures Without(Without(items, gone), {id}) == Without(items, gone + {id})
  {
    if items != [] {
      WithoutTwice(items[1..], gone, id);
      var rest := Without(items[1..], gone);
      if items[0].id in gone {
        Seqs.NoMore(rest);
      } else {
        Seqs.TailOfConcat([items[0]], rest);
        Seqs.NoMore(rest);
      }
    }
  }

  lemma {:induction false} WithoutNone(items: seq<Item>, gone: set<nat>)
    requires forall x :: x in items ==> x.id !in gone
    ensures Without(items, gone) == items
  {
    if items != [] {
      WithoutNone(items[1..], gone);
      assert items == [items[0]] + items[1..];
    }
  }

  lemma {:induction false} WithoutMembers(items: seq<Item>, gone: set<nat>)
    ensures forall x :: x in Without(items, gone) <==> x in items && x.id !in gone
    ensures DistinctIds(items) ==> DistinctIds(Without(items, gone))
  {
    if items != [] {
      WithoutMembers(items[1..], gone);
      var rest := Without(items[1..], gone);
      if DistinctIds(items) {
        assert forall i :: 0 <= i < |items[1..]| ==> items[1..][i] == items[i + 1];
        forall j | 0 <= j < |rest|
          ensures rest[j].id != items[0].id
        {
          assert rest[j] in items[1..];
        }
      }
    }
  }

  ghost predicate DistinctIds(items: seq<Item>) {
    forall i, j :: 0 <= i < j < |items| ==> items[i].id != items[j].id
  }

  // Removing the ineligible by id retains the rest.
  lemma {:induction false} WithoutIsRetained(items: seq<Item>, eligible: seq<string>, gone: set<nat>)
    requires forall x :: x in items ==> (x.id in gone <==> !Stays(x, eligible))
    ensures Without(items, gone) == Retained(items, eligible)
  {
    if items != [] {
      WithoutIsRetained(items[1..], eligible, gone);
    }
  }

  class ProjectBoard {
    var items: seq<Item>
    var nextId: nat

    // Item ids are distinct, and new ones are fresh.
    ghost predicate Valid()
      reads this
    {
      && (forall i :: 0 <= i < |items| ==> items[i].id < nextId)
      && DistinctIds(items)
    }

    constructor ()
      ensures Valid() && items == []
    {
      items, nextId := [], 0;
    }

    method AddToProject(issue: string)
      modifies this
      ensures old(Valid()) ==> Valid()
      ensures items == old(items) + [Item(old(nextId), Some(issue))] && nextId == old(nextId) + 1
    {
      items := items + [Item(nextId, Some(issue))];
      nextId := nextId + 1;
    }

    method RemoveFromProject(id: nat)
      modifies this`items
      ensures old(Valid()) ==> Valid()
      ensures items == Without(old(items), {id})
    {
      WithoutMembers(items, {id});
      items := Without(items, {id});
      assert old(Valid()) ==> forall i :: 0 <= i < |items| ==> items[i] in old(items);
    }

    method AddMissing(eligible: seq<string>, onBoard: set<string>)
      modifies this
      ensures old(Valid()) ==> Valid()
      ensures items == old(items) + Additions(eligible, onBoard, old(nextId))
    {
      ghost var all := items + Additions(eligible, onBoard, nextId);
      assert eligible[0..] == eligible;
      for i := 0 to |eligible|
        invariant old(Valid()) ==> Valid()
        invariant items + Additions(eligible[i..], onBoard, nextId) == all
      {
        assert eligible[i..][1..] == eligible[i + 1..];
        if eligible[i] !in onBoard {
          AddToProject(eligible[i]);
        }
      }
    }

    method RemoveStale(eligible: seq<string>, current: seq<Item>)
      modifies this`items
      ensures old(Valid()) ==> Valid()
      ensures items == Without(old(items), StaleIds(current, eligible))
    {
      WithoutNone(items, {});
      assert StaleIds(current[..0], eligible) == {};
      ghost var start := items;
      for i := 0 to |current|
        invariant old(Valid()) ==> Valid()
        invariant items == Without(start, StaleIds(current[..i], eligible))
      {
        ghost var gone := StaleIds(current[..i], eligible);
        assert current[..i + 1] == current[..i] + [current[i]];
        if Stays(current[i], eligible) {
          assert StaleIds(current[..i + 1], eligible) == gone;
        } else {
          assert StaleIds(current[..i + 1], eligible) == gone + {current[i].id};
          WithoutTwice(start, gone, current[i].id);
          RemoveFromProject(current[i].id);
        }
      }
      assert current[..|current|] == current;
    }

    // `open` stands for what the issue search looks through.
    method SyncProject(open: seq<OpenIssue>, today: Day, dryRun: bool)
      requires Valid()
      modifies this
      ensures Valid()
      ensures items == if dryRun then old(items) else Synced(old(items), EligibleIssues(open, today), old(nextId))
    {
      var (windowStart, windowEnd) := EligibilityWindow(today);
      var eligible := CreatedWithin(open, windowStart, windowEnd);
      if dryRun {
        return;
      }
      AddAndRemove(eligible);
    }

    // The two loops.
    method AddAndRemove(eligible: seq<string>)
      requires Valid()
      modifies this
      ensures Valid()
      ensures items == Synced(old(items), eligible, old(nextId))
    {
      var current := items;
      AddMissing(eligible, Issues(current));
      RemoveStale(eligible, current);
      ghost var gone := StaleIds(current, eligible);
      ghost var added := Additions(eligible, Issues(current), old(nextId));
      AdditionsMembers(eligible, Issues(current), old(nextId));
      WithoutConcat(current, added, gone);
      WithoutNone(added, gone);
      WithoutIsRetained(current, eligible, gone);
    }
  }
}
