/**
 When the stale sweep may clear an assignment (script/github-guild-board.py): over whole
 histories, whose check-in a clear rests on, and what goes wrong with two guild assignees.
 */
module GuildSafety {
  import opened Wrappers
  import opened Guild
  import Seqs

  // ----- no two log entries share an instant -----

  ghost predicate DistinctInstants(item: Item) {
    forall i, j | 0 <= i < |item.timeline| && 0 <= j < |item.comments| :: item.timeline[i].at != item.comments[j].at
  }

  lemma {:induction false} RunKeepsInstants(guild: set<Login>, item: Item, clock: Time, events: seq<Event>)
    requires Inv(item, clock) && InOrder(events, clock) && DistinctInstants(item)
    ensures DistinctInstants(Run(guild, item, events))
    decreases |events|
  {
    if events != [] {
      OrderSplits(events, clock);
      StepKeepsInv(guild, item, clock, events[0]);
      RunKeepsInstants(guild, Apply(guild, item, events[0]), events[0].at, events[1..]);
    }
  }

  // ----- check-ins address the assignee -----

  ghost predicate AlwaysSingle(guild: set<Login>, item: Item, events: seq<Event>)
    decreases |events|
  {
    SingleGuild(guild, item) && (events != [] ==> AlwaysSingle(guild, Apply(guild, item, events[0]), events[1..]))
  }

  // A check-in posted during a guild assignee's present stint addressed that assignee.
  ghost predicate CheckInsAddressed(guild: set<Login>, item: Item) {
    forall k, a | 0 <= k < |item.comments| && item.comments[k].checkIn.Some? && a in guild && a in item.assignees ::
      StintCovers(item, a, item.comments[k].at) ==> item.comments[k].checkIn.value == a
  }

  ghost predicate StintCovers(item: Item, a: Login, x: Time) {
    forall i :: 0 <= i < |item.timeline| && item.timeline[i].who == a ==> item.timeline[i].at < x
  }

  // Someone other than the newly assigned was assigned before, over a stint no shorter.
  lemma StintWasCovered(guild: set<Login>, item: Item, e: Event, a: Login, x: Time)
    requires StintCovers(Apply(guild, item, e), a, x) && x <= e.at && a in Apply(guild, item, e).assignees
    ensures StintCovers(item, a, x) && a in item.assignees
  {
    var next := Apply(guild, item, e);
    if e.Assigned? {
      assert next.timeline[|item.timeline|] == Assignment(e.who, e.at);
    }
    forall i | 0 <= i < |item.timeline| && item.timeline[i].who == a
      ensures item.timeline[i].at < x
    {
      assert next.timeline[i] == item.timeline[i];
    }
  }

  lemma NewCheckInAddresses(guild: set<Login>, item: Item, e: Event, a: Login)
    requires SingleGuild(guild, item) && a in guild && a in item.assignees
    requires var next := Apply(guild, item, e).comments;
             |next| > |item.comments| && next[|item.comments|].checkIn.Some?
    ensures Apply(guild, item, e).comments[|item.comments|].checkIn.value == a
  {
    WatchedMember(guild, item);
  }

  lemma StepKeepsAddressed(guild: set<Login>, item: Item, clock: Time, e: Event)
    requires Inv(item, clock) && clock < e.at
    requires SingleGuild(guild, item) && CheckInsAddressed(guild, item)
    ensures CheckInsAddressed(guild, Apply(guild, item, e))
  {
    var next := Apply(guild, item, e);
    forall k, a | 0 <= k < |next.comments| && next.comments[k].checkIn.Some? && a in guild && a in next.assignees &&
      StintCovers(next, a, next.comments[k].at)
      ensures next.comments[k].checkIn.value == a
    {
      StintWasCovered(guild, item, e, a, next.comments[k].at);
      if k < |item.comments| {
        assert next.comments[k] == item.comments[k];
      } else {
        NewCheckInAddresses(guild, item, e, a);
      }
    }
  }

  lemma {:induction false} RunKeepsAddressed(guild: set<Login>, item: Item, clock: Time, events: seq<Event>)
    requires Inv(item, clock) && InOrder(events, clock)
    requires AlwaysSingle(guild, item, events) && CheckInsAddressed(guild, item)
    ensures CheckInsAddressed(guild, Run(guild, item, events)) && SingleGuild(guild, Run(guild, item, events))
    decreases |events|
  {
    if events != [] {
      OrderSplits(events, clock);
      StepKeepsInv(guild, item, clock, events[0]);
      StepKeepsAddressed(guild, item, clock, events[0]);
      RunKeepsAddressed(guild, Apply(guild, item, events[0]), events[0].at, events[1..]);
    }
  }

  // The check-in at `k` justifies clearing `a`: it addressed `a`, is at least 7
  // days old, and came at least 14 days after the last thing `a` ever did.
  ghost predicate Justifies(item: Item, k: nat, a: Login, now: Time) {
    && k < |item.comments|
    && item.comments[k].checkIn == Some(a)
    && item.comments[k].at + AUTO_CLEAR_AFTER_DAYS * DAY <= now
    && (forall x :: IsActivity(item, a, x) ==> x + CHECK_IN_AFTER_DAYS * DAY <= item.comments[k].at)
  }

  // ----- a clear is safe -----

  // The check-in at `k` names `a`, who did nothing after it.
  ghost predicate Outstanding(item: Item, k: nat, a: Login) {
    && k < |item.comments|
    && item.comments[k].checkIn == Some(a)
    && (forall x :: IsActivity(item, a, x) ==> x <= item.comments[k].at)
  }

  lemma WarningJustifies(item: Item, clock: Time, k: nat, a: Login, now: Time)
    requires Inv(item, clock) && DistinctInstants(item)
    requires Outstanding(item, k, a) && item.comments[k].at + AUTO_CLEAR_AFTER_DAYS * DAY <= now
    ensures Justifies(item, k, a, now)
  {
    forall x | IsActivity(item, a, x)
      ensures x + CHECK_IN_AFTER_DAYS * DAY <= item.comments[k].at
    {
    }
  }

  // A guild assignee with a check-in outstanding is the one watched, and no check-in has followed theirs.
  ghost predicate OutstandingIsLatest(guild: set<Login>, item: Item) {
    forall k, a | Outstanding(item, k, a) && a in guild && a in item.assignees ::
      IsFirst(guild, item, a) && NoCheckInAfter(item, k)
  }

  predicate IsFirst(guild: set<Login>, item: Item, a: Login) {
    Within(item.assignees, guild) != [] && Within(item.assignees, guild)[0] == a
  }

  ghost predicate NoCheckInAfter(item: Item, k: nat) {
    forall j :: k < j < |item.comments| ==> item.comments[j].checkIn.None?
  }

  // What was outstanding after a step was so before, unless the step posted it.
  lemma WasOutstanding(guild: set<Login>, item: Item, clock: Time, e: Event, k: nat, a: Login)
    requires LogsInOrder(item, clock) && clock < e.at
    requires Outstanding(Apply(guild, item, e), k, a) && k < |item.comments|
    requires a in Apply(guild, item, e).assignees
    ensures Outstanding(item, k, a) && a in item.assignees
    ensures e.Assigned? ==> e.who != a
  {
    var next := Apply(guild, item, e);
    assert next.comments[k] == item.comments[k];
    if e.Assigned? && e.who == a {
      assert next.timeline[|item.timeline|] == Assignment(a, e.at);
      assert IsActivity(next, a, e.at);
    }
    forall x | IsActivity(item, a, x)
      ensures x <= item.comments[k].at
    {
      ActivityGrows(item, next, a, x);
    }
  }

  // A guild member it assigns is listed last.
  predicate ListsLast(guild: set<Login>, e: Event) {
    e.Assigned? && e.who in guild ==> e.place.None?
  }

  lemma FirstKept(guild: set<Login>, item: Item, e: Event, a: Login)
    requires ListsLast(guild, e)
    requires IsFirst(guild, item, a) && a in guild && a in Apply(guild, item, e).assignees
    ensures IsFirst(guild, Apply(guild, item, e), a)
  {
    if e.Assigned? {
      FirstStaysFirst(item.assignees, e.place, e.who, guild);
    } else if e.Unassigned? {
      WithinWithout(item.assignees, {e.who}, guild);
    } else if e.Sweep? && Judge(guild, item, e.now).Clear? {
      ClearTakesTheGuild(guild, item, e.now, e.at);
    }
  }

  // While a check-in is outstanding the sweep posts no other.
  lemma NoNudgeWhileOutstanding(guild: set<Login>, item: Item, now: Time, k: nat, a: Login)
    requires Outstanding(item, k, a) && IsFirst(guild, item, a)
    ensures !Judge(guild, item, now).Nudge?
  {
    LastActivityIsLatest(item, a);
    LatestCheckInIsLatest(item.comments);
  }

  lemma StepKeepsOutstanding(guild: set<Login>, item: Item, clock: Time, e: Event)
    requires LogsInOrder(item, clock) && clock < e.at && OutstandingIsLatest(guild, item) && ListsLast(guild, e)
    ensures OutstandingIsLatest(guild, Apply(guild, item, e))
  {
    var next := Apply(guild, item, e);
    forall k: nat, a | Outstanding(next, k, a) && a in guild && a in next.assignees
      ensures IsFirst(guild, next, a) && NoCheckInAfter(next, k)
    {
      if k < |item.comments| {
        WasOutstanding(guild, item, clock, e, k, a);
        FirstKept(guild, item, e, a);
        QuietWhileOutstanding(guild, item, e, k, a);
      }
    }
  }

  lemma QuietWhileOutstanding(guild: set<Login>, item: Item, e: Event, k: nat, a: Login)
    requires Outstanding(item, k, a) && IsFirst(guild, item, a) && NoCheckInAfter(item, k)
    ensures NoCheckInAfter(Apply(guild, item, e), k)
  {
    if e.Sweep? {
      NoNudgeWhileOutstanding(guild, item, e.now, k, a);
    }
  }

  lemma {:induction false} RunKeepsOutstanding(guild: set<Login>, item: Item, clock: Time, events: seq<Event>)
    requires Inv(item, clock) && InOrder(events, clock) && OutstandingIsLatest(guild, item)
    requires forall i :: 0 <= i < |events| ==> ListsLast(guild, events[i])
    ensures OutstandingIsLatest(guild, Run(guild, item, events))
    decreases |events|
  {
    if events != [] {
      OrderSplits(events, clock);
      StepKeepsInv(guild, item, clock, events[0]);
      StepKeepsOutstanding(guild, item, clock, events[0]);
      RunKeepsOutstanding(guild, Apply(guild, item, events[0]), events[0].at, events[1..]);
    }
  }

  // The check-in the sweep goes by, the latest on the issue, names `a`.
  ghost predicate LatestNames(item: Item, a: Login) {
    exists k :: 0 <= k < |item.comments| && item.comments[k].checkIn == Some(a) &&
      LatestCheckIn(item.comments) == Some(item.comments[k].at)
  }

  lemma LastOneIsLatest(item: Item, clock: Time, k: nat)
    requires LogsInOrder(item, clock) && NoCheckInAfter(item, k)
    requires k < |item.comments| && item.comments[k].checkIn.Some?
    ensures LatestCheckIn(item.comments) == Some(item.comments[k].at)
  {
    LatestCheckInIsLatest(item.comments);
  }

  lemma JustifiedByTheLatest(guild: set<Login>, item: Item, clock: Time, now: Time, a: Login, k: nat)
    requires LogsInOrder(item, clock) && OutstandingIsLatest(guild, item)
    requires Judge(guild, item, now) == Clear(a) && Justifies(item, k, a, now)
    ensures LatestNames(item, a)
  {
    WatchedMember(guild, item);
    assert Outstanding(item, k, a);
    LastOneIsLatest(item, clock, k);
  }

  /** Over any history, with any number of guild assignees in any order, a clear is justified if the
      check-in the sweep went by names the one it clears, which the code does not look at. */
  lemma NamedClearIsSafe(guild: set<Login>, item: Item, clock: Time, events: seq<Event>, now: Time, a: Login)
    requires Fresh(item) && InOrder(events, clock)
    requires Judge(guild, Run(guild, item, events), now) == Clear(a) && LatestNames(Run(guild, item, events), a)
    ensures exists k: nat :: Justifies(Run(guild, item, events), k, a, now)
  {
    FreshInv(item, clock);
    RunKeepsInv(guild, item, clock, events);
    RunKeepsInstants(guild, item, clock, events);
    var s := Run(guild, item, events);
    LastActivityIsLatest(s, a);
    var k :| 0 <= k < |s.comments| && s.comments[k].checkIn == Some(a) &&
      LatestCheckIn(s.comments) == Some(s.comments[k].at);
    WarningJustifies(s, ClockAfter(events, clock), k, a, now);
  }

  /** Where guild assignees are listed in the order they were assigned, it is justified only then. */
  lemma ClearIsSafeIff(guild: set<Login>, item: Item, clock: Time, events: seq<Event>, now: Time, a: Login)
    requires Fresh(item) && InOrder(events, clock)
    requires forall i :: 0 <= i < |events| ==> ListsLast(guild, events[i])
    requires Judge(guild, Run(guild, item, events), now) == Clear(a)
    ensures (exists k: nat :: Justifies(Run(guild, item, events), k, a, now)) <==>
            LatestNames(Run(guild, item, events), a)
  {
    FreshInv(item, clock);
    RunKeepsInv(guild, item, clock, events);
    RunKeepsOutstanding(guild, item, clock, events);
    var s := Run(guild, item, events);
    if k: nat :| Justifies(s, k, a, now) {
      JustifiedByTheLatest(guild, s, ClockAfter(events, clock), now, a, k);
    }
    if LatestNames(s, a) {
      NamedClearIsSafe(guild, item, clock, events, now, a);
    }
  }

  // Where only one guild member is assigned, the one a sweep takes off is the one it judged.
  lemma ClearedIsJudged(guild: set<Login>, item: Item, now: Time, at: Time, a: Login)
    requires SingleGuild(guild, item)
    requires a in item.assignees && a !in Apply(guild, item, Sweep(now, at)).assignees
    ensures Judge(guild, item, now) == Clear(a) && a in guild
  {
    WithinMembers(item.assignees, guild);
    WatchedMember(guild, item);
  }

  // What the sweep went by when it cleared `a`.
  lemma ClearMeansUnanswered(guild: set<Login>, item: Item, now: Time, a: Login) returns (k: nat)
    requires Judge(guild, item, now) == Clear(a)
    ensures k < |item.comments| && item.comments[k].checkIn.Some?
    ensures item.comments[k].at + AUTO_CLEAR_AFTER_DAYS * DAY <= now
    ensures forall x :: IsActivity(item, a, x) ==> x <= item.comments[k].at
  {
    LastActivityIsLatest(item, a);
    LatestCheckInIsLatest(item.comments);
    var checkIn := LatestCheckIn(item.comments).value;
    k :| 0 <= k < |item.comments| && item.comments[k].checkIn.Some? && item.comments[k].at == checkIn;
  }

  // An unanswered check-in fell within the present stint.
  lemma UnansweredIsCovered(item: Item, clock: Time, a: Login, k: nat)
    requires LogsInOrder(item, clock) && DistinctInstants(item)
    requires k < |item.comments| && item.comments[k].checkIn.Some?
    requires forall x :: IsActivity(item, a, x) ==> x <= item.comments[k].at
    ensures StintCovers(item, a, item.comments[k].at)
  {
    forall i | 0 <= i < |item.timeline| && item.timeline[i].who == a
      ensures item.timeline[i].at < item.comments[k].at
    {
      assert item.timeline[i] == Assignment(a, item.timeline[i].at);
      assert IsActivity(item, a, item.timeline[i].at);
    }
  }

  /** Whatever happened before, whoever a sweep takes off an issue had a check-in
      addressed to them that justifies it, so they had been silent for 21 days. */
  lemma ClearIsSafe(guild: set<Login>, item: Item, clock: Time, events: seq<Event>, now: Time, at: Time, a: Login)
    requires Fresh(item) && InOrder(events, clock) && AlwaysSingle(guild, item, events)
    requires ClockAfter(events, clock) < at && now <= at
    requires a in Run(guild, item, events).assignees
    requires a !in Apply(guild, Run(guild, item, events), Sweep(now, at)).assignees
    ensures exists k: nat :: Justifies(Run(guild, item, events), k, a, now)
    ensures forall x :: IsActivity(Run(guild, item, events), a, x) ==>
              x + (CHECK_IN_AFTER_DAYS + AUTO_CLEAR_AFTER_DAYS) * DAY <= now
  {
    FreshInv(item, clock);
    RunKeepsInv(guild, item, clock, events);
    RunKeepsInstants(guild, item, clock, events);
    RunKeepsAddressed(guild, item, clock, events);
    var s := Run(guild, item, events);
    var end := ClockAfter(events, clock);
    ClearedIsJudged(guild, s, now, at, a);
    var k := ClearMeansUnanswered(guild, s, now, a);
    UnansweredIsCovered(s, end, a, k);
    WarningJustifies(s, end, k, a, now);
  }

  // A sweep clears `a` at `now`, less than 9 days after `a` did something at `x`.
  ghost predicate ClearedEarly(
      guild: set<Login>, item: Item, events: seq<Event>, now: Time, a: Login, x: Time)
  {
    && Fresh(item) && InOrder(events, 0) && ClockAfter(events, 0) < now
    && Judge(guild, Run(guild, item, events), now) == Clear(a)
    && IsActivity(Run(guild, item, events), a, x)
    && now < x + 9 * DAY
  }

  const PAIR: set<Login> := {"a", "b"}

  // "a" and "b" both assigned, "a" first; "b" last spoke on day 14; `more` follows.
  function Shared(assignees: seq<Login>, more: seq<Comment>): Item {
    Item(true, false, Some(InProgress), None, false, false, assignees,
         [Assignment("a", 1), Assignment("b", 2)], [Comment("b", None, 14 * DAY)] + more)
  }

  lemma SharedNudgesFirst()
    ensures Judge(PAIR, Shared(["a", "b"], []), 15 * DAY) == Nudge("a")
  {
    var s := Shared(["a", "b"], []);
    assert s.timeline[..1] == [Assignment("a", 1)] && s.timeline[..1][..0] == [];
    assert LatestAssignment([Assignment("a", 1)], "a") == Some(1);
    assert LatestAssignment(s.timeline, "a") == Some(1);
    assert s.comments[..0] == [];
    assert LatestComment(s.comments, "a", 1) == LatestComment([], "a", 1);
    assert LatestCheckIn(s.comments) == LatestCheckIn([]);
  }

  lemma SharedClearsSecond()
    ensures Judge(PAIR, Shared(["b"], [Comment(BOT, Some("a"), 15 * DAY)]), 22 * DAY) == Clear("b")
  {
    var s := Shared(["b"], [Comment(BOT, Some("a"), 15 * DAY)]);
    var first := Comment("b", None, 14 * DAY);
    assert s.comments[..1] == [first] && [first][..0] == [];
    assert LatestCheckIn([first]) == None;
    assert LatestCheckIn(s.comments) == Some(15 * DAY);
    assert LatestAssignment(s.timeline, "b") == Some(2) by { LatestAssignmentIsLatest(s.timeline, "b"); }
    assert LatestComment([first], "b", 2) == 14 * DAY;
    assert LatestComment(s.comments, "b", 2) == 14 * DAY;
  }

  lemma SharedComesAbout(item: Item)
    requires item == Item(true, false, Some(InProgress), None, false, false, [], [], [])
    ensures var s1 := Apply(PAIR, item, Assigned("a", None, 1));
            var s2 := Apply(PAIR, s1, Assigned("b", None, 2));
            Apply(PAIR, s2, Commented("b", 14 * DAY)) == Shared(["a", "b"], [])
  {
  }

  lemma SharedLosesFirst(more: seq<Comment>)
    ensures Apply(PAIR, Shared(["a", "b"], more), Unassigned("a", 16 * DAY)) == Shared(["b"], more)
  {
    assert ["a", "b"][1..] == ["b"] && ["b"][1..] == [];
    assert Without(["b"], {"a"}) == ["b"];
    assert Without(["a", "b"], {"a"}) == ["b"];
  }

  /** With two guild assignees the promise fails: the sweep reads any check-in as
      addressed to the first one, so "b", never nudged and active 8 days ago, is cleared. */
  lemma TwoGuildAssigneesBreakTheGrace()
    returns (guild: set<Login>, item: Item, events: seq<Event>, now: Time, a: Login, x: Time)
    ensures ClearedEarly(guild, item, events, now, a, x)
  {
    guild, now, a, x := PAIR, 22 * DAY, "b", 14 * DAY;
    item := Item(true, false, Some(InProgress), None, false, false, [], [], []);
    events := [Assigned("a", None, 1), Assigned("b", None, 2), Commented("b", 14 * DAY),
               Sweep(15 * DAY, 15 * DAY), Unassigned("a", 16 * DAY)];
    SharedRun(item, events);
    SharedClearsSecond();
    assert IsCommentBy(Shared(["b"], [Comment(BOT, Some("a"), 15 * DAY)]).comments[0], "b");
  }

  lemma SharedRun(item: Item, events: seq<Event>)
    requires item == Item(true, false, Some(InProgress), None, false, false, [], [], [])
    requires events == [Assigned("a", None, 1), Assigned("b", None, 2), Commented("b", 14 * DAY),
                        Sweep(15 * DAY, 15 * DAY), Unassigned("a", 16 * DAY)]
    ensures Run(PAIR, item, events) == Shared(["b"], [Comment(BOT, Some("a"), 15 * DAY)])
  {
    SharedComesAbout(item);
    SharedIsSwept();
    RunOfFive(PAIR, item, events);
  }

  lemma SharedIsSwept()
    ensures var s := Apply(PAIR, Shared(["a", "b"], []), Sweep(15 * DAY, 15 * DAY));
            Apply(PAIR, s, Unassigned("a", 16 * DAY)) == Shared(["b"], [Comment(BOT, Some("a"), 15 * DAY)])
  {
    SharedNudgesFirst();
    NudgeOfShared(Comment(BOT, Some("a"), 15 * DAY));
    SharedLosesFirst([Comment(BOT, Some("a"), 15 * DAY)]);
  }

  lemma NudgeOfShared(c: Comment)
    requires c == Comment(BOT, Some("a"), 15 * DAY)
    ensures Enact(PAIR, Shared(["a", "b"], []), Nudge("a"), 15 * DAY) == Shared(["a", "b"], [c])
  {
  }

  lemma RunFirst(guild: set<Login>, item: Item, events: seq<Event>, k: nat)
    requires k < |events|
    ensures Run(guild, item, events[k..]) == Run(guild, Apply(guild, item, events[k]), events[k + 1..])
  {
    Seqs.DropOne(events, k + 1);
  }

  lemma RunOfFive(guild: set<Login>, item: Item, events: seq<Event>)
    requires |events| == 5
    ensures Run(guild, item, events) == Apply(guild, Apply(guild, Apply(guild, Apply(guild, Apply(guild, item,
              events[0]), events[1]), events[2]), events[3]), events[4])
  {
    var s1 := Apply(guild, item, events[0]);
    var s2 := Apply(guild, s1, events[1]);
    var s3 := Apply(guild, s2, events[2]);
    var s4 := Apply(guild, s3, events[3]);
    Seqs.WholeFrom(events);
    RunFirst(guild, item, events, 0);
    RunFirst(guild, s1, events, 1);
    RunFirst(guild, s2, events, 2);
    RunFirst(guild, s3, events, 3);
    RunFirst(guild, s4, events, 4);
  }
}
