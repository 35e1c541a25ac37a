/**
 The Guild board's stale sweep and webhook handlers (script/github-guild-board.py).

 One board item is a value holding the append-only comment list and assignment
 timeline the sweep reads. Everything that can happen to it is an `Event` with an
 instant `at`; `Apply` gives its effect. A sweep reads the runner's clock once
 (`now`) and touches an item at some later instant `at`, so `now <= at`.
 */
module Guild {
  import opened Wrappers
  import Seqs

  type Login = string
  type Time = int  // microseconds since some epoch

  const DAY: int := 86_400_000_000
  const CHECK_IN_AFTER_DAYS := 14
  const AUTO_CLEAR_AFTER_DAYS := 7
  const BOT: Login := "zedgar[bot]"

  datatype Status = InProgress | BugBashers | ShipFeature | OtherColumn
  datatype IssueType = Feature | Bug | Docs | Crash | OtherType

  // `checkIn` is Some exactly for a body that carries the check-in marker; its
  // value is the login the check-in addresses.
  datatype Comment = Comment(author: Login, checkIn: Option<Login>, at: Time)
  datatype Assignment = Assignment(who: Login, at: Time)

  datatype Item = Item(
    isIssue: bool,
    archived: bool,
    status: Option<Status>,
    kind: Option<IssueType>,
    hold: bool,
    closingPrs: bool,
    assignees: seq<Login>,
    timeline: seq<Assignment>,
    comments: seq<Comment>)

  datatype Event =
    | Assigned(who: Login, place: Option<nat>, at: Time)  // listed at `place`, or last
    | Unassigned(who: Login, at: Time)
    | Commented(author: Login, at: Time)
    | HoldChanged(on: bool, at: Time)
    | ClosingPrsChanged(any: bool, at: Time)
    | StatusMoved(to: Option<Status>, at: Time)
    | TypeChanged(newType: Option<IssueType>, at: Time)
    | ArchiveChanged(on: bool, at: Time)
    | AssignmentWebhook(who: Login, issueClosed: bool, at: Time)
    | UnassignmentWebhook(who: Login, byBot: bool, at: Time)
    | PullRequestWebhook(author: Login, issueOpen: bool, at: Time)
    | Sweep(now: Time, at: Time)

  // ----- what the sweep reads -----

  // `timedelta.days`: floors, so it is negative for a future instant.
  function Days(elapsed: int): int {
    elapsed / DAY
  }

  function Later(x: Option<Time>, y: Time): Option<Time> {
    if x.None? || y > x.value then Some(y) else x
  }

  function StatusForType(kind: Option<IssueType>): Option<Status> {
    match kind
    case Some(Feature) => Some(ShipFeature)
    case Some(Bug) => Some(BugBashers)
    case Some(Docs) => Some(BugBashers)
    case Some(Crash) => Some(BugBashers)
    case _ => None
  }

  function Within(logins: seq<Login>, kept: set<Login>): seq<Login> {
    if logins == [] then []
    else (if logins[0] in kept then [logins[0]] else []) + Within(logins[1..], kept)
  }

  function Without(logins: seq<Login>, gone: set<Login>): (r: seq<Login>)
    ensures forall x :: x in r <==> x in logins && x !in gone
  {
    if logins == [] then []
    else (if logins[0] in gone then [] else [logins[0]]) + Without(logins[1..], gone)
  }

  // `who` put among the assignees, at `place` or last.
  function Placed(logins: seq<Login>, place: Option<nat>, who: Login): (r: seq<Login>)
    ensures forall x :: x in r <==> x in logins || x == who
  {
    if place.None? || place.value >= |logins| then logins + [who]
    else logins[..place.value] + [who] + logins[place.value..]
  }

  // The latest "assigned" event for `a`, if any.
  function LatestAssignment(timeline: seq<Assignment>, a: Login): Option<Time> {
    if timeline == [] then None
    else
      var rest := LatestAssignment(timeline[..|timeline| - 1], a);
      var last := timeline[|timeline| - 1];
      if last.who == a then Later(rest, last.at) else rest
  }

  // The latest check-in comment, whoever it addresses.
  function LatestCheckIn(comments: seq<Comment>): Option<Time> {
    if comments == [] then None
    else
      var rest := LatestCheckIn(comments[..|comments| - 1]);
      var last := comments[|comments| - 1];
      if last.checkIn.Some? then Later(rest, last.at) else rest
  }

  // The later of `floor` and `a`'s latest ordinary comment.
  function LatestComment(comments: seq<Comment>, a: Login, floor: Time): Time {
    if comments == [] then floor
    else
      var rest := LatestComment(comments[..|comments| - 1], a, floor);
      var last := comments[|comments| - 1];
      if IsCommentBy(last, a) && last.at > rest then last.at else rest
  }

  predicate IsCommentBy(c: Comment, a: Login) {
    c.checkIn.None? && c.author == a
  }

  // `a` engaged with the issue at instant `x`: assigned then, or wrote a comment then.
  ghost predicate IsActivity(item: Item, a: Login, x: Time) {
    || (exists i :: 0 <= i < |item.timeline| && item.timeline[i] == Assignment(a, x))
    || (exists i :: 0 <= i < |item.comments| && IsCommentBy(item.comments[i], a) && item.comments[i].at == x)
  }

  function LastActivity(item: Item, a: Login): Option<Time> {
    var stint := LatestAssignment(item.timeline, a);
    if stint.None? then None else Some(LatestComment(item.comments, a, stint.value))
  }

  lemma {:induction false} LatestAssignmentIsLatest(timeline: seq<Assignment>, a: Login)
    ensures var r := LatestAssignment(timeline, a);
            && (r.None? <==> forall i :: 0 <= i < |timeline| ==> timeline[i].who != a)
            && (r.Some? ==> exists i :: 0 <= i < |timeline| && timeline[i] == Assignment(a, r.value))
            && (r.Some? ==> forall i :: 0 <= i < |timeline| && timeline[i].who == a ==> timeline[i].at <= r.value)
  {
    if timeline != [] {
      LatestAssignmentIsLatest(timeline[..|timeline| - 1], a);
    }
  }

  lemma {:induction false} LatestCheckInIsLatest(comments: seq<Comment>)
    ensures var r := LatestCheckIn(comments);
            && (r.None? <==> forall i :: 0 <= i < |comments| ==> comments[i].checkIn.None?)
            && (r.Some? ==> exists i :: 0 <= i < |comments| && comments[i].checkIn.Some? && comments[i].at == r.value)
            && (r.Some? ==> forall i :: 0 <= i < |comments| && comments[i].checkIn.Some? ==> comments[i].at <= r.value)
  {
    if comments != [] {
      LatestCheckInIsLatest(comments[..|comments| - 1]);
    }
  }

  lemma {:induction false} LatestCommentIsLatest(comments: seq<Comment>, a: Login, floor: Time)
    ensures var r := LatestComment(comments, a, floor);
            && floor <= r
            && (r == floor || exists i :: 0 <= i < |comments| && IsCommentBy(comments[i], a) && comments[i].at == r)
            && (forall i :: 0 <= i < |comments| && IsCommentBy(comments[i], a) ==> comments[i].at <= r)
  {
    if comments != [] {
      LatestCommentIsLatest(comments[..|comments| - 1], a, floor);
    }
  }

  /** What the sweep measures silence from is the assignee's last engagement. */
  lemma LastActivityIsLatest(item: Item, a: Login)
    ensures var r := LastActivity(item, a);
            && (r.None? <==> forall i :: 0 <= i < |item.timeline| ==> item.timeline[i].who != a)
            && (r.Some? ==> IsActivity(item, a, r.value) && forall x :: IsActivity(item, a, x) ==> x <= r.value)
  {
    LatestAssignmentIsLatest(item.timeline, a);
    var stint := LatestAssignment(item.timeline, a);
    if stint.Some? {
      LatestCommentIsLatest(item.comments, a, stint.value);
    }
  }

  // ----- what the sweep decides and does -----

  datatype Verdict = Skip | Nudge(who: Login) | Clear(who: Login) | NoAssignmentEvent(who: Login)

  predicate Watched(guild: set<Login>, item: Item) {
    && !item.archived
    && item.isIssue
    && item.status == Some(InProgress)
    && Within(item.assignees, guild) != []
    && !item.hold
    && !item.closingPrs
  }

  function Judge(guild: set<Login>, item: Item, now: Time): Verdict {
    if !Watched(guild, item) then Skip
    else
      var a := Within(item.assignees, guild)[0];
      var last := LastActivity(item, a);
      var checkIn := LatestCheckIn(item.comments);
      if last.None? then NoAssignmentEvent(a)
      else if checkIn.None? || checkIn.value < last.value then
        if Days(now - last.value) < CHECK_IN_AFTER_DAYS then Skip else Nudge(a)
      else if Days(now - checkIn.value) < AUTO_CLEAR_AFTER_DAYS then Skip
      else Clear(a)
  }

  function Enact(guild: set<Login>, item: Item, v: Verdict, at: Time): Item {
    match v
    case Nudge(a) => item.(comments := item.comments + [Comment(BOT, Some(a), at)])
    case Clear(a) =>
      var column := StatusForType(item.kind);
      item.(assignees := Without(item.assignees, set x | x in Within(item.assignees, guild)),
            status := if column.Some? then column else item.status)
    case _ => item
  }

  function Apply(guild: set<Login>, item: Item, e: Event): Item {
    match e
    case Assigned(who, place, at) =>
      item.(assignees := if who in item.assignees then item.assignees else Placed(item.assignees, place, who),
            timeline := item.timeline + [Assignment(who, at)])
    case Unassigned(who, _) => item.(assignees := Without(item.assignees, {who}))
    case Commented(author, at) => item.(comments := item.comments + [Comment(author, None, at)])
    case HoldChanged(on, _) => item.(hold := on)
    case ClosingPrsChanged(any, _) => item.(closingPrs := any)
    case StatusMoved(to, _) => item.(status := to)
    case TypeChanged(newType, _) => item.(kind := newType)
    case ArchiveChanged(on, _) => item.(archived := on)
    case AssignmentWebhook(who, issueClosed, _) =>
      if issueClosed || who !in guild then item else item.(status := Some(InProgress))
    case UnassignmentWebhook(who, byBot, _) =>
      if byBot || who !in guild || item.status != Some(InProgress) then item
      else
        var column := StatusForType(item.kind);
        if column.Some? then item.(status := column) else item
    case PullRequestWebhook(author, issueOpen, _) =>
      if author in guild && issueOpen then item.(status := Some(InProgress)) else item
    case Sweep(now, at) => Enact(guild, item, Judge(guild, item, now), at)
  }

  // ----- runs -----

  function Run(guild: set<Login>, item: Item, events: seq<Event>): Item
    decreases |events|
  {
    if events == [] then item else Run(guild, Apply(guild, item, events[0]), events[1..])
  }

  // Instants strictly increase, starting after `clock`; a sweep's clock reading is not in its future.
  ghost predicate InOrder(events: seq<Event>, clock: Time) {
    && (forall i :: 0 <= i < |events| ==> clock < events[i].at)
    && (forall i, j :: 0 <= i < j < |events| ==> events[i].at < events[j].at)
    && (forall i :: 0 <= i < |events| && events[i].Sweep? ==> events[i].now <= events[i].at)
  }

  function ClockAfter(events: seq<Event>, clock: Time): Time {
    if events == [] then clock else events[|events| - 1].at
  }

  // An item nothing has happened to yet.
  predicate Fresh(item: Item) {
    item.assignees == [] && item.timeline == [] && item.comments == []
  }

  ghost predicate LogsInOrder(item: Item, clock: Time) {
    && (forall i :: 0 <= i < |item.comments| ==> item.comments[i].at <= clock)
    && (forall i, j :: 0 <= i < j < |item.comments| ==> item.comments[i].at < item.comments[j].at)
    && (forall i :: 0 <= i < |item.timeline| ==> item.timeline[i].at <= clock)
  }

  // Everyone assigned has an assignment event to show for it.
  ghost predicate AssigneesBacked(item: Item) {
    forall a :: a in item.assignees ==> LatestAssignment(item.timeline, a).Some?
  }

  // Every check-in came at least 14 days after whatever its addressee had done before it.
  ghost predicate CheckInsEarned(item: Item) {
    forall k, x | 0 <= k < |item.comments| && item.comments[k].checkIn.Some? &&
      IsActivity(item, item.comments[k].checkIn.value, x) && x < item.comments[k].at ::
      x + CHECK_IN_AFTER_DAYS * DAY <= item.comments[k].at
  }

  // Between two check-ins, the addressee of the second engaged: after the first
  // and at least 14 days before the second.
  ghost predicate Answered(item: Item, i: nat, j: nat)
    requires i < j < |item.comments|
  {
    item.comments[j].checkIn.Some? &&
    exists x :: IsActivity(item, item.comments[j].checkIn.value, x) &&
      item.comments[i].at < x && x + CHECK_IN_AFTER_DAYS * DAY <= item.comments[j].at
  }

  ghost predicate NudgesSpread(item: Item) {
    forall i: nat, j: nat | i < j < |item.comments| &&
      item.comments[i].checkIn.Some? && item.comments[j].checkIn.Some? ::
      Answered(item, i, j)
  }

  ghost predicate Inv(item: Item, clock: Time) {
    && LogsInOrder(item, clock)
    && AssigneesBacked(item)
    && CheckInsEarned(item)
    && NudgesSpread(item)
  }

  // ----- every step keeps the invariant -----

  lemma ActivityGrows(item: Item, next: Item, a: Login, x: Time)
    requires item.timeline <= next.timeline && item.comments <= next.comments
    requires IsActivity(item, a, x)
    ensures IsActivity(next, a, x)
  {
    if i :| 0 <= i < |item.timeline| && item.timeline[i] == Assignment(a, x) {
      assert next.timeline[i] == Assignment(a, x);
    } else {
      var i :| 0 <= i < |item.comments| && IsCommentBy(item.comments[i], a) && item.comments[i].at == x;
      assert next.comments[i] == item.comments[i];
    }
  }

  // Anything not active before is active only at the new instant.
  lemma ActivityIsNew(item: Item, next: Item, a: Login, x: Time, at: Time)
    requires item.timeline <= next.timeline && item.comments <= next.comments
    requires forall i :: |item.timeline| <= i < |next.timeline| ==> next.timeline[i].at == at
    requires forall i :: |item.comments| <= i < |next.comments| ==> next.comments[i].at == at
    requires IsActivity(next, a, x) && x != at
    ensures IsActivity(item, a, x)
  {
    if i :| 0 <= i < |next.timeline| && next.timeline[i] == Assignment(a, x) {
      assert item.timeline[i] == Assignment(a, x);
    } else {
      var i :| 0 <= i < |next.comments| && IsCommentBy(next.comments[i], a) && next.comments[i].at == x;
      assert item.comments[i] == next.comments[i];
    }
  }

  lemma EarnedKept(item: Item, next: Item, clock: Time, at: Time, k: nat, x: Time)
    requires Inv(item, clock) && clock < at
    requires item.timeline <= next.timeline && item.comments <= next.comments
    requires forall i :: |item.timeline| <= i < |next.timeline| ==> next.timeline[i].at == at
    requires forall i :: |item.comments| <= i < |next.comments| ==> next.comments[i].at == at
    requires k < |item.comments| && item.comments[k].checkIn.Some?
    requires IsActivity(next, item.comments[k].checkIn.value, x) && x < item.comments[k].at
    ensures x + CHECK_IN_AFTER_DAYS * DAY <= item.comments[k].at
  {
    ActivityIsNew(item, next, item.comments[k].checkIn.value, x, at);
  }

  lemma AnsweredKept(item: Item, next: Item, i: nat, j: nat)
    requires item.timeline <= next.timeline && item.comments <= next.comments
    requires i < j < |item.comments| && Answered(item, i, j)
    ensures Answered(next, i, j)
  {
    var who := item.comments[j].checkIn.value;
    var x :| IsActivity(item, who, x) &&
      item.comments[i].at < x && x + CHECK_IN_AFTER_DAYS * DAY <= item.comments[j].at;
    ActivityGrows(item, next, who, x);
    assert next.comments[i] == item.comments[i] && next.comments[j] == item.comments[j];
  }

  // Any growth of the logs that posts no check-in keeps the invariant.
  lemma QuietGrowthKeepsInv(item: Item, next: Item, clock: Time, at: Time)
    requires Inv(item, clock) && clock < at
    requires item.timeline <= next.timeline && item.comments <= next.comments
    requires |next.comments| <= |item.comments| + 1
    requires forall i :: |item.timeline| <= i < |next.timeline| ==> next.timeline[i].at == at
    requires forall i :: |item.comments| <= i < |next.comments| ==>
               next.comments[i].at == at && next.comments[i].checkIn.None?
    requires AssigneesBacked(next)
    ensures Inv(next, at)
  {
    forall k, x | 0 <= k < |next.comments| && next.comments[k].checkIn.Some? &&
      IsActivity(next, next.comments[k].checkIn.value, x) && x < next.comments[k].at
      ensures x + CHECK_IN_AFTER_DAYS * DAY <= next.comments[k].at
    {
      EarnedKept(item, next, clock, at, k, x);
    }
    forall i: nat, j: nat | i < j < |next.comments| &&
      next.comments[i].checkIn.Some? && next.comments[j].checkIn.Some?
      ensures Answered(next, i, j)
    {
      AnsweredKept(item, next, i, j);
    }
  }

  lemma NudgeKeepsInv(guild: set<Login>, item: Item, clock: Time, now: Time, at: Time)
    requires Inv(item, clock) && clock < at && now <= at
    requires Judge(guild, item, now).Nudge?
    ensures Inv(Apply(guild, item, Sweep(now, at)), at)
  {
    var a := Judge(guild, item, now).who;
    var next := Apply(guild, item, Sweep(now, at));
    var last := LastActivity(item, a).value;
    LastActivityIsLatest(item, a);
    LatestCheckInIsLatest(item.comments);
    forall k, x | 0 <= k < |next.comments| && next.comments[k].checkIn.Some? &&
      IsActivity(next, next.comments[k].checkIn.value, x) && x < next.comments[k].at
      ensures x + CHECK_IN_AFTER_DAYS * DAY <= next.comments[k].at
    {
      if k < |item.comments| {
        EarnedKept(item, next, clock, at, k, x);
      } else {
        ActivityIsNew(item, next, a, x, at);
      }
    }
    forall i: nat, j: nat | i < j < |next.comments| &&
      next.comments[i].checkIn.Some? && next.comments[j].checkIn.Some?
      ensures Answered(next, i, j)
    {
      if j < |item.comments| {
        AnsweredKept(item, next, i, j);
      } else {
        ActivityGrows(item, next, a, last);
      }
    }
  }

  lemma StepKeepsInv(guild: set<Login>, item: Item, clock: Time, e: Event)
    requires Inv(item, clock) && InOrder([e], clock)
    ensures Inv(Apply(guild, item, e), e.at)
  {
    assert clock < [e][0].at;
    if e.Sweep? && Judge(guild, item, e.now).Nudge? {
      assert [e][0].Sweep? && [e][0].now <= [e][0].at;
      NudgeKeepsInv(guild, item, clock, e.now, e.at);
    } else {
      QuietGrowthKeepsInv(item, Apply(guild, item, e), clock, e.at);
    }
  }

  lemma OrderSplits(events: seq<Event>, clock: Time)
    requires InOrder(events, clock) && events != []
    ensures InOrder([events[0]], clock) && InOrder(events[1..], events[0].at)
    ensures ClockAfter(events, clock) == ClockAfter(events[1..], events[0].at)
  {
  }

  lemma {:induction false} RunKeepsInv(guild: set<Login>, item: Item, clock: Time, events: seq<Event>)
    requires Inv(item, clock) && InOrder(events, clock)
    ensures Inv(Run(guild, item, events), ClockAfter(events, clock))
    decreases |events|
  {
    if events != [] {
      OrderSplits(events, clock);
      StepKeepsInv(guild, item, clock, events[0]);
      RunKeepsInv(guild, Apply(guild, item, events[0]), events[0].at, events[1..]);
    }
  }

  lemma {:induction false} RunSplits(guild: set<Login>, item: Item, events: seq<Event>, k: nat)
    requires k <= |events|
    ensures Run(guild, item, events) == Run(guild, Run(guild, item, events[..k]), events[k..])
    decreases k
  {
    if k == 0 {
      assert events[0..] == events;
    } else {
      RunSplits(guild, Apply(guild, item, events[0]), events[1..], k - 1);
      assert events[1..][..k - 1] == events[..k][1..];
      assert events[1..][k - 1..] == events[k..];
    }
  }

  lemma RunStep(guild: set<Login>, item: Item, events: seq<Event>, k: nat)
    requires k < |events|
    ensures Run(guild, item, events[..k + 1]) == Apply(guild, Run(guild, item, events[..k]), events[k])
  {
    RunSplits(guild, item, events[..k + 1], k);
    assert events[..k + 1][..k] == events[..k];
    assert events[..k + 1][k..] == [events[k]];
    var mid := Run(guild, item, events[..k]);
    assert Run(guild, mid, [events[k]]) == Run(guild, Apply(guild, mid, events[k]), []);
  }

  lemma FreshInv(item: Item, clock: Time)
    requires Fresh(item)
    ensures Inv(item, clock)
  {
  }

  // ----- nudges never stack -----

  /** Over any history of an issue, the addressee of each later check-in engaged
      after every earlier check-in, and at least 14 days before the later one. */
  lemma NudgesNeverStack(guild: set<Login>, item: Item, clock: Time, events: seq<Event>, i: nat, j: nat)
    requires Fresh(item) && InOrder(events, clock)
    requires var log := Run(guild, item, events).comments;
             i < j < |log| && log[i].checkIn.Some? && log[j].checkIn.Some?
    ensures var end := Run(guild, item, events);
            && Answered(end, i, j)
            && end.comments[i].at + CHECK_IN_AFTER_DAYS * DAY < end.comments[j].at
  {
    FreshInv(item, clock);
    RunKeepsInv(guild, item, clock, events);
  }

  // ----- who is assigned -----

  lemma WithinMembers(logins: seq<Login>, kept: set<Login>)
    ensures forall x :: x in Within(logins, kept) <==> x in logins && x in kept
  {
  }

  lemma WatchedMember(guild: set<Login>, item: Item)
    requires Within(item.assignees, guild) != []
    ensures Within(item.assignees, guild)[0] in item.assignees && Within(item.assignees, guild)[0] in guild
  {
    WithinMembers(item.assignees, guild);
    assert Within(item.assignees, guild)[0] in Within(item.assignees, guild);
  }

  lemma {:induction false} WithinAppend(logins: seq<Login>, more: seq<Login>, kept: set<Login>)
    ensures Within(logins + more, kept) == Within(logins, kept) + Within(more, kept)
  {
    if logins == [] {
      Seqs.NoMore(more);
      Seqs.NoMore(Within(more, kept));
    } else {
      WithinAppend(logins[1..], more, kept);
      Seqs.TailOfConcat(logins, more);
      Seqs.Regroup(if logins[0] in kept then [logins[0]] else [], Within(logins[1..], kept), Within(more, kept));
    }
  }

  // An outsider goes unnoticed wherever they are listed, and a guild member listed last comes after the first.
  lemma FirstStaysFirst(logins: seq<Login>, place: Option<nat>, who: Login, kept: set<Login>)
    requires Within(logins, kept) != [] && (who !in kept || place.None?)
    ensures var next := Within(Placed(logins, place, who), kept);
            next != [] && next[0] == Within(logins, kept)[0]
  {
    if place.None? || place.value >= |logins| {
      WithinAppend(logins, [who], kept);
    } else {
      var front, back := logins[..place.value], logins[place.value..];
      Seqs.SplitAt(logins, place.value);
      WithinAppend(front, back, kept);
      WithinAppend(front + [who], back, kept);
      WithinAppend(front, [who], kept);
      assert Within([who], kept) == [];
      Seqs.NoMore(Within(front, kept));
    }
  }

  lemma {:induction false} WithinWithout(logins: seq<Login>, gone: set<Login>, kept: set<Login>)
    requires Within(logins, kept) != [] && Within(logins, kept)[0] !in gone
    ensures Within(Without(logins, gone), kept) != []
    ensures Within(Without(logins, gone), kept)[0] == Within(logins, kept)[0]
  {
    if logins[0] !in kept {
      WithinWithout(logins[1..], gone, kept);
    }
    var rest := Without(logins[1..], gone);
    if logins[0] in gone {
      assert Without(logins, gone) == rest;
    } else {
      assert Without(logins, gone) == [logins[0]] + rest;
      assert ([logins[0]] + rest)[1..] == rest;
    }
  }

  // ----- what a sweep leaves behind -----

  ghost predicate SingleGuild(guild: set<Login>, item: Item) {
    forall x, y :: x in item.assignees && x in guild && y in item.assignees && y in guild ==> x == y
  }

  lemma ClearTakesTheGuild(guild: set<Login>, item: Item, now: Time, at: Time)
    requires Judge(guild, item, now).Clear?
    ensures Apply(guild, item, Sweep(now, at)).assignees == Without(item.assignees, guild)
    ensures Judge(guild, item, now).who in item.assignees && Judge(guild, item, now).who in guild
  {
    WithinMembers(item.assignees, guild);
    WatchedMember(guild, item);
    WithoutSame(item.assignees, (set x | x in Within(item.assignees, guild)), guild);
  }

  /** A clear takes off exactly the assignee it watched if and only if no other guild member is assigned. */
  lemma ClearTakesOnlyTheWatched(guild: set<Login>, item: Item, now: Time, at: Time)
    requires Judge(guild, item, now).Clear?
    ensures var next := Apply(guild, item, Sweep(now, at));
            && next.assignees == Without(item.assignees, guild)
            && ((forall b :: b in item.assignees && b !in next.assignees ==> b == Judge(guild, item, now).who)
                <==> SingleGuild(guild, item))
  {
    ClearTakesTheGuild(guild, item, now, at);
  }

  /** For the last guild assignee a clear is what their unassignment by hand and its webhook come to,
      and the webhook of the clear itself changes nothing more. */
  lemma ClearMatchesUnassignment(guild: set<Login>, item: Item, now: Time, at: Time, a: Login)
    requires Judge(guild, item, now) == Clear(a) && SingleGuild(guild, item)
    ensures var cleared := Apply(guild, item, Sweep(now, at));
            && cleared == Apply(guild, Apply(guild, item, Unassigned(a, at)), UnassignmentWebhook(a, false, at))
            && cleared == Apply(guild, cleared, UnassignmentWebhook(a, true, at))
  {
    ClearTakesTheGuild(guild, item, now, at);
    WithoutSame(item.assignees, guild, {a});
  }

  lemma WithoutSame(logins: seq<Login>, gone: set<Login>, more: set<Login>)
    requires forall x :: x in logins ==> (x in gone <==> x in more)
    ensures Without(logins, gone) == Without(logins, more)
  {
    if logins != [] {
      assert logins[0] in logins;
      assert forall x :: x in logins[1..] ==> x in logins;
      WithoutSame(logins[1..], gone, more);
    }
  }

  /** On a board with this history no sweep ever dies for want of an assignment event. */
  lemma SweepNeverFails(guild: set<Login>, item: Item, clock: Time, events: seq<Event>, now: Time)
    requires Fresh(item) && InOrder(events, clock)
    ensures !Judge(guild, Run(guild, item, events), now).NoAssignmentEvent?
  {
    FreshInv(item, clock);
    RunKeepsInv(guild, item, clock, events);
    var s := Run(guild, item, events);
    if Watched(guild, s) {
      WatchedMember(guild, s);
    }
  }
}
