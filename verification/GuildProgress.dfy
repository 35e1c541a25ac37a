/**
 That the stale sweep gets there in the end (script/github-guild-board.py): a silent
 assignee is nudged, and then cleared, in time.
 */
module GuildProgress {
  import opened Wrappers
  import opened Guild

  // ----- bounded progress -----

  // The sweep watches `a`.
  ghost predicate Watches(guild: set<Login>, item: Item, a: Login) {
    && Watched(guild, item)
    && Within(item.assignees, guild)[0] == a
    && LatestAssignment(item.timeline, a).Some?
  }

  // The step neither comes from `a` nor takes the issue out of the sweep's sight.
  predicate LeavesAlone(guild: set<Login>, a: Login, e: Event) {
    match e
    case Assigned(who, place, _) => who != a && (who !in guild || place.None?)
    case Unassigned(who, _) => who != a
    case Commented(author, _) => author != a
    case HoldChanged(on, _) => !on
    case ClosingPrsChanged(any, _) => !any
    case StatusMoved(to, _) => to == Some(InProgress)
    case ArchiveChanged(on, _) => !on
    case UnassignmentWebhook(who, byBot, _) => byBot || who !in guild
    case _ => true
  }

  // Unless it clears, such a step leaves the assignee watched and as silent as before.
  lemma QuietStep(guild: set<Login>, item: Item, e: Event, a: Login)
    requires Watches(guild, item, a) && LeavesAlone(guild, a, e)
    requires e.Sweep? ==> !Judge(guild, item, e.now).Clear?
    ensures var next := Apply(guild, item, e);
            && Watches(guild, next, a)
            && LastActivity(next, a) == LastActivity(item, a)
            && LatestCheckIn(next.comments) ==
               if e.Sweep? && Judge(guild, item, e.now).Nudge? then Later(LatestCheckIn(item.comments), e.at)
               else LatestCheckIn(item.comments)
  {
    var next := Apply(guild, item, e);
    if e.Assigned? {
      FirstStaysFirst(item.assignees, e.place, e.who, guild);
      assert next.timeline[..|next.timeline| - 1] == item.timeline;
    } else if e.Unassigned? {
      WithinWithout(item.assignees, {e.who}, guild);
    } else if next.comments != item.comments {
      assert next.comments[..|next.comments| - 1] == item.comments;
    }
  }

  // `a` is watched, last engaged at `last`, and no check-in has followed.
  ghost predicate Quiet(guild: set<Login>, item: Item, a: Login, last: Time) {
    && Watches(guild, item, a)
    && LastActivity(item, a) == Some(last)
    && (LatestCheckIn(item.comments).None? || LatestCheckIn(item.comments).value < last)
  }

  // `a` is watched and has not engaged since the check-in at `checkIn`.
  ghost predicate Nudged(guild: set<Login>, item: Item, a: Login, checkIn: Time) {
    && Watches(guild, item, a)
    && LastActivity(item, a).Some? && LastActivity(item, a).value <= checkIn
    && LatestCheckIn(item.comments) == Some(checkIn)
  }

  lemma QuietUntilNudged(guild: set<Login>, item: Item, e: Event, a: Login, last: Time)
    requires Quiet(guild, item, a, last) && LeavesAlone(guild, a, e) && last < e.at
    ensures e.Sweep? && last + CHECK_IN_AFTER_DAYS * DAY <= e.now ==> Judge(guild, item, e.now).Nudge?
    ensures if e.Sweep? && Judge(guild, item, e.now).Nudge? then Nudged(guild, Apply(guild, item, e), a, e.at)
            else Quiet(guild, Apply(guild, item, e), a, last)
  {
    QuietStep(guild, item, e, a);
  }

  lemma NudgedUntilCleared(guild: set<Login>, item: Item, e: Event, a: Login, checkIn: Time)
    requires Nudged(guild, item, a, checkIn) && LeavesAlone(guild, a, e)
    ensures e.Sweep? && checkIn + AUTO_CLEAR_AFTER_DAYS * DAY <= e.now ==> Judge(guild, item, e.now) == Clear(a)
    ensures (e.Sweep? && Judge(guild, item, e.now) == Clear(a)) || Nudged(guild, Apply(guild, item, e), a, checkIn)
  {
    if e.Sweep? ==> !Judge(guild, item, e.now).Clear? {
      QuietStep(guild, item, e, a);
    }
  }

  // The same fact, one event into a run.
  lemma ClearedOrStillNudged(guild: set<Login>, item: Item, events: seq<Event>, a: Login, checkIn: Time, n: nat)
    returns (now: bool)
    requires n < |events| && LeavesAlone(guild, a, events[n])
    requires Nudged(guild, Run(guild, item, events[..n]), a, checkIn)
    ensures now ==> events[n].Sweep? && Judge(guild, Run(guild, item, events[..n]), events[n].now) == Clear(a)
    ensures !now ==> Nudged(guild, Run(guild, item, events[..n + 1]), a, checkIn)
    ensures !now ==> !(events[n].Sweep? && checkIn + AUTO_CLEAR_AFTER_DAYS * DAY <= events[n].now)
  {
    RunStep(guild, item, events, n);
    NudgedUntilCleared(guild, Run(guild, item, events[..n]), events[n], a, checkIn);
    now := events[n].Sweep? && Judge(guild, Run(guild, item, events[..n]), events[n].now) == Clear(a);
  }

  // A sweep late enough after an unanswered check-in is in sight, so one clears no later.
  lemma {:induction false} ClearComes(
      guild: set<Login>, item: Item, events: seq<Event>, a: Login, checkIn: Time, n: nat, w: nat)
    returns (k: nat)
    requires n <= w < |events| && Nudged(guild, Run(guild, item, events[..n]), a, checkIn)
    requires forall i :: 0 <= i < |events| ==> LeavesAlone(guild, a, events[i])
    requires events[w].Sweep? && checkIn + AUTO_CLEAR_AFTER_DAYS * DAY <= events[w].now
    ensures k <= w && events[k].Sweep?
    ensures Judge(guild, Run(guild, item, events[..k]), events[k].now) == Clear(a)
    decreases w - n
  {
    var now := ClearedOrStillNudged(guild, item, events, a, checkIn, n);
    if now {
      k := n;
    } else {
      k := ClearComes(guild, item, events, a, checkIn, n + 1, w);
    }
  }

  // Likewise a sweep late enough after the last activity nudges, if no check-in is outstanding.
  lemma {:induction false} NudgeComes(
      guild: set<Login>, item: Item, events: seq<Event>, a: Login, last: Time, n: nat, w: nat)
    returns (k: nat)
    requires n <= w < |events| && Quiet(guild, Run(guild, item, events[..n]), a, last)
    requires forall i :: 0 <= i < |events| ==> LeavesAlone(guild, a, events[i])
    requires forall i :: 0 <= i < |events| ==> last < events[i].at
    requires events[w].Sweep? && last + CHECK_IN_AFTER_DAYS * DAY <= events[w].now
    ensures k <= w && events[k].Sweep?
    ensures Nudged(guild, Run(guild, item, events[..k + 1]), a, events[k].at)
    decreases w - n
  {
    var now := NudgedOrStillQuiet(guild, item, events, a, last, n);
    if now {
      k := n;
    } else {
      k := NudgeComes(guild, item, events, a, last, n + 1, w);
    }
  }

  lemma NudgedOrStillQuiet(guild: set<Login>, item: Item, events: seq<Event>, a: Login, last: Time, n: nat)
    returns (now: bool)
    requires n < |events| && LeavesAlone(guild, a, events[n]) && last < events[n].at
    requires Quiet(guild, Run(guild, item, events[..n]), a, last)
    ensures now ==> events[n].Sweep? && Nudged(guild, Run(guild, item, events[..n + 1]), a, events[n].at)
    ensures !now ==> Quiet(guild, Run(guild, item, events[..n + 1]), a, last)
    ensures !now ==> !(events[n].Sweep? && last + CHECK_IN_AFTER_DAYS * DAY <= events[n].now)
  {
    RunStep(guild, item, events, n);
    QuietUntilNudged(guild, Run(guild, item, events[..n]), events[n], a, last);
    now := events[n].Sweep? && Judge(guild, Run(guild, item, events[..n]), events[n].now).Nudge?;
  }

  // Some sweep reads its clock within `d` after `x`.
  ghost predicate SweptWithin(events: seq<Event>, x: Time, d: int) {
    exists w :: 0 <= w < |events| && events[w].Sweep? && x <= events[w].now <= x + d
  }

  /** Sweeps at most `d` apart that act within `lag` of reading their clock clear
      an assignee who is silent from `t` on by `t` + 21 days + 2 (`d` + `lag`). */
  lemma ClearComesInTime(
      guild: set<Login>, item: Item, clock: Time, events: seq<Event>, a: Login, t: Time, d: int, lag: int)
    returns (k: nat)
    requires Inv(item, clock) && clock <= t && InOrder(events, clock) && 0 <= d && 0 <= lag
    requires Watched(guild, item) && Within(item.assignees, guild)[0] == a
    requires forall x :: IsActivity(item, a, x) ==> x <= t
    requires forall i :: 0 <= i < |events| ==> LeavesAlone(guild, a, events[i])
    requires forall i :: 0 <= i < |events| && events[i].Sweep? ==> events[i].at <= events[i].now + lag
    requires forall x :: t <= x <= t + 21 * DAY + d + lag ==> SweptWithin(events, x, d)
    ensures k < |events| && events[k].Sweep?
    ensures events[k].at <= t + 21 * DAY + 2 * (d + lag)
    ensures a in Run(guild, item, events[..k]).assignees
    ensures a !in Run(guild, item, events[..k + 1]).assignees
  {
    WatchedMember(guild, item);
    LastActivityIsLatest(item, a);
    var last := LastActivity(item, a).value;
    var checkIn := LatestCheckIn(item.comments);
    if checkIn.Some? && last <= checkIn.value {
      LatestCheckInIsLatest(item.comments);
      var x := t + AUTO_CLEAR_AFTER_DAYS * DAY;
      assert SweptWithin(events, x, d);
      k := ClearAfterCheckIn(guild, item, events, a, checkIn.value, 0, x, d, lag);
    } else {
      assert SweptWithin(events, t + CHECK_IN_AFTER_DAYS * DAY, d);
      var n := NudgeAfterSilence(guild, item, events, a, last, t, d, lag);
      var due := events[n].at + AUTO_CLEAR_AFTER_DAYS * DAY;
      var x := if due < t then t else due;
      assert SweptWithin(events, x, d);
      k := ClearAfterCheckIn(guild, item, events, a, events[n].at, n + 1, x, d, lag);
    }
    RunStep(guild, item, events, k);
    ClearRemoves(guild, Run(guild, item, events[..k]), events[k], a);
  }

  lemma ClearRemoves(guild: set<Login>, item: Item, e: Event, a: Login)
    requires e.Sweep? && Judge(guild, item, e.now) == Clear(a)
    ensures a in item.assignees && a !in Apply(guild, item, e).assignees
  {
    WatchedMember(guild, item);
    assert a in Within(item.assignees, guild);
  }

  // Nothing in `events` breaks the silence of `a`, and every sweep acts soon after reading its clock.
  ghost predicate Undisturbed(guild: set<Login>, a: Login, events: seq<Event>, lag: int) {
    && (forall i :: 0 <= i < |events| ==> LeavesAlone(guild, a, events[i]))
    && (forall i, j :: 0 <= i < j < |events| ==> events[i].at < events[j].at)
    && (forall i :: 0 <= i < |events| && events[i].Sweep? ==> events[i].now <= events[i].at <= events[i].now + lag)
  }

  lemma ClearAfterCheckIn(
      guild: set<Login>, item: Item, events: seq<Event>, a: Login, checkIn: Time, n: nat, x: Time, d: int, lag: int)
    returns (k: nat)
    requires Undisturbed(guild, a, events, lag)
    requires n <= |events| && Nudged(guild, Run(guild, item, events[..n]), a, checkIn)
    requires checkIn + AUTO_CLEAR_AFTER_DAYS * DAY <= x && SweptWithin(events, x, d)
    requires n > 0 ==> events[n - 1].at < x
    ensures k < |events| && events[k].Sweep? && events[k].at <= x + d + lag
    ensures Judge(guild, Run(guild, item, events[..k]), events[k].now) == Clear(a)
  {
    var w :| 0 <= w < |events| && events[w].Sweep? && x <= events[w].now <= x + d;
    assert n <= w;
    k := ClearComes(guild, item, events, a, checkIn, n, w);
  }

  lemma NudgeAfterSilence(
      guild: set<Login>, item: Item, events: seq<Event>, a: Login, last: Time, t: Time, d: int, lag: int)
    returns (n: nat)
    requires Undisturbed(guild, a, events, lag) && Quiet(guild, item, a, last)
    requires forall i :: 0 <= i < |events| ==> last < events[i].at
    requires last <= t && SweptWithin(events, t + CHECK_IN_AFTER_DAYS * DAY, d)
    ensures n < |events| && events[n].Sweep?
    ensures events[n].at <= t + CHECK_IN_AFTER_DAYS * DAY + d + lag
    ensures Nudged(guild, Run(guild, item, events[..n + 1]), a, events[n].at)
  {
    var x := t + CHECK_IN_AFTER_DAYS * DAY;
    var w :| 0 <= w < |events| && events[w].Sweep? && x <= events[w].now <= x + d;
    n := NudgeComes(guild, item, events, a, last, 0, w);
  }

}
