/**
 What one sweep does to one issue (script/github-guild-board.py), said of the issue's
 fields alone: when it posts a check-in, when it clears, and when it keeps its hands off.
 */
module GuildRules {
  import opened Wrappers
  import opened Guild

  // ----- the conditions, on the fields -----

  // Nothing a sweep may touch.
  ghost predicate Spared(guild: set<Login>, item: Item) {
    || item.hold || item.closingPrs || item.archived || !item.isIssue || item.status != Some(InProgress)
    || forall x :: x in item.assignees ==> x !in guild
  }

  // `a` is the first guild member among the assignees.
  ghost predicate FirstMember(guild: set<Login>, assignees: seq<Login>, a: Login) {
    exists i :: 0 <= i < |assignees| && assignees[i] == a && a in guild && forall j :: 0 <= j < i ==> assignees[j] !in guild
  }

  // `a` has an assignment event, and last engaged at `x`.
  ghost predicate LastEngaged(item: Item, a: Login, x: Time) {
    && (exists i :: 0 <= i < |item.timeline| && item.timeline[i].who == a)
    && IsActivity(item, a, x)
    && forall y :: IsActivity(item, a, y) ==> y <= x
  }

  ghost predicate DueCheckIn(guild: set<Login>, item: Item, now: Time, a: Login) {
    && !Spared(guild, item)
    && FirstMember(guild, item.assignees, a)
    && exists x :: LastEngaged(item, a, x) && x + 14 * DAY <= now &&
         forall i :: 0 <= i < |item.comments| && item.comments[i].checkIn.Some? ==> item.comments[i].at < x
  }

  // The latest check-in is at `c`.
  ghost predicate LastCheckedIn(item: Item, c: Time) {
    && (exists i :: 0 <= i < |item.comments| && item.comments[i].checkIn.Some? && item.comments[i].at == c)
    && forall i :: 0 <= i < |item.comments| && item.comments[i].checkIn.Some? ==> item.comments[i].at <= c
  }

  ghost predicate DueClear(guild: set<Login>, item: Item, now: Time, a: Login) {
    && !Spared(guild, item)
    && FirstMember(guild, item.assignees, a)
    && exists x, c :: LastEngaged(item, a, x) && LastCheckedIn(item, c) && x <= c && c + 7 * DAY <= now
  }

  // ----- what the sweep does -----

  lemma {:induction false} FirstMemberIff(guild: set<Login>, assignees: seq<Login>, a: Login)
    ensures FirstMember(guild, assignees, a) <==> Within(assignees, guild) != [] && Within(assignees, guild)[0] == a
  {
    if assignees != [] {
      FirstMemberIff(guild, assignees[1..], a);
      if assignees[0] !in guild {
        if FirstMember(guild, assignees, a) {
          var i :| 0 <= i < |assignees| && assignees[i] == a && a in guild && forall j :: 0 <= j < i ==> assignees[j] !in guild;
          assert assignees[1..][i - 1] == a;
          assert forall j :: 0 <= j < i - 1 ==> assignees[1..][j] == assignees[j + 1];
        }
        if FirstMember(guild, assignees[1..], a) {
          var i :| 0 <= i < |assignees[1..]| && assignees[1..][i] == a && forall j :: 0 <= j < i ==> assignees[1..][j] !in guild;
          assert assignees[i + 1] == a;
          assert forall j :: 0 < j < i + 1 ==> assignees[j] == assignees[1..][j - 1];
        }
      }
    }
  }

  lemma SparedIff(guild: set<Login>, item: Item)
    ensures Spared(guild, item) <==> !Watched(guild, item)
  {
    WithinMembers(item.assignees, guild);
    if Within(item.assignees, guild) != [] {
      WatchedMember(guild, item);
    } else {
      forall x | x in item.assignees
        ensures x !in guild
      {
        assert x !in Within(item.assignees, guild);
      }
    }
  }

  lemma LastEngagedIff(item: Item, a: Login, x: Time)
    ensures LastEngaged(item, a, x) <==> LastActivity(item, a) == Some(x)
  {
    LastActivityIsLatest(item, a);
  }

  lemma LastCheckedInIff(item: Item, c: Time)
    ensures LastCheckedIn(item, c) <==> LatestCheckIn(item.comments) == Some(c)
  {
    LatestCheckInIsLatest(item.comments);
  }

  lemma CheckInIsDueIff(guild: set<Login>, item: Item, now: Time, a: Login)
    ensures Judge(guild, item, now) == Nudge(a) <==> DueCheckIn(guild, item, now, a)
  {
    SparedIff(guild, item);
    FirstMemberIff(guild, item.assignees, a);
    LatestCheckInIsLatest(item.comments);
    forall x
      ensures LastEngaged(item, a, x) <==> LastActivity(item, a) == Some(x)
    {
      LastEngagedIff(item, a, x);
    }
  }

  lemma ClearIsDueIff(guild: set<Login>, item: Item, now: Time, a: Login)
    ensures Judge(guild, item, now) == Clear(a) <==> DueClear(guild, item, now, a)
  {
    SparedIff(guild, item);
    FirstMemberIff(guild, item.assignees, a);
    forall x
      ensures LastEngaged(item, a, x) <==> LastActivity(item, a) == Some(x)
      ensures LastCheckedIn(item, x) <==> LatestCheckIn(item.comments) == Some(x)
    {
      LastEngagedIff(item, a, x);
      LastCheckedInIff(item, x);
    }
  }

  /** A sweep posts one check-in, addressed to the first guild assignee, if they have been silent for 14 days and
      no check-in has come since; it clears if one has come, 7 days ago or more; and it does nothing else. */
  lemma SweepDoes(guild: set<Login>, item: Item, now: Time, at: Time)
    ensures var next := Apply(guild, item, Sweep(now, at));
            && (forall a :: DueCheckIn(guild, item, now, a) ==>
                  next == item.(comments := item.comments + [Comment(BOT, Some(a), at)]))
            && (forall a :: DueClear(guild, item, now, a) ==>
                  next == item.(assignees := next.assignees, status := next.status) &&
                  forall x :: x in next.assignees <==> x in item.assignees && x !in guild)
            && ((forall a :: !DueCheckIn(guild, item, now, a) && !DueClear(guild, item, now, a)) ==> next == item)
  {
    var v := Judge(guild, item, now);
    if v.Clear? {
      ClearTakesTheGuild(guild, item, now, at);
    }
    forall a
      ensures v == Nudge(a) <==> DueCheckIn(guild, item, now, a)
      ensures v == Clear(a) <==> DueClear(guild, item, now, a)
    {
      CheckInIsDueIff(guild, item, now, a);
      ClearIsDueIff(guild, item, now, a);
    }
  }

  /** A held issue, one with an open closing pull request, an archived item, anything but an issue in progress
      and an issue without a guild assignee are left as they are. */
  lemma SparedIsUntouched(guild: set<Login>, item: Item, now: Time, at: Time)
    requires Spared(guild, item)
    ensures Apply(guild, item, Sweep(now, at)) == item
  {
    SparedIff(guild, item);
  }

  // ----- while an issue is held -----

  // The label "guild hold" was put on at `m` and not taken off before `k`.
  ghost predicate HeldSince(events: seq<Event>, m: nat, k: nat) {
    && m < k <= |events|
    && events[m].HoldChanged? && events[m].on
    && forall i :: m < i < k && events[i].HoldChanged? ==> events[i].on
  }

  // A closing pull request was opened at `m`, and there was one at every change up to `k`.
  ghost predicate UnderReviewSince(events: seq<Event>, m: nat, k: nat) {
    && m < k <= |events|
    && events[m].ClosingPrsChanged? && events[m].any
    && forall i :: m < i < k && events[i].ClosingPrsChanged? ==> events[i].any
  }

  lemma HoldAfter(guild: set<Login>, item: Item, e: Event)
    ensures Apply(guild, item, e).hold == if e.HoldChanged? then e.on else item.hold
    ensures Apply(guild, item, e).closingPrs == if e.ClosingPrsChanged? then e.any else item.closingPrs
  {
  }

  lemma {:induction false} HoldLasts(guild: set<Login>, item: Item, events: seq<Event>, m: nat, k: nat)
    requires HeldSince(events, m, k)
    ensures Run(guild, item, events[..k]).hold
    decreases k
  {
    RunStep(guild, item, events, k - 1);
    HoldAfter(guild, Run(guild, item, events[..k - 1]), events[k - 1]);
    if m < k - 1 {
      HoldLasts(guild, item, events, m, k - 1);
    }
  }

  lemma {:induction false} ReviewLasts(guild: set<Login>, item: Item, events: seq<Event>, m: nat, k: nat)
    requires UnderReviewSince(events, m, k)
    ensures Run(guild, item, events[..k]).closingPrs
    decreases k
  {
    RunStep(guild, item, events, k - 1);
    HoldAfter(guild, Run(guild, item, events[..k - 1]), events[k - 1]);
    if m < k - 1 {
      ReviewLasts(guild, item, events, m, k - 1);
    }
  }

  /** From the moment an issue is held, or has a closing pull request, until that ends, every sweep leaves it as it is. */
  lemma HeldIsLeftAlone(guild: set<Login>, item: Item, events: seq<Event>, m: nat, k: nat)
    requires k < |events| && events[k].Sweep? && (HeldSince(events, m, k) || UnderReviewSince(events, m, k))
    ensures Run(guild, item, events[..k + 1]) == Run(guild, item, events[..k])
  {
    if HeldSince(events, m, k) {
      HoldLasts(guild, item, events, m, k);
    } else {
      ReviewLasts(guild, item, events, m, k);
    }
    RunStep(guild, item, events, k);
    SparedIsUntouched(guild, Run(guild, item, events[..k]), events[k].now, events[k].at);
  }

  // Everything else that can happen shows on the item.
  lemma EventsShow(guild: set<Login>, item: Item, e: Event)
    ensures var next := Apply(guild, item, e);
            && (e.Assigned? ==> e.who in next.assignees)
            && (e.Unassigned? ==> forall x :: x in next.assignees <==> x in item.assignees && x != e.who)
            && (e.StatusMoved? ==> next.status == e.to)
            && next.archived == (if e.ArchiveChanged? then e.on else item.archived)
            && next.kind == (if e.TypeChanged? then e.newType else item.kind)
  {
  }

  // ----- what is on record -----

  lemma LogsOnlyGrow(guild: set<Login>, item: Item, e: Event)
    ensures item.timeline <= Apply(guild, item, e).timeline && item.comments <= Apply(guild, item, e).comments
  {
  }

  lemma {:induction false} ActivityLasts(guild: set<Login>, item: Item, events: seq<Event>, a: Login, x: Time)
    requires IsActivity(item, a, x)
    ensures IsActivity(Run(guild, item, events), a, x)
    decreases |events|
  {
    if events != [] {
      LogsOnlyGrow(guild, item, events[0]);
      ActivityGrows(item, Apply(guild, item, events[0]), a, x);
      ActivityLasts(guild, Apply(guild, item, events[0]), events[1..], a, x);
    }
  }

  /** Every assignment and every comment there ever was counts as an engagement of its author. */
  lemma EveryEngagementCounts(guild: set<Login>, item: Item, events: seq<Event>, k: nat)
    requires k < |events|
    ensures events[k].Assigned? ==> IsActivity(Run(guild, item, events), events[k].who, events[k].at)
    ensures events[k].Commented? ==> IsActivity(Run(guild, item, events), events[k].author, events[k].at)
  {
    var before, e := Run(guild, item, events[..k]), events[k];
    var after := Apply(guild, before, e);
    RunSplits(guild, item, events, k + 1);
    RunStep(guild, item, events, k);
    if e.Assigned? {
      assert after.timeline[|before.timeline|] == Assignment(e.who, e.at);
      ActivityLasts(guild, after, events[k + 1..], e.who, e.at);
    } else if e.Commented? {
      assert IsCommentBy(after.comments[|before.comments|], e.author);
      ActivityLasts(guild, after, events[k + 1..], e.author, e.at);
    }
  }

  // ----- webhooks -----

  /** A webhook changes at most the status. It puts an issue in progress for a guild member who is assigned to it while
      it is open, or opens a pull request that closes it; it takes one out of progress for a guild member whom a human
      unassigns, into the column of its type; and for anyone else it does nothing. */
  lemma WebhooksMove(guild: set<Login>, item: Item, who: Login, at: Time)
    ensures var begun := Apply(guild, item, AssignmentWebhook(who, false, at));
            && begun == Apply(guild, item, PullRequestWebhook(who, true, at)) == item.(status := begun.status)
            && (begun.status == Some(InProgress) <==> who in guild || item.status == Some(InProgress))
            && (begun.status != Some(InProgress) ==> begun == item)
    ensures Apply(guild, item, AssignmentWebhook(who, true, at)) == item == Apply(guild, item, PullRequestWebhook(who, false, at))
    ensures Apply(guild, item, UnassignmentWebhook(who, true, at)) == item
    ensures var left := Apply(guild, item, UnassignmentWebhook(who, false, at));
            && left == item.(status := left.status)
            && (who !in guild || item.status != Some(InProgress) ==> left == item)
            && (who in guild && item.status == Some(InProgress) ==>
                  (left.status == Some(ShipFeature) <==> item.kind == Some(Feature)) &&
                  (left.status == Some(BugBashers) <==>
                     item.kind == Some(Bug) || item.kind == Some(Docs) || item.kind == Some(Crash)) &&
                  (left.status == Some(InProgress) <==> item.kind == None || item.kind == Some(OtherType)))
  {
  }
}
