/**
 The rules of the weekly triage (script/triage_project_sync.py), said of an issue's own
 fields: which status it has, since when, when that is too long, and its intake week.
 */
module TriageRules {
  import opened Wrappers
  import opened TriageSync

  // ----- which status -----

  // Nobody from staff has written anything substantive.
  ghost predicate Unanswered(issue: Issue, staff: set<Login>) {
    forall i :: 0 <= i < |issue.comments| ==> !Substantive(issue.comments[i], staff)
  }

  // Neither staff nor a bot.
  predicate Outsider(c: Comment, staff: set<Login>) {
    c.login !in staff && !c.botType && !EndsWith(c.login, "[bot]")
  }

  // The last comment comes from outside staff, later than the last substantive one from staff.
  ghost predicate RepliedAtTheEnd(issue: Issue, staff: set<Login>) {
    var n := |issue.comments|;
    n > 0 && Outsider(issue.comments[n - 1], staff) &&
    exists i: nat :: LastAskAt(issue.comments, staff, i) && issue.comments[i].at < issue.comments[n - 1].at
  }

  // Staff has answered with substance since the issue was created and since the reporter last wrote.
  ghost predicate RespondedTo(issue: Issue, staff: set<Login>) {
    exists i :: 0 <= i < |issue.comments| && Substantive(issue.comments[i], staff) &&
      issue.createdAt < issue.comments[i].at &&
      forall j :: 0 <= j < |issue.comments| && issue.comments[j].login == issue.reporter ==>
        issue.comments[j].at < issue.comments[i].at
  }

  lemma LastSubstantiveIff(comments: seq<Comment>, staff: set<Login>)
    ensures LastSubstantive(comments, staff).None? <==> forall i :: 0 <= i < |comments| ==> !Substantive(comments[i], staff)
    ensures LastSubstantive(comments, staff).Some? ==>
              exists i: nat :: LastAskAt(comments, staff, i) && comments[i] == LastSubstantive(comments, staff).value
    ensures forall i: nat, j: nat :: LastAskAt(comments, staff, i) && LastAskAt(comments, staff, j) ==> i == j
  {
    LastIsLast(comments, c => Substantive(c, staff));
    if LastSubstantive(comments, staff).Some? {
      var i :| 0 <= i < |comments| && comments[i] == LastSubstantive(comments, staff).value && Substantive(comments[i], staff) &&
               forall j :: i < j < |comments| ==> !Substantive(comments[j], staff);
      assert LastAskAt(comments, staff, i);
    }
  }

  /** A closed issue is Closed; of an open one "claimed by community" decides before all other labels. */
  lemma ClosedAndClaimed(issue: Issue, staff: set<Login>)
    ensures DeriveStatus(issue, staff) == Closed <==> issue.closedAt.Some?
    ensures DeriveStatus(issue, staff) == ClaimedCommunity <==>
            issue.closedAt.None? && "state:claimed by community" in issue.labels
  {
  }

  /** A reproducible issue is Reproducible if it is assigned; otherwise it is handed off, completely exactly if
      someone from staff has written something substantive on it. */
  lemma ReproducibleSplits(issue: Issue, staff: set<Login>)
    requires issue.closedAt.None? && "state:claimed by community" !in issue.labels && "state:reproducible" in issue.labels
    ensures DeriveStatus(issue, staff) == Reproducible <==> issue.assignees != []
    ensures DeriveStatus(issue, staff) == Handoff <==> issue.assignees == [] && !Unanswered(issue, staff)
    ensures DeriveStatus(issue, staff) == HandoffIncomplete <==> issue.assignees == [] && Unanswered(issue, staff)
  {
    LastSubstantiveIff(issue.comments, staff);
  }

  /** An issue that needs info Needs ask until someone from staff has asked; after that the last comment of the
      thread decides whether the user has replied. */
  lemma NeedsInfoSplits(issue: Issue, staff: set<Login>)
    requires NeedsInfoRules(issue)
    ensures DeriveStatus(issue, staff) == NeedsAsk <==> Unanswered(issue, staff)
    ensures DeriveStatus(issue, staff) == UserReplied <==> RepliedAtTheEnd(issue, staff)
    ensures DeriveStatus(issue, staff) == AwaitingUser <==> !Unanswered(issue, staff) && !RepliedAtTheEnd(issue, staff)
  {
    LastSubstantiveIff(issue.comments, staff);
  }

  /** An issue that needs a reproduction needs an attempt unless staff has responded since the reporter was last heard. */
  lemma NeedsReproSplits(issue: Issue, staff: set<Login>)
    requires issue.closedAt.None? && "state:claimed by community" !in issue.labels && "state:reproducible" !in issue.labels
    requires "state:needs info" !in issue.labels && "state:needs repro" in issue.labels
    ensures DeriveStatus(issue, staff) == RespondedNoRepro <==> RespondedTo(issue, staff)
    ensures DeriveStatus(issue, staff) == NeedsReproAttempt <==> !RespondedTo(issue, staff)
  {
    ReporterActivityIsLatest(issue.createdAt, issue.comments, issue.reporter);
  }

  /** An issue with none of these labels waits for labels if it says so, and is unknown otherwise. */
  lemma TheRest(issue: Issue, staff: set<Login>)
    requires issue.closedAt.None? && "state:claimed by community" !in issue.labels && "state:reproducible" !in issue.labels
    requires "state:needs info" !in issue.labels && "state:needs repro" !in issue.labels
    ensures DeriveStatus(issue, staff) == NeedsLabels <==> "state:needs triage" in issue.labels
    ensures DeriveStatus(issue, staff) == Unknown <==> "state:needs triage" !in issue.labels
  {
  }

  // ----- what counts as substantive -----

  // `pat` stands at `i` in `s`.
  predicate StandsAt(s: string, pat: string, i: int) {
    0 <= i && i + |pat| <= |s| && s[i..i + |pat|] == pat
  }

  ghost predicate Occurs(s: string, pat: string) {
    exists i :: StandsAt(s, pat, i)
  }

  lemma StandsInTail(s: string, pat: string, i: int)
    requires s != [] && 0 < i
    ensures StandsAt(s, pat, i) <==> StandsAt(s[1..], pat, i - 1)
  {
    if i + |pat| <= |s| {
      assert s[1..][i - 1..i - 1 + |pat|] == s[i..i + |pat|];
    }
  }

  lemma {:induction false} ContainsIff(s: string, pat: string)
    ensures Contains(s, pat) <==> Occurs(s, pat)
  {
    assert StandsAt(s, pat, 0) <==> pat <= s;
    if !(pat <= s) && s != [] {
      ContainsIff(s[1..], pat);
      if i :| StandsAt(s, pat, i) {
        StandsInTail(s, pat, i);
      }
      if i :| StandsAt(s[1..], pat, i) {
        StandsInTail(s, pat, i + 1);
      }
    }
  }

  const PICTURES: set<string> := {".png", ".jpg", ".jpeg", ".gif", ".mp4", ".webm", ".mov", "user-attachments/assets"}

  /** What is substantive: a staff member's comment, not a bot's, of 50 characters or more or with a picture or film in it. */
  lemma SubstantiveIff(c: Comment, staff: set<Login>)
    ensures Substantive(c, staff) <==>
            && c.login in staff && !c.botType && !EndsWith(c.login, "[bot]")
            && (|c.body| >= 50 || exists pat :: pat in PICTURES && Occurs(c.body, pat))
  {
    MediaArePictures();
    forall pat: string
      ensures Contains(c.body, pat) <==> Occurs(c.body, pat)
    {
      ContainsIff(c.body, pat);
    }
    if k :| 0 <= k < |MEDIA| && Contains(c.body, MEDIA[k]) {
      assert MEDIA[k] in PICTURES && Occurs(c.body, MEDIA[k]);
    }
    if pat :| pat in PICTURES && Occurs(c.body, pat) {
      var k :| 0 <= k < |MEDIA| && MEDIA[k] == pat;
      assert Contains(c.body, MEDIA[k]);
    }
  }

  lemma MediaArePictures()
    ensures forall k :: 0 <= k < |MEDIA| ==> MEDIA[k] in PICTURES
    ensures forall pat :: pat in PICTURES ==> exists k :: 0 <= k < |MEDIA| && MEDIA[k] == pat
  {
    assert MEDIA[0] == "user-attachments/assets" && MEDIA[1] == ".png" && MEDIA[2] == ".jpg" && MEDIA[3] == ".jpeg";
    assert MEDIA[4] == ".gif" && MEDIA[5] == ".mp4" && MEDIA[6] == ".webm" && MEDIA[7] == ".mov";
  }

  // ----- since when, and how long is too long -----

  // The reporter was last heard at `t`: when the issue was created, or in a comment.
  ghost predicate LastHeard(issue: Issue, t: Time) {
    && (t == issue.createdAt || exists i :: 0 <= i < |issue.comments| && issue.comments[i].login == issue.reporter && issue.comments[i].at == t)
    && issue.createdAt <= t
    && forall i :: 0 <= i < |issue.comments| && issue.comments[i].login == issue.reporter ==> issue.comments[i].at <= t
  }

  /** An issue has had its status since it was created, since the reporter was last heard, since the ask or since the reply. */
  lemma AnchorsAre(issue: Issue, staff: set<Login>)
    ensures var status, anchor := DeriveStatus(issue, staff), Anchor(issue, staff);
            && (status in {NeedsLabels, NeedsAsk, HandoffIncomplete} ==> anchor == Some(issue.createdAt))
            && (status == NeedsReproAttempt ==> anchor.Some? && LastHeard(issue, anchor.value))
            && (status == AwaitingUser ==>
                  exists i: nat :: LastAskAt(issue.comments, staff, i) && anchor == Some(issue.comments[i].at))
            && (status == UserReplied ==>
                  issue.comments != [] && anchor == Some(issue.comments[|issue.comments| - 1].at))
            && (status in {Reproducible, Handoff, RespondedNoRepro, ClaimedCommunity, Closed, Unknown} ==> anchor.None?)
  {
    ReporterActivityIsLatest(issue.createdAt, issue.comments, issue.reporter);
    LastSubstantiveIff(issue.comments, staff);
    if DeriveStatus(issue, staff) == UserReplied {
      ReplyIsTheAnchor(issue, staff);
    }
  }

  /** An issue is aged always while the loop is not closed, and otherwise after 7 days without labels or without an attempt,
      14 days without a reply and 3 days without an answer to one. */
  lemma AgedExactly(issue: Issue, staff: set<Login>, now: Time)
    ensures var status, anchor := DeriveStatus(issue, staff), Anchor(issue, staff);
            DeriveAged(status, anchor, now) <==>
            || status == HandoffIncomplete
            || status == NeedsAsk
            || ((status == NeedsLabels || status == NeedsReproAttempt) && anchor.Some? && now - anchor.value > 7 * DAY)
            || (status == AwaitingUser && anchor.Some? && now - anchor.value > 14 * DAY)
            || (status == UserReplied && anchor.Some? && now - anchor.value > 3 * DAY)
  {
    AnchorAbsentIff(issue, staff);
  }

  // ----- intake week, and what is no triage item -----

  predicate Covers(it: Iteration, d: Time) {
    it.start <= d && d < it.start + it.durationDays * DAY
  }

  /** The intake week is the first iteration whose days cover the creation of the issue, if there is one. */
  lemma {:induction false} IterationIsFirst(iterations: seq<Iteration>, d: Time)
    ensures match IterationFor(iterations, d)
            case None => forall i :: 0 <= i < |iterations| ==> !Covers(iterations[i], d)
            case Some(id) => exists i :: 0 <= i < |iterations| && Covers(iterations[i], d) && iterations[i].id == id &&
                               forall j :: 0 <= j < i ==> !Covers(iterations[j], d)
  {
    if iterations != [] && !Covers(iterations[0], d) {
      IterationIsFirst(iterations[1..], d);
      var rest := iterations[1..];
      assert forall i :: 0 < i < |iterations| ==> iterations[i] == rest[i - 1];
      if IterationFor(rest, d).Some? {
        var i :| 0 <= i < |rest| && Covers(rest[i], d) && rest[i].id == IterationFor(rest, d).value &&
                 forall j :: 0 <= j < i ==> !Covers(rest[j], d);
        assert Covers(iterations[i + 1], d) && iterations[i + 1].id == rest[i].id;
      }
    }
  }

  /** After any history of an issue its item shows that week, or what it showed before if there is none. */
  lemma {:induction false} IntakeFollowsCreation(f: Fields, snaps: seq<Snapshot>, cfg: Config, created: Time)
    requires forall i :: 0 <= i < |snaps| ==> snaps[i].issue.createdAt == created
    ensures SyncAll(f, snaps, cfg).intakeWeek ==
            if LastTriaged(snaps).Some? && IterationFor(cfg.iterations, created).Some? then IterationFor(cfg.iterations, created)
            else f.intakeWeek
  {
    if snaps != [] {
      IntakeFollowsCreation(f, snaps[..|snaps| - 1], cfg, created);
    }
  }

  /** Pull requests and issues of the types Meta and Tracking are left alone; every other issue gets an item. */
  lemma OnlyTriageItems(f: Fields, s: Snapshot, cfg: Config)
    ensures s.issue.isPullRequest || s.issue.issueType == Some("Meta") || s.issue.issueType == Some("Tracking") ==>
              Sync(f, s, cfg) == f
    ensures !s.issue.isPullRequest && s.issue.issueType != Some("Meta") && s.issue.issueType != Some("Tracking") ==>
              Sync(f, s, cfg).present
  {
  }
}
