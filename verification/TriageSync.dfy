/**
 The weekly-triage project as a view of the issues (script/triage_project_sync.py):
 the status cascade, the anchor that ages it, and the field updates of a sync.
 */
module TriageSync {
  import opened Wrappers

  type Login = string
  type Time = int  // microseconds since some epoch

  const DAY: int := 86_400_000_000
  const SUBSTANTIVE_COMMENT_MIN_LEN := 50
  const MEDIA: seq<string> :=
    ["user-attachments/assets", ".png", ".jpg", ".jpeg", ".gif", ".mp4", ".webm", ".mov"]

  datatype Status =
    | NeedsLabels | NeedsReproAttempt | NeedsAsk | UserReplied | AwaitingUser | RespondedNoRepro
    | Reproducible | Handoff | HandoffIncomplete | ClaimedCommunity | Closed | Unknown

  datatype Comment = Comment(login: Login, botType: bool, body: string, at: Time)

  datatype Issue = Issue(
    isPullRequest: bool,
    issueType: Option<string>,
    closedAt: Option<Time>,
    createdAt: Time,
    reporter: Login,
    assignees: seq<Login>,
    labels: seq<string>,
    comments: seq<Comment>)

  predicate Contains(s: string, pat: string) {
    pat <= s || (s != [] && Contains(s[1..], pat))
  }

  predicate EndsWith(s: string, pat: string) {
    |pat| <= |s| && s[|s| - |pat|..] == pat
  }

  predicate IsBot(c: Comment) {
    c.botType || EndsWith(c.login, "[bot]")
  }

  predicate NonStaff(c: Comment, staff: set<Login>) {
    c.login !in staff && !IsBot(c)
  }

  predicate Substantive(c: Comment, staff: set<Login>) {
    && c.login in staff
    && !IsBot(c)
    && (|c.body| >= SUBSTANTIVE_COMMENT_MIN_LEN || exists k :: 0 <= k < |MEDIA| && Contains(c.body, MEDIA[k]))
  }

  // The last comment of the thread that `keep` holds of.
  function Last(comments: seq<Comment>, keep: Comment -> bool): Option<Comment> {
    if comments == [] then None
    else if keep(comments[|comments| - 1]) then Some(comments[|comments| - 1])
    else Last(comments[..|comments| - 1], keep)
  }

  function LastSubstantive(comments: seq<Comment>, staff: set<Login>): Option<Comment> {
    Last(comments, c => Substantive(c, staff))
  }

  function LastNonStaff(comments: seq<Comment>, staff: set<Login>): Option<Comment> {
    Last(comments, c => NonStaff(c, staff))
  }

  // The latest of `created` and the reporter's comments.
  function ReporterActivity(created: Time, comments: seq<Comment>, reporter: Login): Time {
    if comments == [] then created
    else
      var rest, last := ReporterActivity(created, comments[..|comments| - 1], reporter), comments[|comments| - 1];
      if last.login == reporter && last.at > rest then last.at else rest
  }

  function LatestReporterActivity(issue: Issue): Time {
    ReporterActivity(issue.createdAt, issue.comments, issue.reporter)
  }

  predicate AnsweredAfter(comments: seq<Comment>, staff: set<Login>, cutoff: Time) {
    exists i :: 0 <= i < |comments| && comments[i].at > cutoff && Substantive(comments[i], staff)
  }

  function DeriveStatus(issue: Issue, staff: set<Login>): Status {
    if issue.closedAt.Some? then Closed
    else if "state:claimed by community" in issue.labels then ClaimedCommunity
    else if "state:reproducible" in issue.labels then
      if issue.assignees != [] then Reproducible
      else if LastSubstantive(issue.comments, staff).Some? then Handoff
      else HandoffIncomplete
    else if "state:needs info" in issue.labels then
      var ask := LastSubstantive(issue.comments, staff);
      if ask.None? then NeedsAsk
      else
        var last := issue.comments[|issue.comments| - 1];
        if issue.comments != [] && NonStaff(last, staff) && last.at > ask.value.at then UserReplied else AwaitingUser
    else if "state:needs repro" in issue.labels then
      if AnsweredAfter(issue.comments, staff, LatestReporterActivity(issue)) then RespondedNoRepro
      else NeedsReproAttempt
    else if "state:needs triage" in issue.labels then NeedsLabels
    else Unknown
  }

  predicate Resting(s: Status) {
    s.Reproducible? || s.Handoff? || s.Closed? || s.RespondedNoRepro? || s.ClaimedCommunity?
  }

  function DeriveStaleSince(issue: Issue, status: Status, staff: set<Login>): Option<Time> {
    if Resting(status) || status == Unknown then None
    else
      match status
      case NeedsLabels => Some(issue.createdAt)
      case NeedsReproAttempt => Some(LatestReporterActivity(issue))
      case NeedsAsk => Some(issue.createdAt)
      case AwaitingUser =>
        var ask := LastSubstantive(issue.comments, staff);
        Some(if ask.Some? then ask.value.at else issue.createdAt)
      case UserReplied =>
        var reply := LastNonStaff(issue.comments, staff);
        if reply.Some? then Some(reply.value.at) else None
      case HandoffIncomplete => Some(issue.createdAt)
      case _ => None
  }

  function Threshold(status: Status): Option<int> {
    match status
    case NeedsLabels => Some(7)
    case NeedsReproAttempt => Some(7)
    case AwaitingUser => Some(14)
    case UserReplied => Some(3)
    case _ => None
  }

  // The value of "Aged?", Yes or No.
  predicate DeriveAged(status: Status, staleSince: Option<Time>, now: Time) {
    if status == HandoffIncomplete then true
    else if status == NeedsAsk then true
    else if Resting(status) || status == Unknown then false
    else if staleSince.None? then false
    else if Threshold(status).None? then false
    else now - staleSince.value > Threshold(status).value * DAY
  }

  function Anchor(issue: Issue, staff: set<Login>): Option<Time> {
    DeriveStaleSince(issue, DeriveStatus(issue, staff), staff)
  }

  // ----- only the strongest label matters -----

  // The five recognised labels, strongest first.
  function LabelAt(i: nat): string {
    if i == 0 then "state:claimed by community"
    else if i == 1 then "state:reproducible"
    else if i == 2 then "state:needs info"
    else if i == 3 then "state:needs repro"
    else "state:needs triage"
  }

  // The place among those of the label a status speaks of.
  function Strength(status: Status): nat {
    match status
    case ClaimedCommunity => 0
    case Reproducible => 1
    case Handoff => 1
    case HandoffIncomplete => 1
    case NeedsAsk => 2
    case UserReplied => 2
    case AwaitingUser => 2
    case RespondedNoRepro => 3
    case NeedsReproAttempt => 3
    case NeedsLabels => 4
    case Closed => 5
    case Unknown => 5
  }

  /** The status of an open issue speaks of its strongest recognised label, and is unknown just when it has none. */
  lemma StatusNamesTheStrongest(issue: Issue, staff: set<Login>)
    ensures var status := DeriveStatus(issue, staff);
            && (status == Closed <==> issue.closedAt.Some?)
            && (status != Closed ==>
                  (Strength(status) < 5 ==> LabelAt(Strength(status)) in issue.labels) &&
                  forall i: nat :: i < Strength(status) ==> LabelAt(i) !in issue.labels)
  {
  }

  /** Whatever weaker labels are added or left on, the status stays the same. */
  lemma WeakerLabelsDoNotMatter(issue: Issue, staff: set<Login>, labels: seq<string>)
    requires var r := Strength(DeriveStatus(issue, staff));
             forall i: nat :: i <= r && i < 5 ==> (LabelAt(i) in labels <==> LabelAt(i) in issue.labels)
    ensures DeriveStatus(issue.(labels := labels), staff) == DeriveStatus(issue, staff)
  {
    StatusNamesTheStrongest(issue, staff);
    var r := Strength(DeriveStatus(issue, staff));
    assert r >= 0 ==> (LabelAt(0) in labels <==> LabelAt(0) in issue.labels);
    assert r >= 1 ==> (LabelAt(1) in labels <==> LabelAt(1) in issue.labels);
    assert r >= 2 ==> (LabelAt(2) in labels <==> LabelAt(2) in issue.labels);
    assert r >= 3 ==> (LabelAt(3) in labels <==> LabelAt(3) in issue.labels);
    assert r >= 4 ==> (LabelAt(4) in labels <==> LabelAt(4) in issue.labels);
  }

  // ----- status and anchor agree -----

  lemma {:induction false} LastIsLast(comments: seq<Comment>, keep: Comment -> bool)
    ensures match Last(comments, keep)
            case None => forall i :: 0 <= i < |comments| ==> !keep(comments[i])
            case Some(c) => exists i :: 0 <= i < |comments| && comments[i] == c && keep(c) &&
                              forall j :: i < j < |comments| ==> !keep(comments[j])
  {
    if comments != [] && !keep(comments[|comments| - 1]) {
      LastIsLast(comments[..|comments| - 1], keep);
    }
  }

  /** An issue's own status has an anchor unless it is resting or unknown. */
  lemma AnchorAbsentIff(issue: Issue, staff: set<Login>)
    ensures Anchor(issue, staff).None? <==>
            Resting(DeriveStatus(issue, staff)) || DeriveStatus(issue, staff) == Unknown
  {
    if DeriveStatus(issue, staff) == UserReplied {
      ReplyIsTheAnchor(issue, staff);
    }
  }

  /** "User replied" is anchored at the reply that ends the thread, strictly after the last
      substantive staff comment; the code's fallback for a missing reply is never taken. */
  lemma ReplyIsTheAnchor(issue: Issue, staff: set<Login>)
    requires DeriveStatus(issue, staff) == UserReplied
    ensures issue.comments != []
    ensures LastNonStaff(issue.comments, staff) == Some(issue.comments[|issue.comments| - 1])
    ensures Anchor(issue, staff) == Some(issue.comments[|issue.comments| - 1].at)
    ensures LastSubstantive(issue.comments, staff).Some?
    ensures Anchor(issue, staff).value > LastSubstantive(issue.comments, staff).value.at
  {
    LastIsLast(issue.comments, c => Substantive(c, staff));
  }

  /** "Awaiting user" always has a substantive staff comment to be anchored at: its fallback is never taken either. */
  lemma AskIsTheAnchor(issue: Issue, staff: set<Login>)
    requires DeriveStatus(issue, staff) == AwaitingUser
    ensures var ask := LastSubstantive(issue.comments, staff);
            && ask.Some? && Anchor(issue, staff) == Some(ask.value.at)
            && exists i :: 0 <= i < |issue.comments| && issue.comments[i] == ask.value && Substantive(ask.value, staff)
  {
    LastIsLast(issue.comments, c => Substantive(c, staff));
  }

  lemma {:induction false} ReporterActivityIsLatest(created: Time, comments: seq<Comment>, reporter: Login)
    ensures var r := ReporterActivity(created, comments, reporter);
            && created <= r
            && (forall i :: 0 <= i < |comments| && comments[i].login == reporter ==> comments[i].at <= r)
            && (r == created || exists i :: 0 <= i < |comments| && comments[i].login == reporter && comments[i].at == r)
  {
    if comments != [] {
      ReporterActivityIsLatest(created, comments[..|comments| - 1], reporter);
    }
  }

  /** "Needs repro attempt" is anchored where the reporter was last heard, and nothing substantive came
      from staff after it; "Responded, no repro" means something did, after all the reporter ever wrote. */
  lemma ReproAnchorSeparates(issue: Issue, staff: set<Login>)
    ensures DeriveStatus(issue, staff) == NeedsReproAttempt ==>
              Anchor(issue, staff).Some? &&
              forall i :: 0 <= i < |issue.comments| && Substantive(issue.comments[i], staff) ==>
                issue.comments[i].at <= Anchor(issue, staff).value
    ensures DeriveStatus(issue, staff) == RespondedNoRepro ==>
              exists i :: 0 <= i < |issue.comments| && Substantive(issue.comments[i], staff) &&
                issue.createdAt < issue.comments[i].at &&
                forall j :: 0 <= j < |issue.comments| && issue.comments[j].login == issue.reporter ==>
                  issue.comments[j].at < issue.comments[i].at
  {
    ReporterActivityIsLatest(issue.createdAt, issue.comments, issue.reporter);
  }

  // A non-staff comment after the ask.
  ghost predicate RepliedSince(issue: Issue, staff: set<Login>, ask: Comment) {
    exists i :: 0 <= i < |issue.comments| && NonStaff(issue.comments[i], staff) && issue.comments[i].at > ask.at
  }

  ghost predicate Chronological(comments: seq<Comment>) {
    forall i, j :: 0 <= i < j < |comments| ==> comments[i].at < comments[j].at
  }

  // Open, labelled "needs info", and nothing that outranks it.
  predicate NeedsInfoRules(issue: Issue) {
    && issue.closedAt.None?
    && "state:needs info" in issue.labels
    && "state:claimed by community" !in issue.labels
    && "state:reproducible" !in issue.labels
  }

  /** Once asked, an issue counts as "User replied" exactly when the thread ends with a comment from
      outside staff, and as "Awaiting user" otherwise. */
  lemma RepliedOnlyIfLast(issue: Issue, staff: set<Login>)
    requires NeedsInfoRules(issue) && Chronological(issue.comments)
    requires LastSubstantive(issue.comments, staff).Some?
    ensures issue.comments != []
    ensures DeriveStatus(issue, staff) == UserReplied <==> NonStaff(issue.comments[|issue.comments| - 1], staff)
    ensures DeriveStatus(issue, staff) == AwaitingUser <==> !NonStaff(issue.comments[|issue.comments| - 1], staff)
  {
    LastIsLast(issue.comments, c => Substantive(c, staff));
  }

  // The last substantive staff comment is at `i`.
  ghost predicate LastAskAt(comments: seq<Comment>, staff: set<Login>, i: nat) {
    && i < |comments|
    && Substantive(comments[i], staff)
    && forall k :: i < k < |comments| ==> !Substantive(comments[k], staff)
  }

  /** The script explains "Awaiting user" as "no non-staff reply since". It says so of a thread of which it is untrue
      exactly when someone outside staff has replied to the ask and the last comment is not from outside staff. */
  lemma AwaitingThoughRepliedIff(issue: Issue, staff: set<Login>, ask: nat)
    requires NeedsInfoRules(issue) && Chronological(issue.comments) && LastAskAt(issue.comments, staff, ask)
    ensures LastSubstantive(issue.comments, staff) == Some(issue.comments[ask])
    ensures DeriveStatus(issue, staff) == AwaitingUser && RepliedSince(issue, staff, issue.comments[ask]) <==>
            !NonStaff(issue.comments[|issue.comments| - 1], staff) &&
            exists j :: ask < j < |issue.comments| && NonStaff(issue.comments[j], staff)
  {
    LastIsLast(issue.comments, c => Substantive(c, staff));
    RepliedOnlyIfLast(issue, staff);
  }

  /** So it is untrue of every thread that ends with a reply and then a staff comment too short to be an ask. */
  lemma ReplyHiddenByShortComment(issue: Issue, staff: set<Login>, n: nat)
    requires NeedsInfoRules(issue) && Chronological(issue.comments) && n == |issue.comments| && n >= 2
    requires LastSubstantive(issue.comments[..n - 2], staff).Some?
    requires NonStaff(issue.comments[n - 2], staff)
    requires issue.comments[n - 1].login in staff && !Substantive(issue.comments[n - 1], staff)
    ensures DeriveStatus(issue, staff) == AwaitingUser
    ensures RepliedSince(issue, staff, LastSubstantive(issue.comments, staff).value)
  {
    var keep := (c: Comment) => Substantive(c, staff);
    assert issue.comments[..n - 1][..n - 2] == issue.comments[..n - 2];
    assert Last(issue.comments, keep) == Last(issue.comments[..n - 1], keep) == Last(issue.comments[..n - 2], keep);
    LastIsLast(issue.comments[..n - 2], keep);
  }

  /** Once aged, an issue that does not change stays aged. */
  lemma AgedNeverReverts(issue: Issue, staff: set<Login>, now: Time, later: Time)
    requires now <= later && DeriveAged(DeriveStatus(issue, staff), Anchor(issue, staff), now)
    ensures DeriveAged(DeriveStatus(issue, staff), Anchor(issue, staff), later)
  {
  }

  // Which issues are aged, and from when.
  lemma AgedIff(issue: Issue, staff: set<Login>, now: Time)
    ensures var status := DeriveStatus(issue, staff);
            DeriveAged(status, Anchor(issue, staff), now) <==>
              status == HandoffIncomplete || status == NeedsAsk ||
              (Threshold(status).Some? && Anchor(issue, staff).Some? &&
               Anchor(issue, staff).value + Threshold(status).value * DAY < now)
  {
    AnchorAbsentIff(issue, staff);
  }

  // ----- syncing -----

  datatype Iteration = Iteration(id: string, start: Time, durationDays: int)

  // The project's options and iterations, and the staff.
  datatype Config = Config(
    statuses: set<Status>,
    agedValues: set<bool>,
    iterations: seq<Iteration>,
    staff: set<Login>)

  // One project item; `staleSince` is a calendar day.
  datatype Fields = Fields(
    present: bool,
    status: Option<Status>,
    aged: Option<bool>,
    staleSince: Option<int>,
    intakeWeek: Option<string>)

  datatype Snapshot = Snapshot(issue: Issue, now: Time)

  function DateOf(t: Time): int {
    t / DAY
  }

  function IterationFor(iterations: seq<Iteration>, d: Time): Option<string> {
    if iterations == [] then None
    else if iterations[0].start <= d < iterations[0].start + iterations[0].durationDays * DAY then Some(iterations[0].id)
    else IterationFor(iterations[1..], d)
  }

  predicate Triaged(issue: Issue) {
    !issue.isPullRequest && issue.issueType != Some("Meta") && issue.issueType != Some("Tracking")
  }

  function StatusOf(s: Snapshot, cfg: Config): Status { DeriveStatus(s.issue, cfg.staff) }
  function AgedOf(s: Snapshot, cfg: Config): bool { DeriveAged(StatusOf(s, cfg), Anchor(s.issue, cfg.staff), s.now) }

  function Sync(f: Fields, s: Snapshot, cfg: Config): Fields {
    if !Triaged(s.issue) then f
    else
      var status, aged, anchor := StatusOf(s, cfg), AgedOf(s, cfg), Anchor(s.issue, cfg.staff);
      var intake := IterationFor(cfg.iterations, s.issue.createdAt);
      Fields(true,
             if status in cfg.statuses then Some(status) else f.status,
             if aged in cfg.agedValues then Some(aged) else f.aged,
             if anchor.Some? then Some(DateOf(anchor.value)) else f.staleSince,
             if intake.Some? then intake else f.intakeWeek)
  }

  function SyncAll(f: Fields, snaps: seq<Snapshot>, cfg: Config): Fields {
    if snaps == [] then f else Sync(SyncAll(f, snaps[..|snaps| - 1], cfg), snaps[|snaps| - 1], cfg)
  }

  // The last synced state of a triage issue.
  function LastTriaged(snaps: seq<Snapshot>): Option<Snapshot> {
    if snaps == [] then None
    else if Triaged(snaps[|snaps| - 1].issue) then Some(snaps[|snaps| - 1])
    else LastTriaged(snaps[..|snaps| - 1])
  }

  // The last anchor there was, as a day.
  function LastAnchor(snaps: seq<Snapshot>, cfg: Config): Option<int> {
    if snaps == [] then None
    else
      var s := snaps[|snaps| - 1];
      if Triaged(s.issue) && Anchor(s.issue, cfg.staff).Some? then Some(DateOf(Anchor(s.issue, cfg.staff).value))
      else LastAnchor(snaps[..|snaps| - 1], cfg)
  }

  // The project has both values of Aged?.
  predicate ShowsAged(cfg: Config) {
    true in cfg.agedValues && false in cfg.agedValues
  }

  ghost predicate FullyConfigured(cfg: Config) {
    (forall s: Status :: s in cfg.statuses) && ShowsAged(cfg)
  }

  // The last status there was that the project has an option for, and likewise of Aged?.
  function LastStatus(snaps: seq<Snapshot>, cfg: Config): Option<Status> {
    if snaps == [] then None
    else
      var s := snaps[|snaps| - 1];
      if Triaged(s.issue) && StatusOf(s, cfg) in cfg.statuses then Some(StatusOf(s, cfg))
      else LastStatus(snaps[..|snaps| - 1], cfg)
  }

  function LastAged(snaps: seq<Snapshot>, cfg: Config): Option<bool> {
    if snaps == [] then None
    else
      var s := snaps[|snaps| - 1];
      if Triaged(s.issue) && AgedOf(s, cfg) in cfg.agedValues then Some(AgedOf(s, cfg))
      else LastAged(snaps[..|snaps| - 1], cfg)
  }

  function OrElse<T>(x: Option<T>, y: Option<T>): Option<T> {
    if x.Some? then x else y
  }

  /** After any history, in any project, each field is the last value the project could hold of it. */
  lemma {:induction false} FieldsFollowHistory(f: Fields, snaps: seq<Snapshot>, cfg: Config)
    ensures var end := SyncAll(f, snaps, cfg);
            && end.present == (f.present || LastTriaged(snaps).Some?)
            && end.status == OrElse(LastStatus(snaps, cfg), f.status)
            && end.aged == OrElse(LastAged(snaps, cfg), f.aged)
            && end.staleSince == OrElse(LastAnchor(snaps, cfg), f.staleSince)
  {
    if snaps != [] {
      FieldsFollowHistory(f, snaps[..|snaps| - 1], cfg);
    }
  }

  /** In a project with every option, Status and Aged? are those of the last synced state. */
  lemma {:induction false} ViewIsCurrent(f: Fields, snaps: seq<Snapshot>, cfg: Config)
    requires FullyConfigured(cfg) && LastTriaged(snaps).Some?
    ensures var end, s := SyncAll(f, snaps, cfg), LastTriaged(snaps).value;
            end.present && end.status == Some(StatusOf(s, cfg)) && end.aged == Some(AgedOf(s, cfg))
  {
    var s := snaps[|snaps| - 1];
    assert AgedOf(s, cfg) == true || AgedOf(s, cfg) == false;
    if !Triaged(s.issue) {
      ViewIsCurrent(f, snaps[..|snaps| - 1], cfg);
    }
  }

  /** Syncing the same state again changes nothing, whatever options the project has. */
  lemma ResyncIsNoOp(f: Fields, s: Snapshot, cfg: Config)
    ensures Sync(Sync(f, s, cfg), s, cfg) == Sync(f, s, cfg)
  {
  }

  // ----- when Aged? turns -----

  // The same issue synced at each of `times`.
  function Syncs(issue: Issue, times: seq<Time>): seq<Snapshot> {
    seq(|times|, i requires 0 <= i < |times| => Snapshot(issue, times[i]))
  }

  // The instant after which the issue counts as aged.
  function Deadline(issue: Issue, staff: set<Login>): Time
    requires Threshold(DeriveStatus(issue, staff)).Some?
  {
    AnchorAbsentIff(issue, staff);
    Anchor(issue, staff).value + Threshold(DeriveStatus(issue, staff)).value * DAY
  }

  lemma AgedAfterSync(f: Fields, issue: Issue, times: seq<Time>, cfg: Config)
    requires Triaged(issue) && ShowsAged(cfg) && Threshold(DeriveStatus(issue, cfg.staff)).Some? && times != []
    ensures SyncAll(f, Syncs(issue, times), cfg).aged == Some(Deadline(issue, cfg.staff) < times[|times| - 1])
  {
    AgedIff(issue, cfg.staff, times[|times| - 1]);
    var s := Syncs(issue, times)[|times| - 1];
    assert AgedOf(s, cfg) == true || AgedOf(s, cfg) == false;
  }

  /** An unchanged issue with a threshold, synced at least once within `d` after its deadline, is shown as not
      aged by every sync up to the deadline and as aged from a sync at most `d` later on, for good. */
  lemma AgedTurnsOnceInTime(f: Fields, issue: Issue, times: seq<Time>, cfg: Config, d: int) returns (k: nat)
    requires Triaged(issue) && ShowsAged(cfg) && Threshold(DeriveStatus(issue, cfg.staff)).Some?
    requires forall i, j :: 0 <= i < j < |times| ==> times[i] < times[j]
    requires exists i :: 0 <= i < |times| && Deadline(issue, cfg.staff) < times[i] <= Deadline(issue, cfg.staff) + d
    ensures k < |times| && Deadline(issue, cfg.staff) < times[k] <= Deadline(issue, cfg.staff) + d
    ensures forall i :: 0 <= i < k ==> times[i] <= Deadline(issue, cfg.staff)
    ensures forall n :: 0 < n <= |times| ==> SyncAll(f, Syncs(issue, times[..n]), cfg).aged == Some(n > k)
  {
    var deadline := Deadline(issue, cfg.staff);
    k := 0;
    while times[k] <= deadline
      invariant k < |times| && forall i :: 0 <= i < k ==> times[i] <= deadline
      decreases |times| - k
    {
      k := k + 1;
    }
    forall n | 0 < n <= |times|
      ensures SyncAll(f, Syncs(issue, times[..n]), cfg).aged == Some(n > k)
    {
      AgedAfterSync(f, issue, times[..n], cfg);
      assert deadline < times[n - 1] <==> n > k;
    }
  }

  // ----- when Stale since is out of date -----

  // What Stale since would be if the item were made afresh from the issue.
  function FreshStaleSince(issue: Issue, staff: set<Login>): Option<int> {
    match Anchor(issue, staff)
    case None => None
    case Some(t) => Some(DateOf(t))
  }

  /** After any history Stale since is that of the last synced state exactly when that state has an
      anchor, or no earlier one had and the field was empty to begin with. */
  lemma StaleSinceIsCurrentIff(f: Fields, snaps: seq<Snapshot>, cfg: Config)
    requires LastTriaged(snaps).Some?
    ensures var issue := LastTriaged(snaps).value.issue;
            SyncAll(f, snaps, cfg).staleSince == FreshStaleSince(issue, cfg.staff) <==>
            Anchor(issue, cfg.staff).Some? ||
            (f.staleSince.None? && forall i :: 0 <= i < |snaps| && Triaged(snaps[i].issue) ==>
               Anchor(snaps[i].issue, cfg.staff).None?)
  {
    FieldsFollowHistory(f, snaps, cfg);
    LastAnchorIff(snaps, cfg);
    if Anchor(LastTriaged(snaps).value.issue, cfg.staff).Some? {
      LastAnchorOfLast(snaps, cfg);
    }
  }

  lemma {:induction false} LastAnchorIff(snaps: seq<Snapshot>, cfg: Config)
    ensures LastAnchor(snaps, cfg).None? <==>
            forall i :: 0 <= i < |snaps| && Triaged(snaps[i].issue) ==> Anchor(snaps[i].issue, cfg.staff).None?
  {
    if snaps != [] {
      var front := snaps[..|snaps| - 1];
      LastAnchorIff(front, cfg);
      assert forall i :: 0 <= i < |front| ==> front[i] == snaps[i];
    }
  }

  lemma {:induction false} LastAnchorOfLast(snaps: seq<Snapshot>, cfg: Config)
    requires LastTriaged(snaps).Some? && Anchor(LastTriaged(snaps).value.issue, cfg.staff).Some?
    ensures LastAnchor(snaps, cfg) == FreshStaleSince(LastTriaged(snaps).value.issue, cfg.staff)
  {
    if !Triaged(snaps[|snaps| - 1].issue) {
      LastAnchorOfLast(snaps[..|snaps| - 1], cfg);
    }
  }

  /** So it is wrong for every issue that is synced while it has an anchor, then closed and synced again. */
  lemma ClosedKeepsStaleSince(f: Fields, issue: Issue, cfg: Config, now: Time, closed: Time, later: Time)
    requires Triaged(issue) && Anchor(issue, cfg.staff).Some?
    ensures var after := issue.(closedAt := Some(closed));
            && FreshStaleSince(after, cfg.staff) == None
            && SyncAll(f, [Snapshot(issue, now), Snapshot(after, later)], cfg).staleSince ==
               FreshStaleSince(issue, cfg.staff) != None
  {
    var after := issue.(closedAt := Some(closed));
    var snaps := [Snapshot(issue, now), Snapshot(after, later)];
    assert snaps[..1] == [Snapshot(issue, now)] && snaps[..1][..0] == [];
    assert SyncAll(f, snaps[..1], cfg) == Sync(SyncAll(f, [], cfg), Snapshot(issue, now), cfg);
  }

  // A first such issue: waiting for labels, created on day 3, closed on day 5.
  lemma NewIssueClosed() returns (issue: Issue, cfg: Config, snaps: seq<Snapshot>)
    ensures snaps == [Snapshot(issue, 4 * DAY), Snapshot(issue.(closedAt := Some(5 * DAY)), 6 * DAY)]
    ensures FreshStaleSince(issue.(closedAt := Some(5 * DAY)), cfg.staff) == None
    ensures SyncAll(Fields(false, None, None, None, None), snaps, cfg).staleSince == Some(3)
  {
    issue := Issue(false, None, None, 3 * DAY, "user", [], ["state:needs triage"], []);
    cfg := Config({}, {}, [], {});
    snaps := [Snapshot(issue, 4 * DAY), Snapshot(issue.(closedAt := Some(5 * DAY)), 6 * DAY)];
    assert DeriveStatus(issue, {}) == NeedsLabels;
    ClosedKeepsStaleSince(Fields(false, None, None, None, None), issue, cfg, 4 * DAY, 5 * DAY, 6 * DAY);
  }

  // ----- the script's own loops -----

  method FindLastSubstantive(comments: seq<Comment>, staff: set<Login>) returns (substantive: Option<Comment>)
    ensures substantive == LastSubstantive(comments, staff)
  {
    substantive := None;
    for i := 0 to |comments|
      invariant substantive == LastSubstantive(comments[..i], staff)
    {
      assert comments[..i + 1][..i] == comments[..i];
      if Substantive(comments[i], staff) {
        substantive := Some(comments[i]);
      }
    }
    assert comments[..|comments|] == comments;
  }

  method FindLatestReporterActivity(issue: Issue) returns (latest: Time)
    ensures latest == LatestReporterActivity(issue)
  {
    latest := issue.createdAt;
    for i := 0 to |issue.comments|
      invariant latest == ReporterActivity(issue.createdAt, issue.comments[..i], issue.reporter)
    {
      var c := issue.comments[i];
      assert issue.comments[..i + 1][..i] == issue.comments[..i];
      if c.login == issue.reporter && c.at > latest {
        latest := c.at;
      }
    }
    assert issue.comments[..|issue.comments|] == issue.comments;
  }

  // The reversed scan for a staff answer after the cutoff.
  method FindAnswer(comments: seq<Comment>, staff: set<Login>, cutoff: Time) returns (found: bool)
    ensures found <==> AnsweredAfter(comments, staff, cutoff)
  {
    var i := |comments|;
    while i > 0
      invariant 0 <= i <= |comments|
      invariant forall j :: i <= j < |comments| ==> !(comments[j].at > cutoff && Substantive(comments[j], staff))
    {
      i := i - 1;
      if comments[i].at > cutoff && Substantive(comments[i], staff) {
        return true;
      }
    }
    return false;
  }

  method ComputeStatus(issue: Issue, staff: set<Login>) returns (status: Status)
    ensures status == DeriveStatus(issue, staff)
  {
    if issue.closedAt.Some? {
      return Closed;
    }
    if "state:claimed by community" in issue.labels {
      return ClaimedCommunity;
    }
    if "state:reproducible" in issue.labels {
      if issue.assignees != [] {
        return Reproducible;
      }
      var substantive := FindLastSubstantive(issue.comments, staff);
      return if substantive.Some? then Handoff else HandoffIncomplete;
    }
    if "state:needs info" in issue.labels {
      var ask := FindLastSubstantive(issue.comments, staff);
      if ask.None? {
        return NeedsAsk;
      }
      if issue.comments != [] {
        var last := issue.comments[|issue.comments| - 1];
        if NonStaff(last, staff) {
          if last.at > ask.value.at {
            return UserReplied;
          }
        }
      }
      return AwaitingUser;
    }
    if "state:needs repro" in issue.labels {
      var cutoff := FindLatestReporterActivity(issue);
      var answered := FindAnswer(issue.comments, staff, cutoff);
      return if answered then RespondedNoRepro else NeedsReproAttempt;
    }
    return if "state:needs triage" in issue.labels then NeedsLabels else Unknown;
  }

  class ProjectItem {
    const cfg: Config
    var fields: Fields

    constructor (cfg: Config)
      ensures this.cfg == cfg && fields == Fields(false, None, None, None, None)
    {
      this.cfg, fields := cfg, Fields(false, None, None, None, None);
    }

    method SyncIssue(issue: Issue, now: Time, dryRun: bool)
      modifies this
      ensures fields == if dryRun then old(fields) else Sync(old(fields), Snapshot(issue, now), cfg)
    {
      if issue.isPullRequest {
        return;
      }
      if issue.issueType == Some("Meta") || issue.issueType == Some("Tracking") {
        return;
      }
      var status := ComputeStatus(issue, cfg.staff);
      var staleSince := DeriveStaleSince(issue, status, cfg.staff);
      var aged := DeriveAged(status, staleSince, now);
      var intake := IterationFor(cfg.iterations, issue.createdAt);
      if dryRun {
        return;
      }
      if !fields.present {
        fields := fields.(present := true);
      }
      if status in cfg.statuses {
        fields := fields.(status := Some(status));
      }
      if aged in cfg.agedValues {
        fields := fields.(aged := Some(aged));
      }
      if staleSince.Some? {
        fields := fields.(staleSince := Some(DateOf(staleSince.value)));
      }
      if intake.Some? {
        fields := fields.(intakeWeek := intake);
      }
    }
  }
}
