/**
 The Guild board as a whole (script/github-guild-board.py): the stale run over all its
 items, the script's loops and handlers, and what many runs do to many items.
 */
module GuildBoard {
  import opened Wrappers
  import opened Guild
  import opened GuildProgress
  import opened GuildRules
  import Seqs

  // What a sweep makes of each item, and what it leaves of each.
  function Verdicts(guild: set<Login>, items: seq<Item>, now: Time): seq<Verdict> {
    seq(|items|, i requires 0 <= i < |items| => Judge(guild, items[i], now))
  }

  function SweptItems(guild: set<Login>, items: seq<Item>, now: Time, clock: seq<Time>): seq<Item>
    requires |clock| == |items|
  {
    seq(|items|, i requires 0 <= i < |items| => Apply(guild, items[i], Sweep(now, clock[i])))
  }

  // How many items a run gets through: all, or those before the first without an assignment event.
  function Completed(verdicts: seq<Verdict>): (n: nat)
    ensures n <= |verdicts|
    ensures forall i :: 0 <= i < n ==> !verdicts[i].NoAssignmentEvent?
    ensures n < |verdicts| ==> verdicts[n].NoAssignmentEvent?
  {
    if verdicts == [] || verdicts[0].NoAssignmentEvent? then 0 else 1 + Completed(verdicts[1..])
  }

  // The board after a run: an item without an assignment event ends it where it stands.
  function AfterRun(guild: set<Login>, items: seq<Item>, now: Time, clock: seq<Time>): seq<Item>
    requires |clock| == |items|
  {
    var n := Completed(Verdicts(guild, items, now));
    SweptItems(guild, items, now, clock)[..n] + items[n..]
  }

  // How many of the first `n` are nudges, and how many are clears.
  function Nudges(verdicts: seq<Verdict>, n: nat): nat
    requires n <= |verdicts|
  {
    if n == 0 then 0 else Nudges(verdicts, n - 1) + (if verdicts[n - 1].Nudge? then 1 else 0)
  }

  function Clears(verdicts: seq<Verdict>, n: nat): nat
    requires n <= |verdicts|
  {
    if n == 0 then 0 else Clears(verdicts, n - 1) + (if verdicts[n - 1].Clear? then 1 else 0)
  }

  // `now` agrees with `after` on the first `done` places and with `before` on the rest.
  lemma PartlyReplaced<T>(now: seq<T>, after: seq<T>, before: seq<T>, done: nat)
    requires |now| == |after| == |before| && done <= |before|
    requires forall j :: 0 <= j < done ==> now[j] == after[j]
    requires forall j :: done <= j < |now| ==> now[j] == before[j]
    ensures now == after[..done] + before[done..]
  {
  }

  ghost predicate SweepGives(guild: set<Login>, item: Item, now: Time, at: Time, v: Verdict, after: Item) {
    v == Judge(guild, item, now) && after == Apply(guild, item, Sweep(now, at))
  }

  // ----- many runs over many items -----

  // Something happens to the issue at `i`, or the scheduled run passes over the board.
  datatype BoardEvent = On(i: nat, e: Event) | StaleRun(now: Time, clock: seq<Time>)

  predicate Fits(b: BoardEvent, n: nat) {
    match b
    case On(i, e) => i < n && !e.Sweep?
    case StaleRun(_, clock) => |clock| == n
  }

  function BoardApply(guild: set<Login>, items: seq<Item>, b: BoardEvent): (r: seq<Item>)
    requires Fits(b, |items|)
    ensures |r| == |items|
  {
    match b
    case On(i, e) => items[i := Apply(guild, items[i], e)]
    case StaleRun(now, clock) => AfterRun(guild, items, now, clock)
  }

  ghost predicate AllFit(bs: seq<BoardEvent>, n: nat) {
    forall k :: 0 <= k < |bs| ==> Fits(bs[k], n)
  }

  function BoardRun(guild: set<Login>, items: seq<Item>, bs: seq<BoardEvent>): (r: seq<Item>)
    requires AllFit(bs, |items|)
    ensures |r| == |items|
    decreases |bs|
  {
    if bs == [] then items else BoardRun(guild, BoardApply(guild, items, bs[0]), bs[1..])
  }

  // What a board event is to item `i`.
  function Part(b: BoardEvent, i: nat): seq<Event> {
    match b
    case On(j, e) => if j == i then [e] else []
    case StaleRun(now, clock) => if i < |clock| then [Sweep(now, clock[i])] else []
  }

  function Projection(bs: seq<BoardEvent>, i: nat): seq<Event> {
    if bs == [] then [] else Part(bs[0], i) + Projection(bs[1..], i)
  }

  // The item has a history, and the events continue it.
  ghost predicate Sound(item: Item, events: seq<Event>) {
    exists clock :: Inv(item, clock) && InOrder(events, clock)
  }

  ghost predicate AllSound(items: seq<Item>, bs: seq<BoardEvent>) {
    forall i: nat :: i < |items| ==> Sound(items[i], Projection(bs, i))
  }

  lemma SoundNeverFails(guild: set<Login>, item: Item, events: seq<Event>, now: Time)
    requires Sound(item, events)
    ensures !Judge(guild, item, now).NoAssignmentEvent?
  {
    if Watched(guild, item) {
      WatchedMember(guild, item);
    }
  }

  lemma SoundStep(guild: set<Login>, item: Item, e: Event, rest: seq<Event>)
    requires Sound(item, [e] + rest)
    ensures Sound(Apply(guild, item, e), rest)
  {
    var events := [e] + rest;
    var clock :| Inv(item, clock) && InOrder(events, clock);
    OrderSplits(events, clock);
    Seqs.TailOfConcat([e], rest);
    Seqs.NoMore(rest);
    StepKeepsInv(guild, item, clock, e);
  }

  lemma AllComplete(guild: set<Login>, items: seq<Item>, bs: seq<BoardEvent>, now: Time)
    requires AllSound(items, bs)
    ensures Completed(Verdicts(guild, items, now)) == |items|
  {
    forall i: nat | i < |items|
      ensures !Verdicts(guild, items, now)[i].NoAssignmentEvent?
    {
      SoundNeverFails(guild, items[i], Projection(bs, i), now);
    }
  }

  lemma StepOfItem(guild: set<Login>, items: seq<Item>, b: BoardEvent, i: nat)
    requires Fits(b, |items|) && i < |items|
    requires b.StaleRun? ==> Completed(Verdicts(guild, items, b.now)) == |items|
    ensures BoardApply(guild, items, b)[i] ==
            if Part(b, i) == [] then items[i] else Apply(guild, items[i], Part(b, i)[0])
    ensures |Part(b, i)| <= 1
  {
  }

  lemma BoardStep(guild: set<Login>, items: seq<Item>, bs: seq<BoardEvent>)
    requires bs != [] && AllFit(bs, |items|) && AllSound(items, bs)
    ensures AllSound(BoardApply(guild, items, bs[0]), bs[1..])
    ensures forall i: nat :: i < |items| ==>
              Run(guild, items[i], Projection(bs, i)) ==
              Run(guild, BoardApply(guild, items, bs[0])[i], Projection(bs[1..], i))
  {
    if bs[0].StaleRun? {
      AllComplete(guild, items, bs, bs[0].now);
    }
    forall i: nat | i < |items|
      ensures Sound(BoardApply(guild, items, bs[0])[i], Projection(bs[1..], i))
      ensures Run(guild, items[i], Projection(bs, i)) ==
              Run(guild, BoardApply(guild, items, bs[0])[i], Projection(bs[1..], i))
    {
      StepOfItem(guild, items, bs[0], i);
      ItemGoesOn(guild, items[i], Part(bs[0], i), Projection(bs[1..], i));
    }
  }

  lemma ItemGoesOn(guild: set<Login>, item: Item, part: seq<Event>, rest: seq<Event>)
    requires |part| <= 1 && Sound(item, part + rest)
    ensures var next := if part == [] then item else Apply(guild, item, part[0]);
            Sound(next, rest) && Run(guild, item, part + rest) == Run(guild, next, rest)
  {
    if part == [] {
      Seqs.NoMore(rest);
    } else {
      Seqs.TailOfConcat(part, rest);
      Seqs.NoMore(rest);
      assert part == [part[0]];
      SoundStep(guild, item, part[0], rest);
    }
  }

  /** On a board whose items all have a history, each item goes through its own events and sweeps as if it
      were alone: whatever the theorems about one issue say holds of every issue on the board. */
  lemma {:induction false} EveryItemGoesItsWay(guild: set<Login>, items: seq<Item>, bs: seq<BoardEvent>)
    requires AllFit(bs, |items|) && AllSound(items, bs)
    ensures forall i: nat :: i < |items| ==>
              BoardRun(guild, items, bs)[i] == Run(guild, items[i], Projection(bs, i))
    decreases |bs|
  {
    if bs != [] {
      BoardStep(guild, items, bs);
      EveryItemGoesItsWay(guild, BoardApply(guild, items, bs[0]), bs[1..]);
    }
  }

  lemma BoardRunFirst(guild: set<Login>, items: seq<Item>, bs: seq<BoardEvent>, k: nat)
    requires AllFit(bs, |items|) && 0 < k <= |bs|
    ensures AllFit(bs[..k], |items|) && AllFit(bs[1..][..k - 1], |items|)
    ensures BoardRun(guild, items, bs[..k]) == BoardRun(guild, BoardApply(guild, items, bs[0]), bs[1..][..k - 1])
  {
    assert bs[..k][1..] == bs[1..][..k - 1];
  }

  lemma {:induction false} SoundAfter(guild: set<Login>, items: seq<Item>, bs: seq<BoardEvent>, k: nat)
    requires AllFit(bs, |items|) && AllSound(items, bs) && k <= |bs|
    ensures AllFit(bs[..k], |items|) && AllSound(BoardRun(guild, items, bs[..k]), bs[k..])
    decreases k
  {
    if k == 0 {
      Seqs.WholeFrom(bs);
    } else {
      var next, rest := BoardApply(guild, items, bs[0]), bs[1..];
      BoardStep(guild, items, bs);
      SoundAfter(guild, next, rest, k - 1);
      BoardRunFirst(guild, items, bs, k);
      DropsAgree(bs, k);
    }
  }

  lemma DropsAgree<T>(s: seq<T>, k: nat)
    requires 0 < k <= |s|
    ensures s[1..][k - 1..] == s[k..]
  {
  }

  /** And no scheduled run fails. */
  lemma NoRunFails(guild: set<Login>, items: seq<Item>, bs: seq<BoardEvent>, k: nat)
    requires AllFit(bs, |items|) && AllSound(items, bs) && k < |bs| && bs[k].StaleRun?
    ensures AllFit(bs[..k], |items|)
    ensures Completed(Verdicts(guild, BoardRun(guild, items, bs[..k]), bs[k].now)) == |items|
  {
    SoundAfter(guild, items, bs, k);
    AllComplete(guild, BoardRun(guild, items, bs[..k]), bs[k..], bs[k].now);
  }

  // The board event behind event `k` of item `i`.
  lemma {:induction false} Behind(bs: seq<BoardEvent>, i: nat, k: nat) returns (m: nat)
    requires k < |Projection(bs, i)|
    ensures m < |bs| && Part(bs[m], i) == [Projection(bs, i)[k]]
    ensures Projection(bs[..m], i) == Projection(bs, i)[..k]
    ensures Projection(bs[..m + 1], i) == Projection(bs, i)[..k + 1]
  {
    var part, rest := Part(bs[0], i), Projection(bs[1..], i);
    if k < |part| {
      m := 0;
      ProjectionOfOne(bs, i);
      TakeInto(part, rest, k);
      Seqs.TakeAll(part);
    } else {
      var j := Behind(bs[1..], i, k - |part|);
      m := j + 1;
      ProjectionFirst(bs, m, i);
      ProjectionFirst(bs, m + 1, i);
      TakeInto(part, rest, k);
    }
  }

  lemma ProjectionOfOne(bs: seq<BoardEvent>, i: nat)
    requires bs != []
    ensures Projection(bs[..0], i) == [] && Projection(bs[..1], i) == Part(bs[0], i)
  {
    assert bs[..1][1..] == [];
    Seqs.NoMore(Part(bs[0], i));
  }

  lemma ProjectionFirst(bs: seq<BoardEvent>, m: nat, i: nat)
    requires 0 < m <= |bs|
    ensures Projection(bs[..m], i) == Part(bs[0], i) + Projection(bs[1..][..m - 1], i)
  {
    assert bs[..m][1..] == bs[1..][..m - 1];
  }

  lemma TakeInto<T>(part: seq<T>, rest: seq<T>, k: nat)
    requires k < |part| + |rest| && |part| <= 1
    ensures (part + rest)[k] == if k < |part| then part[k] else rest[k - |part|]
    ensures (part + rest)[..k] == if k < |part| then part[..k] else part + rest[..k - |part|]
    ensures (part + rest)[..k + 1] == if k < |part| then part else part + rest[..k - |part| + 1]
  {
  }

  lemma {:induction false} ProjectionOfPrefix(bs: seq<BoardEvent>, m: nat, i: nat)
    requires m <= |bs|
    ensures Projection(bs, i) == Projection(bs[..m], i) + Projection(bs[m..], i)
    decreases m
  {
    if m == 0 {
      Seqs.NoMore(Projection(bs, i));
      Seqs.WholeFrom(bs);
    } else {
      ProjectionOfPrefix(bs[1..], m - 1, i);
      assert bs[1..][..m - 1] == bs[..m][1..] && bs[1..][m - 1..] == bs[m..];
      Seqs.Regroup(Part(bs[0], i), Projection(bs[..m][1..], i), Projection(bs[m..], i));
    }
  }

  lemma SoundPrefix(item: Item, a: seq<Event>, b: seq<Event>)
    requires Sound(item, a + b)
    ensures Sound(item, a)
  {
    var clock :| Inv(item, clock) && InOrder(a + b, clock);
    assert forall i :: 0 <= i < |a| ==> (a + b)[i] == a[i];
    assert InOrder(a, clock);
  }

  lemma AllSoundPrefix(items: seq<Item>, bs: seq<BoardEvent>, m: nat)
    requires AllSound(items, bs) && m <= |bs|
    ensures AllSound(items, bs[..m])
  {
    forall i: nat | i < |items|
      ensures Sound(items[i], Projection(bs[..m], i))
    {
      ProjectionOfPrefix(bs, m, i);
      SoundPrefix(items[i], Projection(bs[..m], i), Projection(bs[m..], i));
    }
  }

  /** So on such a board every silent assignee is cleared in time, by a run over the whole board. */
  lemma SilentItemIsCleared(
      guild: set<Login>, items: seq<Item>, bs: seq<BoardEvent>, i: nat, clock: Time,
      events: seq<Event>, a: Login, t: Time, d: int, lag: int)
    returns (m: nat)
    requires AllFit(bs, |items|) && AllSound(items, bs) && i < |items|
    requires events == Projection(bs, i)
    requires Inv(items[i], clock) && clock <= t && InOrder(events, clock) && 0 <= d && 0 <= lag
    requires Watched(guild, items[i]) && Within(items[i].assignees, guild)[0] == a
    requires forall x :: IsActivity(items[i], a, x) ==> x <= t
    requires forall k :: 0 <= k < |events| ==> LeavesAlone(guild, a, events[k])
    requires forall k :: 0 <= k < |events| && events[k].Sweep? ==> events[k].at <= events[k].now + lag
    requires forall x :: t <= x <= t + 21 * DAY + d + lag ==> SweptWithin(events, x, d)
    ensures m < |bs| && bs[m].StaleRun? && i < |bs[m].clock| && bs[m].clock[i] <= t + 21 * DAY + 2 * (d + lag)
    ensures a in BoardRun(guild, items, bs[..m])[i].assignees
    ensures a !in BoardRun(guild, items, bs[..m + 1])[i].assignees
  {
    var k := ClearComesInTime(guild, items[i], clock, events, a, t, d, lag);
    m := Behind(bs, i, k);
    assert Fits(bs[m], |items|);
    PrefixGoesItsWay(guild, items, bs, m, i);
    PrefixGoesItsWay(guild, items, bs, m + 1, i);
  }

  lemma PrefixGoesItsWay(guild: set<Login>, items: seq<Item>, bs: seq<BoardEvent>, m: nat, i: nat)
    requires AllFit(bs, |items|) && AllSound(items, bs) && m <= |bs| && i < |items|
    ensures AllFit(bs[..m], |items|)
    ensures BoardRun(guild, items, bs[..m])[i] == Run(guild, items[i], Projection(bs[..m], i))
  {
    AllSoundPrefix(items, bs, m);
    EveryItemGoesItsWay(guild, items, bs[..m]);
  }

  // The item is not watched, or its watched assignee has an assignment event.
  predicate Backed(guild: set<Login>, item: Item) {
    Watched(guild, item) ==> LatestAssignment(item.timeline, Within(item.assignees, guild)[0]).Some?
  }

  /** A run gets through the whole board exactly when every watched assignee has an assignment event,
      whatever the clock says. */
  lemma RunCompletesIff(guild: set<Login>, items: seq<Item>, now: Time)
    ensures Completed(Verdicts(guild, items, now)) == |items| <==>
            forall i :: 0 <= i < |items| ==> Backed(guild, items[i])
  {
    var verdicts := Verdicts(guild, items, now);
    forall i | 0 <= i < |items|
      ensures verdicts[i].NoAssignmentEvent? <==> !Backed(guild, items[i])
    {
    }
  }

  // What happens to item `i` itself.
  function OwnEvents(bs: seq<BoardEvent>, i: nat): seq<Event> {
    if bs == [] then []
    else (if bs[0].On? && bs[0].i == i then [bs[0].e] else []) + OwnEvents(bs[1..], i)
  }

  /** One watched item with no assignment event starves itself and every item after it: as long as nothing
      happens to it, they go through their own events only and no run ever gets to them. */
  lemma {:induction false} UnbackedStarves(guild: set<Login>, items: seq<Item>, bs: seq<BoardEvent>, j: nat)
    requires AllFit(bs, |items|) && j < |items| && !Backed(guild, items[j])
    requires forall k :: 0 <= k < |bs| && bs[k].On? ==> bs[k].i != j
    ensures forall i: nat :: j <= i < |items| ==>
              BoardRun(guild, items, bs)[i] == Run(guild, items[i], OwnEvents(bs, i))
    decreases |bs|
  {
    if bs != [] {
      if bs[0].StaleRun? {
        RunStopsAt(guild, items, bs[0].now, bs[0].clock, j);
      }
      UnbackedStarves(guild, BoardApply(guild, items, bs[0]), bs[1..], j);
      forall i: nat | j <= i < |items|
        ensures BoardRun(guild, items, bs)[i] == Run(guild, items[i], OwnEvents(bs, i))
      {
        OwnRun(guild, items[i], bs, i);
      }
    }
  }

  lemma OwnRun(guild: set<Login>, item: Item, bs: seq<BoardEvent>, i: nat)
    requires bs != []
    ensures Run(guild, item, OwnEvents(bs, i)) ==
            Run(guild, if bs[0].On? && bs[0].i == i then Apply(guild, item, bs[0].e) else item, OwnEvents(bs[1..], i))
  {
    var rest := OwnEvents(bs[1..], i);
    Seqs.NoMore(rest);
    if bs[0].On? && bs[0].i == i {
      Seqs.TailOfConcat([bs[0].e], rest);
      Seqs.NoMore(rest);
    }
  }

  lemma RunStopsAt(guild: set<Login>, items: seq<Item>, now: Time, clock: seq<Time>, j: nat)
    requires |clock| == |items| && j < |items| && Judge(guild, items[j], now).NoAssignmentEvent?
    ensures forall i :: j <= i < |items| ==> AfterRun(guild, items, now, clock)[i] == items[i]
  {
    CompletedStops(Verdicts(guild, items, now), j);
    TailKept(SweptItems(guild, items, now, clock), items, Completed(Verdicts(guild, items, now)), j);
  }

  lemma TailKept<T>(after: seq<T>, before: seq<T>, n: nat, j: nat)
    requires n <= j <= |before| == |after|
    ensures forall i :: j <= i < |before| ==> (after[..n] + before[n..])[i] == before[i]
  {
  }

  lemma CompletedStops(verdicts: seq<Verdict>, j: nat)
    requires j < |verdicts| && verdicts[j].NoAssignmentEvent?
    ensures Completed(verdicts) <= j
  {
  }

  // ----- while an issue on the board is held -----

  lemma {:induction false} BoardRunStep(guild: set<Login>, items: seq<Item>, bs: seq<BoardEvent>, k: nat)
    requires AllFit(bs, |items|) && k < |bs|
    ensures AllFit(bs[..k], |items|) && AllFit(bs[..k + 1], |items|)
    ensures BoardRun(guild, items, bs[..k + 1]) == BoardApply(guild, BoardRun(guild, items, bs[..k]), bs[k])
    decreases k
  {
    BoardRunFirst(guild, items, bs, k + 1);
    if k > 0 {
      BoardRunFirst(guild, items, bs, k);
      BoardRunStep(guild, BoardApply(guild, items, bs[0]), bs[1..], k - 1);
    }
  }

  lemma SparedOnBoard(guild: set<Login>, items: seq<Item>, now: Time, clock: seq<Time>, i: nat)
    requires |clock| == |items| && i < |items| && Spared(guild, items[i])
    ensures AfterRun(guild, items, now, clock)[i] == items[i]
  {
    SparedIsUntouched(guild, items[i], now, clock[i]);
    EitherOf(SweptItems(guild, items, now, clock), items, Completed(Verdicts(guild, items, now)), i);
  }

  lemma EitherOf<T>(after: seq<T>, before: seq<T>, n: nat, i: nat)
    requires n <= |before| == |after| && i < |before|
    ensures (after[..n] + before[n..])[i] == if i < n then after[i] else before[i]
  {
  }

  lemma HoldOnBoard(guild: set<Login>, items: seq<Item>, b: BoardEvent, i: nat)
    requires Fits(b, |items|) && i < |items|
    ensures var next := BoardApply(guild, items, b)[i];
            && next.hold == (if b.On? && b.i == i && b.e.HoldChanged? then b.e.on else items[i].hold)
            && next.closingPrs == (if b.On? && b.i == i && b.e.ClosingPrsChanged? then b.e.any else items[i].closingPrs)
  {
    match b
    case On(j, e) => HoldAfter(guild, items[i], e);
    case StaleRun(now, clock) =>
      EitherOf(SweptItems(guild, items, now, clock), items, Completed(Verdicts(guild, items, now)), i);
      HoldAfter(guild, items[i], Sweep(now, clock[i]));
  }

  // Item `i` was put on hold at `m` and not released before `k`.
  ghost predicate HeldOnBoardSince(bs: seq<BoardEvent>, i: nat, m: nat, k: nat) {
    && m < k <= |bs|
    && bs[m].On? && bs[m].i == i && bs[m].e.HoldChanged? && bs[m].e.on
    && forall l :: m < l < k && bs[l].On? && bs[l].i == i && bs[l].e.HoldChanged? ==> bs[l].e.on
  }

  lemma HoldNext(guild: set<Login>, items: seq<Item>, bs: seq<BoardEvent>, i: nat, k: nat)
    requires AllFit(bs, |items|) && i < |items| && k < |bs|
    ensures AllFit(bs[..k], |items|) && AllFit(bs[..k + 1], |items|)
    ensures BoardRun(guild, items, bs[..k + 1])[i].hold ==
            if bs[k].On? && bs[k].i == i && bs[k].e.HoldChanged? then bs[k].e.on else BoardRun(guild, items, bs[..k])[i].hold
  {
    BoardRunStep(guild, items, bs, k);
    HoldOnBoard(guild, BoardRun(guild, items, bs[..k]), bs[k], i);
  }

  lemma {:induction false} HoldLastsOnBoard(guild: set<Login>, items: seq<Item>, bs: seq<BoardEvent>, i: nat, m: nat, k: nat)
    requires AllFit(bs, |items|) && i < |items| && HeldOnBoardSince(bs, i, m, k)
    ensures AllFit(bs[..k], |items|) && BoardRun(guild, items, bs[..k])[i].hold
    decreases k
  {
    HoldNext(guild, items, bs, i, k - 1);
    if m < k - 1 {
      HoldLastsOnBoard(guild, items, bs, i, m, k - 1);
    }
  }

  /** Whatever else happens on the board, no run touches an issue between its being put on hold and its release. */
  lemma HeldItemIsLeftAlone(guild: set<Login>, items: seq<Item>, bs: seq<BoardEvent>, i: nat, m: nat, k: nat)
    requires AllFit(bs, |items|) && i < |items| && k < |bs| && bs[k].StaleRun? && HeldOnBoardSince(bs, i, m, k)
    ensures AllFit(bs[..k], |items|) && AllFit(bs[..k + 1], |items|)
    ensures BoardRun(guild, items, bs[..k + 1])[i] == BoardRun(guild, items, bs[..k])[i]
  {
    BoardRunStep(guild, items, bs, k);
    HoldLastsOnBoard(guild, items, bs, i, m, k);
    SparedOnBoard(guild, BoardRun(guild, items, bs[..k]), bs[k].now, bs[k].clock, i);
  }

  // ----- what a run counts -----

  // Which items have more comments than before, and which have other assignees.
  ghost function CheckedInAt(before: seq<Item>, after: seq<Item>): set<nat>
    requires |before| == |after|
  {
    set i: nat | i < |before| && after[i].comments != before[i].comments
  }

  ghost function Reassigned(before: seq<Item>, after: seq<Item>): set<nat>
    requires |before| == |after|
  {
    set i: nat | i < |before| && after[i].assignees != before[i].assignees
  }

  lemma VerdictShows(guild: set<Login>, item: Item, now: Time, at: Time)
    ensures var next := Apply(guild, item, Sweep(now, at));
            && (Judge(guild, item, now).Nudge? <==> next.comments != item.comments)
            && (Judge(guild, item, now).Clear? <==> next.assignees != item.assignees)
  {
    if Judge(guild, item, now).Clear? {
      ClearTakesTheGuild(guild, item, now, at);
    }
  }

  ghost function NudgedAmong(verdicts: seq<Verdict>, n: nat): set<nat>
    requires n <= |verdicts|
  {
    set i: nat | i < n && verdicts[i].Nudge?
  }

  ghost function ClearedAmong(verdicts: seq<Verdict>, n: nat): set<nat>
    requires n <= |verdicts|
  {
    set i: nat | i < n && verdicts[i].Clear?
  }

  lemma NudgedStep(verdicts: seq<Verdict>, n: nat)
    requires n < |verdicts|
    ensures |NudgedAmong(verdicts, n + 1)| == |NudgedAmong(verdicts, n)| + (if verdicts[n].Nudge? then 1 else 0)
  {
    OneMoreIn(NudgedAmong(verdicts, n), NudgedAmong(verdicts, n + 1), n, verdicts[n].Nudge?);
  }

  lemma ClearedStep(verdicts: seq<Verdict>, n: nat)
    requires n < |verdicts|
    ensures |ClearedAmong(verdicts, n + 1)| == |ClearedAmong(verdicts, n)| + (if verdicts[n].Clear? then 1 else 0)
  {
    OneMoreIn(ClearedAmong(verdicts, n), ClearedAmong(verdicts, n + 1), n, verdicts[n].Clear?);
  }

  lemma OneMoreIn(before: set<nat>, after: set<nat>, k: nat, added: bool)
    requires k !in before && forall i :: i in after <==> i in before || (i == k && added)
    ensures |after| == |before| + (if added then 1 else 0)
  {
    assert after == before + if added then {k} else {};
  }

  lemma {:induction false} CountsAreSizes(verdicts: seq<Verdict>, n: nat)
    requires n <= |verdicts|
    ensures Nudges(verdicts, n) == |NudgedAmong(verdicts, n)| && Clears(verdicts, n) == |ClearedAmong(verdicts, n)|
  {
    if n > 0 {
      CountsAreSizes(verdicts, n - 1);
      NudgedStep(verdicts, n - 1);
      ClearedStep(verdicts, n - 1);
    }
  }

  // What became of item `i`, if `n` items were got through.
  lemma ItemShows(guild: set<Login>, items: seq<Item>, now: Time, clock: seq<Time>, i: nat)
    requires |clock| == |items| && i < |items|
    ensures var verdicts, after := Verdicts(guild, items, now), AfterRun(guild, items, now, clock);
            && (i in NudgedAmong(verdicts, Completed(verdicts)) <==> after[i].comments != items[i].comments)
            && (i in ClearedAmong(verdicts, Completed(verdicts)) <==> after[i].assignees != items[i].assignees)
  {
    EitherOf(SweptItems(guild, items, now, clock), items, Completed(Verdicts(guild, items, now)), i);
    VerdictShows(guild, items[i], now, clock[i]);
  }

  /** The counts a run reports are the numbers of issues that got a check-in and of issues that lost assignees. */
  lemma CountsAreReal(guild: set<Login>, items: seq<Item>, now: Time, clock: seq<Time>)
    requires |clock| == |items|
    ensures var verdicts, after := Verdicts(guild, items, now), AfterRun(guild, items, now, clock);
            && Nudges(verdicts, Completed(verdicts)) == |CheckedInAt(items, after)|
            && Clears(verdicts, Completed(verdicts)) == |Reassigned(items, after)|
  {
    var verdicts, after := Verdicts(guild, items, now), AfterRun(guild, items, now, clock);
    CountsAreSizes(verdicts, Completed(verdicts));
    forall i: nat | i < |items|
      ensures i in NudgedAmong(verdicts, Completed(verdicts)) <==> i in CheckedInAt(items, after)
      ensures i in ClearedAmong(verdicts, Completed(verdicts)) <==> i in Reassigned(items, after)
    {
      ItemShows(guild, items, now, clock, i);
    }
    assert NudgedAmong(verdicts, Completed(verdicts)) == CheckedInAt(items, after);
    assert ClearedAmong(verdicts, Completed(verdicts)) == Reassigned(items, after);
  }

  lemma RunFacts(guild: set<Login>, items: seq<Item>, now: Time, clock: seq<Time>)
    requires |clock| == |items|
    ensures var verdicts, after := Verdicts(guild, items, now), AfterRun(guild, items, now, clock);
            && |after| == |items|
            && Nudges(verdicts, Completed(verdicts)) == |CheckedInAt(items, after)|
            && Clears(verdicts, Completed(verdicts)) == |Reassigned(items, after)|
            && forall i :: 0 <= i < |items| && Spared(guild, items[i]) ==> after[i] == items[i]
  {
    CountsAreReal(guild, items, now, clock);
    forall i | 0 <= i < |items| && Spared(guild, items[i])
      ensures AfterRun(guild, items, now, clock)[i] == items[i]
    {
      SparedOnBoard(guild, items, now, clock, i);
    }
  }

  // ----- the script's own loops -----

  // The board, as the script sees and changes it through the API.
  class Board {
    const guild: set<Login>
    var items: seq<Item>

    constructor (guild: set<Login>, items: seq<Item>)
      ensures this.guild == guild && this.items == items
    {
      this.guild := guild;
      this.items := items;
    }

    // The one pass over the comments inside the sweep.
    method ScanComments(comments: seq<Comment>, assignee: Login, assignedAt: Time)
      returns (lastActivity: Time, checkInAt: Option<Time>)
      ensures lastActivity == LatestComment(comments, assignee, assignedAt)
      ensures checkInAt == LatestCheckIn(comments)
    {
      lastActivity, checkInAt := assignedAt, None;
      for i := 0 to |comments|
        invariant lastActivity == LatestComment(comments[..i], assignee, assignedAt)
        invariant checkInAt == LatestCheckIn(comments[..i])
      {
        assert comments[..i + 1][..i] == comments[..i];
        var comment := comments[i];
        if comment.checkIn.Some? {
          if checkInAt.None? || comment.at > checkInAt.value {
            checkInAt := Some(comment.at);
          }
        } else if comment.author == assignee {
          if comment.at > lastActivity {
            lastActivity := comment.at;
          }
        }
      }
      assert comments[..|comments|] == comments;
    }

    method SweepItem(i: nat, now: Time, at: Time) returns (v: Verdict)
      requires i < |items|
      modifies this
      ensures v == Judge(guild, old(items[i]), now)
      ensures items == old(items)[i := Apply(guild, old(items[i]), Sweep(now, at))]
      ensures Spared(guild, old(items[i])) ==> v == Skip && items == old(items)
    {
      var item := items[i];
      SparedIff(guild, item);
      var guildAssignees := Within(item.assignees, guild);
      if item.archived || !item.isIssue || item.status != Some(InProgress) || guildAssignees == []
         || item.hold || item.closingPrs {
        return Skip;
      }
      var assignee := guildAssignees[0];
      var assignedAt := LatestAssignment(item.timeline, assignee);
      if assignedAt.None? {
        return NoAssignmentEvent(assignee);
      }
      var lastActivity, checkInAt := ScanComments(item.comments, assignee, assignedAt.value);
      if checkInAt.None? || checkInAt.value < lastActivity {
        if Days(now - lastActivity) < CHECK_IN_AFTER_DAYS {
          return Skip;
        }
        items := items[i := item.(comments := item.comments + [Comment(BOT, Some(assignee), at)])];
        return Nudge(assignee);
      }
      if Days(now - checkInAt.value) < AUTO_CLEAR_AFTER_DAYS {
        return Skip;
      }
      items := items[i := item.(assignees := Without(item.assignees, set x | x in guildAssignees))];
      var status := StatusForType(item.kind);
      if status.Some? {
        items := items[i := items[i].(status := status)];
      }
      return Clear(assignee);
    }

    // `clock[i]` is the instant at which the run reaches item `i`.
    method RunStale(now: Time, clock: seq<Time>) returns (checkedIn: nat, cleared: nat, failed: bool)
      requires |clock| == |items|
      modifies this
      ensures items == AfterRun(guild, old(items), now, clock)
      ensures var verdicts := Verdicts(guild, old(items), now);
              var n := Completed(verdicts);
              checkedIn == Nudges(verdicts, n) && cleared == Clears(verdicts, n) && (failed <==> n < |verdicts|)
      ensures |items| == |old(items)|
      ensures checkedIn == |CheckedInAt(old(items), items)| && cleared == |Reassigned(old(items), items)|
      ensures forall i :: 0 <= i < |items| && Spared(guild, old(items)[i]) ==> items[i] == old(items)[i]
    {
      ghost var before, verdicts, after := items, Verdicts(guild, items, now), SweptItems(guild, items, now, clock);
      var failedAt;
      checkedIn, cleared, failedAt := SweepEach(now, clock, verdicts, after);
      PartlyReplaced(items, after, before, Completed(verdicts));
      RunFacts(guild, before, now, clock);
      failed := failedAt.Some?;
    }

    // One item of the loop, in terms of what a sweep makes of it.
    method SweepNext(i: nat, now: Time, at: Time, ghost verdict: Verdict, ghost after: Item) returns (v: Verdict)
      requires i < |items| && SweepGives(guild, items[i], now, at, verdict, after)
      modifies this
      ensures v == verdict && items == old(items)[i := after]
      ensures v.NoAssignmentEvent? ==> after == old(items)[i]
    {
      v := SweepItem(i, now, at);
    }

    // The loop over the items; `verdicts` and `after` say what a sweep makes of each.
    method SweepEach(now: Time, clock: seq<Time>, ghost verdicts: seq<Verdict>, ghost after: seq<Item>)
      returns (checkedIn: nat, cleared: nat, failedAt: Option<nat>)
      requires |clock| == |items| == |verdicts| == |after|
      requires forall i :: 0 <= i < |items| ==> SweepGives(guild, items[i], now, clock[i], verdicts[i], after[i])
      modifies this
      ensures |items| == |old(items)|
      ensures var done := if failedAt.Some? then failedAt.value else |items|;
              && done <= |items|
              && (failedAt.Some? ==> done < |items| && verdicts[done].NoAssignmentEvent?)
              && (forall i :: 0 <= i < done ==> items[i] == after[i] && !verdicts[i].NoAssignmentEvent?)
              && (forall i :: done <= i < |items| ==> items[i] == old(items)[i])
              && checkedIn == Nudges(verdicts, done) && cleared == Clears(verdicts, done)
    {
      checkedIn, cleared, failedAt := 0, 0, None;
      for i := 0 to |items|
        invariant |items| == |old(items)|
        invariant forall j :: 0 <= j < i ==> items[j] == after[j] && !verdicts[j].NoAssignmentEvent?
        invariant forall j :: i <= j < |items| ==> items[j] == old(items)[j]
        invariant checkedIn == Nudges(verdicts, i) && cleared == Clears(verdicts, i)
      {
        var v := SweepNext(i, now, clock[i], verdicts[i], after[i]);
        match v {
          case NoAssignmentEvent(_) =>
            failedAt := Some(i);
            return;
          case Nudge(_) => checkedIn := checkedIn + 1;
          case Clear(_) => cleared := cleared + 1;
          case Skip =>
        }
      }
    }

    // `i` is where the issue is on the board, if it is; `offBoard` says that it should have been.
    method HandleAssignment(i: Option<nat>, who: Login, issueClosed: bool, at: Time) returns (offBoard: bool)
      requires i.Some? ==> i.value < |items|
      modifies this
      ensures items == match i
                       case None => old(items)
                       case Some(k) => old(items)[k := Apply(guild, old(items)[k], AssignmentWebhook(who, issueClosed, at))]
      ensures offBoard <==> i.None? && !issueClosed && who in guild
    {
      if issueClosed {
        return false;
      }
      if who !in guild {
        return false;
      }
      if i.None? {
        return true;
      }
      items := items[i.value := items[i.value].(status := Some(InProgress))];
      return false;
    }

    method HandleUnassignment(i: Option<nat>, who: Login, byBot: bool, at: Time)
      requires i.Some? ==> i.value < |items|
      modifies this
      ensures items == match i
                       case None => old(items)
                       case Some(k) => old(items)[k := Apply(guild, old(items)[k], UnassignmentWebhook(who, byBot, at))]
    {
      if byBot {
        return;
      }
      if who !in guild {
        return;
      }
      if i.None? || items[i.value].status != Some(InProgress) {
        return;
      }
      var status := StatusForType(items[i.value].kind);
      if status.Some? {
        items := items[i.value := items[i.value].(status := status)];
      }
    }

    // `linked` are the issues the pull request will close: where each is on the board, if it is, and whether it is open.
    method SetLinkedIssuesInProgress(author: Login, linked: seq<(Option<nat>, bool)>, at: Time)
      requires forall k :: 0 <= k < |linked| && linked[k].0.Some? ==> linked[k].0.value < |items|
      modifies this
      ensures |items| == |old(items)|
      ensures forall i: nat :: i < |items| ==>
                items[i] == Apply(guild, old(items)[i], PullRequestWebhook(author, (Some(i), true) in linked, at))
    {
      if author !in guild {
        return;
      }
      for k := 0 to |linked|
        invariant |items| == |old(items)|
        invariant forall i: nat :: i < |items| ==>
                    items[i] == Apply(guild, old(items)[i], PullRequestWebhook(author, (Some(i), true) in linked[..k], at))
      {
        Seqs.TakeOneMore(linked, k);
        var (i, open) := linked[k];
        if open && i.Some? {
          items := items[i.value := items[i.value].(status := Some(InProgress))];
        }
      }
      Seqs.TakeAll(linked);
    }
  }
}
