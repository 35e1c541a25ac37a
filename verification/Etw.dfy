/**
 The ETW recorder (crates/etw_tracing/etw_tracing.rs): a parent and an elevated
 child over a first-in first-out socket, and a kernel recording between them.

 `ChildStep` is the child, one fallible call per step. `Step` interleaves it with
 the user's clicks and the parent's reads; every outcome of every call is open.
 */
module Etw {
  import opened Wrappers
  import Seqs

  datatype Command = Save | Cancel
  datatype Status = Started | Stopped | TimedOut | Cancelled | Error

  datatype ControlCall = StartCall | SaveCall | CancelCall

  // What the child does to the world: a call on the control manager, or a status
  // line written to the parent. A write reported as failed may still arrive.
  datatype Effect =
    | Control(call: ControlCall, ok: bool)
    | Sent(status: Status, delivered: bool)

  datatype Pc =
    | InitCom | Connect | Build | CreateManager | CancelLeftover | StartRecording
    | SendStarted | SetTimeout | AwaitCommand | RunCancel | RunSave(timedOut: bool)
    | Report(status: Status) | Unwind | ReportError | Exited(ok: bool)

  // What reading the command line came to; Missing covers a timeout, a closed
  // socket and a line that does not parse.
  datatype Receipt = Got(command: Command) | Missing

  datatype Choice = Choice(ok: bool, delivered: bool, receipt: Receipt)

  // `receipt` is what the one read of the socket came to, once it has happened.
  datatype Child = Child(pc: Pc, log: seq<Effect>, receipt: Option<Receipt>)

  const NEW_CHILD := Child(InitCom, [], None)

  function Log(c: Child, e: Effect, pc: Pc): Child {
    c.(pc := pc, log := c.log + [e])
  }

  function ChildStep(c: Child, ch: Choice): Child {
    match c.pc
    case InitCom => c.(pc := if ch.ok then Connect else Exited(false))
    case Connect => c.(pc := if ch.ok then Build else Exited(false))
    case Build => c.(pc := if ch.ok then CreateManager else ReportError)
    case CreateManager => c.(pc := if ch.ok then CancelLeftover else ReportError)
    case CancelLeftover => Log(c, Control(CancelCall, ch.ok), StartRecording)
    case StartRecording => Log(c, Control(StartCall, ch.ok), if ch.ok then SendStarted else ReportError)
    case SendStarted => Log(c, Sent(Started, ch.ok || ch.delivered), if ch.ok then SetTimeout else Unwind)
    case SetTimeout => c.(pc := if ch.ok then AwaitCommand else Unwind)
    case AwaitCommand =>
      c.(receipt := Some(ch.receipt),
         pc := match ch.receipt
               case Got(Cancel) => RunCancel
               case Got(Save) => RunSave(false)
               case Missing => RunSave(true))
    case RunCancel => Log(c, Control(CancelCall, ch.ok), if ch.ok then Report(Cancelled) else Unwind)
    case RunSave(timedOut) =>
      Log(c, Control(SaveCall, ch.ok),
          if !ch.ok then Unwind else if timedOut then Report(TimedOut) else Report(Stopped))
    case Report(status) => Log(c, Sent(status, ch.ok || ch.delivered), Exited(true))
    case Unwind => Log(c, Control(CancelCall, ch.ok), ReportError)
    case ReportError => Log(c, Sent(Error, ch.ok || ch.delivered), Exited(false))
    case Exited(_) => c
  }

  // ----- what a log says -----

  predicate StartedOk(log: seq<Effect>) {
    Control(StartCall, true) in log
  }

  function LastControl(log: seq<Effect>): Option<Effect> {
    if log == [] then None
    else if log[|log| - 1].Control? then Some(log[|log| - 1])
    else LastControl(log[..|log| - 1])
  }

  // No kernel buffers are left for want of a call: a successful Start is answered
  // by a successful Save, or by Cancel, as the last control call.
  ghost predicate Settled(log: seq<Effect>) {
    StartedOk(log) ==> Settles(LastControl(log))
  }

  predicate Settles(last: Option<Effect>) {
    last == Some(Control(SaveCall, true)) || last == Some(Control(CancelCall, true)) || last == Some(Control(CancelCall, false))
  }

  function Delivered(log: seq<Effect>): seq<Status> {
    if log == [] then []
    else
      var last := log[|log| - 1];
      Delivered(log[..|log| - 1]) + (if last.Sent? && last.delivered then [last.status] else [])
  }

  // Whether the kernel is recording, going by the calls made on it.
  function Recording(log: seq<Effect>): bool {
    if log == [] then false
    else
      var last := log[|log| - 1];
      if last == Control(StartCall, true) then true
      else if last == Control(SaveCall, true) || last == Control(CancelCall, true) then false
      else Recording(log[..|log| - 1])
  }

  // The call a successful outcome reports, and the reading of the socket it answers.
  ghost predicate Truthful(status: Status, before: seq<Effect>, receipt: Option<Receipt>) {
    match status
    case Cancelled => LastControl(before) == Some(Control(CancelCall, true)) && receipt == Some(Got(Cancel))
    case Stopped => LastControl(before) == Some(Control(SaveCall, true)) && receipt == Some(Got(Save))
    case TimedOut => LastControl(before) == Some(Control(SaveCall, true)) && receipt == Some(Missing)
    case Started => true
    case Error => LastControl(before) != Some(Control(SaveCall, true))
  }

  // The statuses a child may send: Started and then at most one terminal status, or Error alone.
  predicate Narrative(ss: seq<Status>) {
    ss == [] || ss == [Started] || ss == [Error] || (|ss| == 2 && ss[0] == Started && ss[1] != Started)
  }

  // ----- the child alone -----

  predicate BeforeStart(pc: Pc) {
    pc.InitCom? || pc.Connect? || pc.Build? || pc.CreateManager? || pc.CancelLeftover? || pc.StartRecording?
  }

  // The cancel guard is armed.
  predicate Guarded(pc: Pc) {
    pc.SendStarted? || pc.SetTimeout? || pc.AwaitCommand? || pc.RunCancel? || pc.RunSave? || pc.Unwind?
  }

  // Started has gone out and nothing has failed since.
  predicate Announced(pc: Pc) {
    pc.SetTimeout? || pc.AwaitCommand? || pc.RunCancel? || pc.RunSave? || pc.Report?
  }

  predicate Told(pc: Pc, ss: seq<Status>) {
    && Narrative(ss)
    && (!pc.Exited? ==> ss == [] || ss == [Started])
    && (BeforeStart(pc) || pc == SendStarted ==> ss == [])
    && (Announced(pc) ==> ss == [Started])
  }

  ghost predicate StatusesInOrder(c: Child) {
    Told(c.pc, Delivered(c.log))
  }

  // Only an exited child has sent a terminal status; it came last, told the
  // truth, and the recording was settled before it.
  ghost predicate TerminalLast(c: Child) {
    forall i :: 0 <= i < |c.log| && c.log[i].Sent? && c.log[i].status != Started ==>
      c.pc.Exited? && i == |c.log| - 1 && Settled(c.log[..i]) && Truthful(c.log[i].status, c.log[..i], c.receipt)
  }

  ghost predicate ReceiptFits(c: Child) {
    match c.pc
    case RunCancel => c.receipt == Some(Got(Cancel))
    case RunSave(timedOut) => c.receipt == Some(if timedOut then Missing else Got(Save))
    case Report(status) => status != Started && status != Error && Truthful(status, c.log, c.receipt)
    case _ => BeforeStart(c.pc) || c.pc.SendStarted? || c.pc.SetTimeout? || c.pc.AwaitCommand? ==> c.receipt == None
  }

  // The kernel records exactly while the guard is armed, or after a Cancel that failed.
  predicate Kernel(pc: Pc, started: bool, recording: bool, last: Option<Effect>) {
    && (BeforeStart(pc) ==> !started)
    && (BeforeStart(pc) || pc.ReportError? ==> last != Some(Control(SaveCall, true)))
    && (Guarded(pc) ==> started && recording)
    && (!BeforeStart(pc) && !Guarded(pc) && started ==> Settles(last))
    && (!Guarded(pc) ==> (recording <==> started && last == Some(Control(CancelCall, false))))
  }

  ghost predicate KernelFits(c: Child) {
    Kernel(c.pc, StartedOk(c.log), Recording(c.log), LastControl(c.log))
  }

  ghost predicate ChildInv(c: Child) {
    StatusesInOrder(c) && TerminalLast(c) && ReceiptFits(c) && KernelFits(c)
  }

  lemma Appended(log: seq<Effect>, e: Effect)
    ensures (log + [e])[..|log|] == log
    ensures StartedOk(log + [e]) <==> StartedOk(log) || e == Control(StartCall, true)
    ensures LastControl(log + [e]) == if e.Control? then Some(e) else LastControl(log)
    ensures Delivered(log + [e]) == Delivered(log) + (if e.Sent? && e.delivered then [e.status] else [])
    ensures Recording(log + [e]) ==
            if e == Control(StartCall, true) then true
            else if e == Control(SaveCall, true) || e == Control(CancelCall, true) then false
            else Recording(log)
  {
    var next := log + [e];
    assert next[..|next| - 1] == log && next[|next| - 1] == e;
  }

  // What a step does to the outside.
  function EffectOf(pc: Pc, ch: Choice): Option<Effect> {
    match pc
    case CancelLeftover => Some(Control(CancelCall, ch.ok))
    case StartRecording => Some(Control(StartCall, ch.ok))
    case SendStarted => Some(Sent(Started, ch.ok || ch.delivered))
    case RunCancel => Some(Control(CancelCall, ch.ok))
    case RunSave(_) => Some(Control(SaveCall, ch.ok))
    case Report(status) => Some(Sent(status, ch.ok || ch.delivered))
    case Unwind => Some(Control(CancelCall, ch.ok))
    case ReportError => Some(Sent(Error, ch.ok || ch.delivered))
    case _ => None
  }

  lemma OneEffect(c: Child, ch: Choice)
    ensures ChildStep(c, ch).log ==
            match EffectOf(c.pc, ch)
            case None => c.log
            case Some(e) => c.log + [e]
  {
  }

  // What a step delivers, on top of what was delivered before.
  lemma DeliveredByStep(c: Child, ch: Choice)
    ensures Delivered(ChildStep(c, ch).log) == Delivered(c.log) + SentBy(c.pc, ch)
  {
    OneEffect(c, ch);
    match EffectOf(c.pc, ch)
    case None => Seqs.NoMore(Delivered(c.log));
    case Some(e) => Appended(c.log, e);
  }

  function SentBy(pc: Pc, ch: Choice): seq<Status> {
    match EffectOf(pc, ch)
    case Some(Sent(status, true)) => [status]
    case _ => []
  }

  // What a step may add to the statuses sent so far.
  lemma ToldOnward(c: Child, ch: Choice, ss: seq<Status>)
    requires Told(c.pc, ss) && (c.pc.Report? ==> c.pc.status != Started)
    ensures Told(ChildStep(c, ch).pc, ss + SentBy(c.pc, ch))
  {
    var sent := SentBy(c.pc, ch);
    Seqs.NoMore(ss);
    Seqs.NoMore(sent);
    if sent != [] && ss != [] {
      assert ss + sent == [Started, sent[0]];
    }
  }

  lemma StatusesKept(c: Child, ch: Choice)
    requires StatusesInOrder(c) && (c.pc.Report? ==> c.pc.status != Started)
    ensures StatusesInOrder(ChildStep(c, ch))
  {
    DeliveredByStep(c, ch);
    ToldOnward(c, ch, Delivered(c.log));
  }

  // What a call does to the kernel, and what that makes of the recording.
  lemma KernelOnward(c: Child, ch: Choice, e: Effect, started: bool, recording: bool, last: Option<Effect>)
    requires Kernel(c.pc, started, recording, last) && EffectOf(c.pc, ch) == Some(e)
    ensures Kernel(ChildStep(c, ch).pc,
                   started || e == Control(StartCall, true),
                   if e == Control(StartCall, true) then true
                   else if e == Control(SaveCall, true) || e == Control(CancelCall, true) then false
                   else recording,
                   if e.Control? then Some(e) else last)
  {
  }

  lemma KernelIdle(c: Child, ch: Choice, started: bool, recording: bool, last: Option<Effect>)
    requires Kernel(c.pc, started, recording, last) && EffectOf(c.pc, ch) == None
    ensures Kernel(ChildStep(c, ch).pc, started, recording, last)
  {
  }

  lemma KernelKept(c: Child, ch: Choice)
    requires KernelFits(c)
    ensures KernelFits(ChildStep(c, ch))
  {
    OneEffect(c, ch);
    match EffectOf(c.pc, ch)
    case None => KernelIdle(c, ch, StartedOk(c.log), Recording(c.log), LastControl(c.log));
    case Some(e) =>
      Appended(c.log, e);
      KernelOnward(c, ch, e, StartedOk(c.log), Recording(c.log), LastControl(c.log));
  }

  lemma ReceiptKept(c: Child, ch: Choice)
    requires ReceiptFits(c)
    ensures ReceiptFits(ChildStep(c, ch))
  {
    OneEffect(c, ch);
    match EffectOf(c.pc, ch)
    case None =>
    case Some(e) => Appended(c.log, e);
  }

  lemma TerminalKept(c: Child, ch: Choice)
    requires TerminalLast(c) && ReceiptFits(c) && KernelFits(c)
    ensures TerminalLast(ChildStep(c, ch))
  {
    var next := ChildStep(c, ch);
    OneEffect(c, ch);
    forall i | 0 <= i < |next.log| && next.log[i].Sent? && next.log[i].status != Started
      ensures next.pc.Exited? && i == |next.log| - 1
      ensures Settled(next.log[..i]) && Truthful(next.log[i].status, next.log[..i], next.receipt)
    {
      if i < |c.log| {
        assert c.log[i] == next.log[i];
        assert c == next;
      } else {
        assert next.log[..i] == c.log;
      }
    }
  }

  lemma ChildStepKeepsInv(c: Child, ch: Choice)
    requires ChildInv(c)
    ensures ChildInv(ChildStep(c, ch))
  {
    StatusesKept(c, ch);
    KernelKept(c, ch);
    ReceiptKept(c, ch);
    TerminalKept(c, ch);
  }

  // ----- the two processes -----

  datatype Parent = Launching | Active | Finished(last: Option<Status>) | LaunchFailed

  // `asked` is every command the user ever got onto the socket; `toChild` and
  // `toParent` hold what is still in flight; `lost` is what the parent's buffered
  // reader of the first status had already read, and threw away, when it was dropped.
  datatype System = System(
    child: Child,
    parent: Parent,
    toChild: seq<Command>,
    toParent: seq<Status>,
    asked: seq<Command>,
    seen: seq<Status>,
    lost: seq<Status>)

  const NEW_SYSTEM := System(NEW_CHILD, Launching, [], [], [], [], [])

  datatype Action =
    | ChildMoves(ch: Choice)
    | UserAsks(command: Command, sent: bool)
    | ParentReads(dropped: nat)
    | ParentReadFails

  // The session slot holds a session.
  predicate SlotFull(s: System) {
    s.parent.Active?
  }

  // The child's connection has reached the parent, which waits for it without limit.
  predicate Connected(c: Child) {
    !c.pc.InitCom? && !c.pc.Connect? && !(c.pc.Exited? && c.log == [])
  }

  predicate Enabled(s: System, a: Action) {
    match a
    case ChildMoves(ch) =>
      && !s.child.pc.Exited?
      && (s.child.pc == AwaitCommand && ch.receipt.Got? ==> s.toChild != [] && ch.receipt.command == s.toChild[0])
    case UserAsks(_, _) => SlotFull(s)
    case ParentReads(dropped) =>
      && s.toParent != []
      && (s.parent.Launching? || s.parent.Active?)
      && (if s.parent.Launching? then dropped < |s.toParent| else dropped == 0)
    case ParentReadFails => (s.parent.Launching? && Connected(s.child)) || s.parent.Active?
  }

  function Next(s: System, a: Action): System
    requires Enabled(s, a)
  {
    match a
    case ChildMoves(ch) =>
      var child := ChildStep(s.child, ch);
      s.(child := child,
         toChild := if s.child.pc == AwaitCommand && s.toChild != [] then s.toChild[1..] else s.toChild,
         toParent := s.toParent + Delivered(child.log[|s.child.log|..]))
    case UserAsks(command, sent) =>
      if sent then s.(toChild := s.toChild + [command], asked := s.asked + [command]) else s
    case ParentReads(dropped) =>
      var status := s.toParent[0];
      var s1 := s.(seen := s.seen + [status]);
      if s.parent.Launching? then
        if status == Started then
          s1.(parent := Active, lost := s.toParent[1..1 + dropped], toParent := s.toParent[1 + dropped..])
        else s1.(parent := LaunchFailed, toParent := s.toParent[1..])
      else s1.(parent := Finished(Some(status)), toParent := s.toParent[1..])
    case ParentReadFails =>
      s.(parent := if s.parent.Launching? then LaunchFailed else Finished(None))
  }

  ghost predicate Possible(s: System, actions: seq<Action>)
    decreases |actions|
  {
    actions != [] ==> Enabled(s, actions[0]) && Possible(Next(s, actions[0]), actions[1..])
  }

  function Run(s: System, actions: seq<Action>): System
    requires Possible(s, actions)
    decreases |actions|
  {
    if actions == [] then s else Run(Next(s, actions[0]), actions[1..])
  }

  // Everything delivered is seen, thrown away or still in flight, in that order.
  ghost predicate FirstInFirstOut(s: System) {
    var sent := Delivered(s.child.log);
    match s.parent
    case Launching => s.seen == [] && s.lost == [] && sent == s.toParent
    case Active => s.seen == [Started] && sent == [Started] + s.lost + s.toParent
    case Finished(None) => s.seen == [Started] && sent == [Started] + s.lost + s.toParent
    case Finished(Some(x)) => s.seen == [Started, x] && sent == [Started] + s.lost + [x] + s.toParent
    case LaunchFailed => s.lost == [] && (s.seen == [] || s.seen == [Error]) && sent == s.seen + s.toParent
  }

  ghost predicate CommandsInOrder(s: System) {
    && (s.parent.Launching? || s.parent.LaunchFailed? ==> s.asked == [])
    && (s.child.receipt == None ==> s.toChild == s.asked)
    && (s.child.receipt.Some? && s.child.receipt.value.Got? ==>
          s.asked != [] && s.asked[0] == s.child.receipt.value.command)
  }

  ghost predicate LossIsBlameless(s: System) {
    forall x :: x in s.lost ==> x in {TimedOut, Error}
  }

  ghost predicate SystemInv(s: System) {
    ChildInv(s.child) && FirstInFirstOut(s) && CommandsInOrder(s) && LossIsBlameless(s)
  }

  lemma DeliveredSplits(a: seq<Effect>, b: seq<Effect>)
    ensures Delivered(a + b) == Delivered(a) + Delivered(b)
  {
    if b == [] {
      assert a + b == a;
    } else {
      assert (a + b)[..|a + b| - 1] == a + b[..|b| - 1];
    }
  }

  // A delivered terminal status is the child's last effect.
  lemma {:induction false} DeliveredWasSent(log: seq<Effect>, x: Status)
    requires x in Delivered(log)
    ensures exists i :: 0 <= i < |log| && log[i] == Sent(x, true)
  {
    var last := log[|log| - 1];
    if last != Sent(x, true) {
      DeliveredWasSent(log[..|log| - 1], x);
    }
  }

  lemma FifoKeptByChild(s: System, ch: Choice)
    requires FirstInFirstOut(s) && Enabled(s, ChildMoves(ch))
    ensures FirstInFirstOut(Next(s, ChildMoves(ch)))
  {
    var log := s.child.log;
    var next := ChildStep(s.child, ch);
    OneEffect(s.child, ch);
    assert next.log == log + next.log[|log|..];
    DeliveredSplits(log, next.log[|log|..]);
    var more := Delivered(next.log[|log|..]);
    assert forall a: seq<Status>, b: seq<Status> :: a + b + more == a + (b + more);
  }

  // The first status is read, and some of what follows it goes with the dropped reader.
  lemma FirstRead(sent: seq<Status>, dropped: nat)
    requires dropped < |sent|
    ensures sent == [sent[0]] + sent[1..1 + dropped] + sent[1 + dropped..]
  {
  }

  // The one status of a story that does not begin with Started.
  lemma FailureStandsAlone(sent: seq<Status>)
    requires Narrative(sent) && sent != [] && sent[0] != Started
    ensures sent[0] == Error && sent == [sent[0]] + sent[1..]
  {
  }

  lemma NextRead(before: seq<Status>, flying: seq<Status>)
    requires flying != []
    ensures before + flying == before + [flying[0]] + flying[1..]
  {
  }

  lemma FifoKeptByRead(s: System, dropped: nat)
    requires StatusesInOrder(s.child) && FirstInFirstOut(s) && Enabled(s, ParentReads(dropped))
    ensures FirstInFirstOut(Next(s, ParentReads(dropped)))
  {
    if s.parent.Active? {
      NextRead([Started] + s.lost, s.toParent);
    } else if s.toParent[0] == Started {
      FirstRead(s.toParent, dropped);
    } else {
      FailureStandsAlone(s.toParent);
    }
  }

  lemma CommandsKept(s: System, a: Action)
    requires ReceiptFits(s.child) && CommandsInOrder(s) && Enabled(s, a)
    ensures CommandsInOrder(Next(s, a))
  {
  }

  // What follows the first status of a story is a terminal one.
  lemma LaterIsTerminal(ss: seq<Status>, dropped: nat, x: Status)
    requires Narrative(ss) && 1 + dropped <= |ss| && x in ss[1..1 + dropped]
    ensures x in ss && x != Started
  {
    assert ss[1] == x;
  }

  // Before the parent knows of the session the user cannot have asked for anything.
  lemma UnaskedIsBlameless(s: System, x: Status)
    requires TerminalLast(s.child) && CommandsInOrder(s) && s.parent.Launching?
    requires x in Delivered(s.child.log) && x != Started
    ensures x in {TimedOut, Error}
  {
    TerminalWasLast(s.child, x);
  }

  lemma LossKept(s: System, a: Action)
    requires SystemInv(s) && Enabled(s, a)
    ensures LossIsBlameless(Next(s, a))
  {
    if a.ParentReads? && s.parent.Launching? && s.toParent[0] == Started {
      forall x | x in Next(s, a).lost
        ensures x in {TimedOut, Error}
      {
        LaterIsTerminal(s.toParent, a.dropped, x);
        UnaskedIsBlameless(s, x);
      }
    }
  }

  lemma StepKeepsInv(s: System, a: Action)
    requires SystemInv(s) && Enabled(s, a)
    ensures SystemInv(Next(s, a))
  {
    if a.ChildMoves? {
      ChildStepKeepsInv(s.child, a.ch);
    }
    match a {
      case ChildMoves(ch) => FifoKeptByChild(s, ch);
      case UserAsks(_, _) =>
      case ParentReads(dropped) => FifoKeptByRead(s, dropped);
      case ParentReadFails =>
    }
    CommandsKept(s, a);
    LossKept(s, a);
  }

  lemma {:induction false} RunKeepsInv(s: System, actions: seq<Action>)
    requires SystemInv(s) && Possible(s, actions)
    ensures SystemInv(Run(s, actions))
    decreases |actions|
  {
    if actions != [] {
      StepKeepsInv(s, actions[0]);
      RunKeepsInv(Next(s, actions[0]), actions[1..]);
    }
  }

  // ----- what holds in every run -----

  /** Once Start has succeeded the child leaves only through a successful Save or a
      final Cancel, and the kernel is left recording just when that Cancel failed. */
  lemma NothingLeaks(actions: seq<Action>)
    requires Possible(NEW_SYSTEM, actions) && Run(NEW_SYSTEM, actions).child.pc.Exited?
    ensures var log := Run(NEW_SYSTEM, actions).child.log;
            && Settled(log)
            && (Recording(log) <==> StartedOk(log) && LastControl(log) == Some(Control(CancelCall, false)))
  {
    RunKeepsInv(NEW_SYSTEM, actions);
  }

  lemma TerminalWasLast(c: Child, x: Status)
    requires TerminalLast(c) && x in Delivered(c.log) && x != Started
    ensures c.pc.Exited? && c.log != [] && c.log[|c.log| - 1] == Sent(x, true)
    ensures Settled(c.log[..|c.log| - 1]) && Truthful(x, c.log[..|c.log| - 1], c.receipt)
  {
    DeliveredWasSent(c.log, x);
    var i :| 0 <= i < |c.log| && c.log[i] == Sent(x, true);
  }

  lemma AnywhereIsDelivered(s: System, x: Status)
    requires FirstInFirstOut(s) && (x in s.toParent || x in s.seen || x in s.lost)
    ensures x in Delivered(s.child.log)
  {
  }

  /** A terminal status that got out of the child, wherever it is now, left after
      the recording was settled and after every control call. */
  lemma StatusComesAfterSettling(actions: seq<Action>, x: Status)
    requires Possible(NEW_SYSTEM, actions) && x != Started
    requires var s := Run(NEW_SYSTEM, actions); x in s.toParent || x in s.seen || x in s.lost
    ensures var c := Run(NEW_SYSTEM, actions).child;
            && c.pc.Exited? && c.log != [] && c.log[|c.log| - 1] == Sent(x, true)
            && Settled(c.log[..|c.log| - 1]) && Truthful(x, c.log[..|c.log| - 1], c.receipt)
  {
    RunKeepsInv(NEW_SYSTEM, actions);
    var s := Run(NEW_SYSTEM, actions);
    AnywhereIsDelivered(s, x);
    TerminalWasLast(s.child, x);
  }

  /** The parent sees nothing, Started and then at most one terminal status, or one Error alone. */
  lemma ParentSeesOneStory(actions: seq<Action>)
    requires Possible(NEW_SYSTEM, actions)
    ensures Narrative(Run(NEW_SYSTEM, actions).seen)
  {
    RunKeepsInv(NEW_SYSTEM, actions);
    var s := Run(NEW_SYSTEM, actions);
    if s.parent.Finished? && s.parent.last.Some? {
      var sent := Delivered(s.child.log);
      assert sent[|s.lost| + 1] == s.parent.last.value;
    }
  }

  /** A trace that was saved is reported as saved, if any status gets out: as timed out just when
      the command was missing or unreadable. */
  lemma SavedIsReported(actions: seq<Action>, x: Status)
    requires Possible(NEW_SYSTEM, actions) && x != Started
    requires var s := Run(NEW_SYSTEM, actions); x in s.toParent || x in s.seen || x in s.lost
    requires LastControl(Run(NEW_SYSTEM, actions).child.log) == Some(Control(SaveCall, true))
    ensures x == if Run(NEW_SYSTEM, actions).child.receipt == Some(Missing) then TimedOut else Stopped
  {
    StatusComesAfterSettling(actions, x);
    var log := Run(NEW_SYSTEM, actions).child.log;
    Appended(log[..|log| - 1], Sent(x, true));
    Seqs.FrontLast(log);
  }

  /** The child obeys no command but the first the user sent. */
  lemma FirstCommandRules(actions: seq<Action>, c: Command)
    requires Possible(NEW_SYSTEM, actions)
    requires Run(NEW_SYSTEM, actions).child.receipt == Some(Got(c))
    ensures var asked := Run(NEW_SYSTEM, actions).asked; asked != [] && asked[0] == c
  {
    RunKeepsInv(NEW_SYSTEM, actions);
  }

  lemma LastWord(actions: seq<Action>, x: Status)
    requires Possible(NEW_SYSTEM, actions) && Run(NEW_SYSTEM, actions).parent == Finished(Some(x))
    ensures x in Run(NEW_SYSTEM, actions).seen && x != Started
  {
    RunKeepsInv(NEW_SYSTEM, actions);
    ParentSeesOneStory(actions);
    assert Run(NEW_SYSTEM, actions).seen == [Started, x];
  }

  /** What the user is finally told is what happened: the outcome names the last control
      call, which succeeded, and a saved or cancelled trace is one whose first request it was. */
  lemma UserIsToldTheTruth(actions: seq<Action>, x: Status)
    requires Possible(NEW_SYSTEM, actions)
    requires Run(NEW_SYSTEM, actions).parent == Finished(Some(x)) && x != Error
    ensures var s := Run(NEW_SYSTEM, actions);
            match x
            case Stopped => LastControl(s.child.log) == Some(Control(SaveCall, true)) && s.asked != [] && s.asked[0] == Save
            case Cancelled => LastControl(s.child.log) == Some(Control(CancelCall, true)) && s.asked != [] && s.asked[0] == Cancel
            case TimedOut => LastControl(s.child.log) == Some(Control(SaveCall, true)) && s.child.receipt == Some(Missing)
            case _ => false
  {
    LastWord(actions, x);
    StatusComesAfterSettling(actions, x);
    var log := Run(NEW_SYSTEM, actions).child.log;
    Seqs.FrontLast(log);
    Appended(log[..|log| - 1], Sent(x, true));
    if x == Stopped {
      FirstCommandRules(actions, Save);
    } else if x == Cancelled {
      FirstCommandRules(actions, Cancel);
    }
  }

  /** The buffered reader the parent drops after Started can swallow a terminal
      status, but never one that answers a request of the user. */
  lemma OnlyUnaskedStatusesAreLost(actions: seq<Action>, x: Status)
    requires Possible(NEW_SYSTEM, actions) && x in Run(NEW_SYSTEM, actions).lost
    ensures x == TimedOut || x == Error
  {
    RunKeepsInv(NEW_SYSTEM, actions);
  }

  // ----- what each reading of the socket leads to -----

  // The call that answers a reading: Save stands in for a command that is missing.
  function CallFor(r: Receipt): ControlCall {
    if r == Got(Cancel) then CancelCall else SaveCall
  }

  // The report of that call's success.
  function StatusFor(r: Receipt): Status {
    if r == Got(Cancel) then Cancelled else if r == Got(Save) then Stopped else TimedOut
  }

  predicate IsCall(e: Effect, call: ControlCall) {
    e.Control? && e.call == call
  }

  predicate IsReport(e: Effect, status: Status) {
    e.Sent? && e.status == status
  }

  // The leftover session is cancelled, the recording is started, Started is sent.
  predicate Begun(log: seq<Effect>) {
    && |log| >= 3
    && IsCall(log[0], CancelCall)
    && log[1] == Control(StartCall, true)
    && IsReport(log[2], Started)
  }

  // How far a child at `pc` has got.
  predicate Shape(pc: Pc, log: seq<Effect>, receipt: Option<Receipt>) {
    match pc
    case StartRecording => |log| == 1 && IsCall(log[0], CancelCall) && receipt == None
    case SendStarted => |log| == 2 && IsCall(log[0], CancelCall) && log[1] == Control(StartCall, true) && receipt == None
    case SetTimeout => |log| == 3 && Begun(log) && receipt == None
    case AwaitCommand => |log| == 3 && Begun(log) && receipt == None
    case RunCancel => |log| == 3 && Begun(log) && receipt == Some(Got(Cancel))
    case RunSave(timedOut) => |log| == 3 && Begun(log) && receipt == Some(if timedOut then Missing else Got(Save))
    case Report(status) =>
      && |log| == 4 && Begun(log) && receipt.Some?
      && log[3] == Control(CallFor(receipt.value), true)
      && status == StatusFor(receipt.value)
    case Unwind => Undone(log, receipt)
    case ReportError => NotStarted(log, receipt) || (|log| > 3 && IsCall(log[|log| - 1], CancelCall) && Undone(log[..|log| - 1], receipt))
    case Exited(ok) => Ended(ok, log, receipt)
    case _ => log == [] && receipt == None
  }

  // What the child adds between its cancel guard's arming and its end.
  predicate WhileArmed(more: seq<Effect>, receipt: Option<Receipt>, aborted: bool) {
    && more != [] && IsReport(more[0], Started)
    && match receipt
       case None => !aborted && |more| == 1
       case Some(r) =>
         && |more| == (if aborted then 3 else 2)
         && more[1] == Control(CallFor(r), aborted)
         && (aborted ==> IsReport(more[2], StatusFor(r)))
  }

  // The recording runs on: no command was read, or the call that answers it has failed.
  predicate Undone(log: seq<Effect>, receipt: Option<Receipt>) {
    && Begun(log)
    && match receipt
       case None => |log| == 3
       case Some(r) => |log| == 4 && log[3] == Control(CallFor(r), false)
  }

  // Something failed before the recording began.
  predicate NotStarted(log: seq<Effect>, receipt: Option<Receipt>) {
    receipt == None && (log == [] || (|log| == 2 && IsCall(log[0], CancelCall) && log[1] == Control(StartCall, false)))
  }

  /** How a child can have ended: the call that answers what it read succeeded and was reported as such;
      or something failed, a recording that ran was cancelled, and an error was reported; or it never connected. */
  predicate Ended(ok: bool, log: seq<Effect>, receipt: Option<Receipt>) {
    if ok then
      && receipt.Some? && |log| == 5 && Begun(log)
      && log[3] == Control(CallFor(receipt.value), true)
      && IsReport(log[4], StatusFor(receipt.value))
    else if log == [] then receipt == None
    else
      var before := log[..|log| - 1];
      && IsReport(log[|log| - 1], Error)
      && (NotStarted(before, receipt) ||
          (|log| > 4 && IsCall(log[|log| - 2], CancelCall) && Undone(log[..|log| - 2], receipt)))
  }

  lemma EffectKeepsShape(c: Child, ch: Choice, e: Effect)
    requires Shape(c.pc, c.log, c.receipt) && EffectOf(c.pc, ch) == Some(e)
    ensures Shape(ChildStep(c, ch).pc, c.log + [e], c.receipt)
  {
    Seqs.TakeOfConcat(c.log, [e]);
    var log := c.log + [e];
    assert log[..|log| - 1] == c.log;
    if c.log != [] {
      assert log[..|log| - 2] == c.log[..|c.log| - 1];
    }
  }

  lemma StepKeepsShape(c: Child, ch: Choice)
    requires Shape(c.pc, c.log, c.receipt)
    ensures var next := ChildStep(c, ch); Shape(next.pc, next.log, next.receipt)
  {
    OneEffect(c, ch);
    match EffectOf(c.pc, ch)
    case None =>
    case Some(e) => EffectKeepsShape(c, ch, e);
  }

  lemma {:induction false} RunKeepsShape(s: System, actions: seq<Action>)
    requires Possible(s, actions) && Shape(s.child.pc, s.child.log, s.child.receipt)
    ensures var c := Run(s, actions).child; Shape(c.pc, c.log, c.receipt)
    decreases |actions|
  {
    if actions != [] {
      if actions[0].ChildMoves? {
        StepKeepsShape(s.child, actions[0].ch);
      }
      RunKeepsShape(Next(s, actions[0]), actions[1..]);
    }
  }

  /** In every run an exited child has ended in one of these ways. */
  lemma EveryChildEndsSo(actions: seq<Action>)
    requires Possible(NEW_SYSTEM, actions) && Run(NEW_SYSTEM, actions).child.pc.Exited?
    ensures var c := Run(NEW_SYSTEM, actions).child; Ended(c.pc.ok, c.log, c.receipt)
  {
    RunKeepsShape(NEW_SYSTEM, actions);
  }

  /** A child that read a command, or found none, has made the call that answers it, and no other up to then;
      if that succeeded it was the last, and its report was the last word. */
  lemma CommandIsObeyed(actions: seq<Action>, r: Receipt)
    requires Possible(NEW_SYSTEM, actions)
    requires var c := Run(NEW_SYSTEM, actions).child; c.pc.Exited? && c.receipt == Some(r)
    ensures var c := Run(NEW_SYSTEM, actions).child;
            && |c.log| >= 5 && IsReport(c.log[2], Started)
            && c.log[3].Control? && c.log[3].call == (match r case Got(Save) => SaveCall case Missing => SaveCall case Got(Cancel) => CancelCall)
            && (r == Got(Cancel) ==> forall e :: e in c.log ==> !IsCall(e, SaveCall))
            && (c.log[3].ok ==>
                  c.pc == Exited(true) && |c.log| == 5 &&
                  IsReport(c.log[4], match r case Got(Save) => Stopped case Missing => TimedOut case Got(Cancel) => Cancelled))
            && (!c.log[3].ok ==> c.pc == Exited(false) && |c.log| == 6 && IsCall(c.log[4], CancelCall) && IsReport(c.log[5], Error))
  {
    EveryChildEndsSo(actions);
    var c := Run(NEW_SYSTEM, actions).child;
    forall e | e in c.log && r == Got(Cancel)
      ensures !IsCall(e, SaveCall)
    {
      var i :| 0 <= i < |c.log| && c.log[i] == e;
      if !c.pc.ok && i < |c.log| - 2 {
        assert c.log[..|c.log| - 2][i] == e;
      }
    }
  }

  // None of the child's calls fails.
  ghost predicate AllWork(actions: seq<Action>) {
    forall k :: 0 <= k < |actions| && actions[k].ChildMoves? ==> actions[k].ch.ok
  }

  predicate OnCourse(pc: Pc) {
    !pc.Unwind? && !pc.ReportError? && pc != Exited(false)
  }

  // Every call succeeded, and every status got out.
  ghost predicate Smooth(log: seq<Effect>) {
    forall e :: e in log ==> if e.Control? then e.ok else e.delivered
  }

  lemma SmoothStep(c: Child, ch: Choice)
    requires OnCourse(c.pc) && Smooth(c.log) && ch.ok
    ensures OnCourse(ChildStep(c, ch).pc) && Smooth(ChildStep(c, ch).log)
  {
    OneEffect(c, ch);
  }

  lemma {:induction false} StaysOnCourse(s: System, actions: seq<Action>)
    requires Possible(s, actions) && AllWork(actions) && OnCourse(s.child.pc) && Smooth(s.child.log)
    ensures OnCourse(Run(s, actions).child.pc) && Smooth(Run(s, actions).child.log)
    decreases |actions|
  {
    if actions != [] {
      if actions[0].ChildMoves? {
        SmoothStep(s.child, actions[0].ch);
      }
      StaysOnCourse(Next(s, actions[0]), actions[1..]);
    }
  }

  /** An error comes only where some call failed: if none did, a child that has exited has read a command or found
      none, made the call that answers it, and got the report of its success out. */
  lemma NoFailureNoError(actions: seq<Action>)
    requires Possible(NEW_SYSTEM, actions) && AllWork(actions) && Run(NEW_SYSTEM, actions).child.pc.Exited?
    ensures var c := Run(NEW_SYSTEM, actions).child;
            && c.pc == Exited(true) && c.receipt.Some? && |c.log| == 5
            && c.log[3] == Control(CallFor(c.receipt.value), true)
            && c.log[4] == Sent(StatusFor(c.receipt.value), true)
            && forall e :: e in c.log ==> !IsReport(e, Error)
  {
    StaysOnCourse(NEW_SYSTEM, actions);
    EveryChildEndsSo(actions);
  }

  // The commands the user got onto the socket, in order.
  function Asks(actions: seq<Action>): seq<Command> {
    if actions == [] then []
    else (if actions[0].UserAsks? && actions[0].sent then [actions[0].command] else []) + Asks(actions[1..])
  }

  lemma {:induction false} AskedAre(s: System, actions: seq<Action>)
    requires Possible(s, actions)
    ensures Run(s, actions).asked == s.asked + Asks(actions)
    decreases |actions|
  {
    if actions == [] {
      Seqs.NoMore(s.asked);
    } else {
      AskedAre(Next(s, actions[0]), actions[1..]);
      AskedNext(s, actions[0]);
      Seqs.Regroup(s.asked, AskedBy(actions[0]), Asks(actions[1..]));
    }
  }

  function AskedBy(a: Action): seq<Command> {
    if a.UserAsks? && a.sent then [a.command] else []
  }

  lemma AskedNext(s: System, a: Action)
    requires Enabled(s, a)
    ensures Next(s, a).asked == s.asked + AskedBy(a)
  {
    Seqs.NoMore(s.asked);
  }

  /** So the first thing the user asked for, if the child reads it, is what happens, or an error is reported. */
  lemma FirstRequestIsMet(actions: seq<Action>)
    requires Possible(NEW_SYSTEM, actions) && Run(NEW_SYSTEM, actions).child.pc.Exited?
    requires Run(NEW_SYSTEM, actions).child.receipt.Some? && Run(NEW_SYSTEM, actions).child.receipt.value.Got?
    ensures Asks(actions) != []
    ensures var c := Run(NEW_SYSTEM, actions).child;
            && |c.log| >= 5
            && IsCall(c.log[3], if Asks(actions)[0] == Save then SaveCall else CancelCall)
            && IsReport(c.log[|c.log| - 1],
                        if !c.log[3].ok then Error else if Asks(actions)[0] == Save then Stopped else Cancelled)
  {
    var r := Run(NEW_SYSTEM, actions).child.receipt.value;
    FirstCommandRules(actions, r.command);
    AskedAre(NEW_SYSTEM, actions);
    CommandIsObeyed(actions, r);
  }

  // ----- a child that never connects -----

  // Among the actions COM initialisation or the connection fails.
  ghost predicate FailsToConnect(s: System, actions: seq<Action>)
    requires Possible(s, actions)
    decreases |actions|
  {
    actions != [] &&
    (|| (actions[0].ChildMoves? && !actions[0].ch.ok && (s.child.pc.InitCom? || s.child.pc.Connect?))
     || FailsToConnect(Next(s, actions[0]), actions[1..]))
  }

  // Until the child connects the parent is launching and neither has done anything.
  ghost predicate Waiting(s: System) {
    !Connected(s.child) ==> s.parent.Launching? && s.child.log == [] && s.toParent == []
  }

  lemma WaitingStep(s: System, a: Action)
    requires Waiting(s) && Enabled(s, a)
    ensures Waiting(Next(s, a))
    ensures Connected(s.child) ==> Connected(Next(s, a).child)
    ensures !Connected(s.child) && !(a.ChildMoves? && !a.ch.ok) ==> !Next(s, a).child.pc.Exited?
    ensures !Connected(s.child) && a.ChildMoves? && !a.ch.ok ==> !Connected(Next(s, a).child) && Next(s, a).child.pc.Exited?
  {
    if a.ChildMoves? {
      OneEffect(s.child, a.ch);
    }
  }

  lemma {:induction false} ConnectedForGood(s: System, actions: seq<Action>)
    requires Waiting(s) && Possible(s, actions) && Connected(s.child)
    ensures Connected(Run(s, actions).child) && !FailsToConnect(s, actions)
    decreases |actions|
  {
    if actions != [] {
      WaitingStep(s, actions[0]);
      ConnectedForGood(Next(s, actions[0]), actions[1..]);
    }
  }

  lemma {:induction false} NeverConnectedIff(s: System, actions: seq<Action>)
    requires Waiting(s) && Possible(s, actions) && !Connected(s.child) && !s.child.pc.Exited?
    ensures var t := Run(s, actions);
            Waiting(t) && (!Connected(t.child) && t.child.pc.Exited? <==> FailsToConnect(s, actions))
    decreases |actions|
  {
    if actions != [] {
      var next := Next(s, actions[0]);
      WaitingStep(s, actions[0]);
      if Connected(next.child) {
        ConnectedForGood(next, actions[1..]);
      } else if next.child.pc.Exited? {
        assert forall a :: !Enabled(next, a);
      } else {
        NeverConnectedIff(next, actions[1..]);
      }
    }
  }

  /** The parent is left launching, with nothing more that can ever happen, exactly when COM
      initialisation or the connection failed in the child: no one then tells the user anything. */
  lemma ParentIsStuckIff(actions: seq<Action>)
    requires Possible(NEW_SYSTEM, actions)
    ensures var s := Run(NEW_SYSTEM, actions);
            (s.parent.Launching? && forall a :: !Enabled(s, a)) <==> FailsToConnect(NEW_SYSTEM, actions)
  {
    NeverConnectedIff(NEW_SYSTEM, actions);
    var s := Run(NEW_SYSTEM, actions);
    if !s.child.pc.Exited? {
      assert Enabled(s, ChildMoves(FAILS));
    } else if Connected(s.child) && s.parent.Launching? {
      assert Enabled(s, ParentReadFails);
    }
  }

  // ----- which statuses get lost, and when -----

  lemma {:induction false} OneMoreAction(s: System, actions: seq<Action>, a: Action)
    requires Possible(s, actions) && Enabled(Run(s, actions), a)
    ensures Possible(s, actions + [a]) && Run(s, actions + [a]) == Next(Run(s, actions), a)
    decreases |actions|
  {
    if actions == [] {
      Seqs.NoMore([a]);
      assert Possible(Next(s, a), []);
    } else {
      Seqs.TailOfConcat(actions, [a]);
      OneMoreAction(Next(s, actions[0]), actions[1..], a);
    }
  }

  // The parent is still launching, and the child is at `pc` and has told `told`.
  ghost predicate Reaches(actions: seq<Action>, pc: Pc, told: seq<Status>) {
    Possible(NEW_SYSTEM, actions) &&
    var s := Run(NEW_SYSTEM, actions);
    s.parent.Launching? && s.child.pc == pc && Delivered(s.child.log) == told
  }

  // The child makes one more call, reading no command.
  lemma Move(actions: seq<Action>, pc: Pc, told: seq<Status>, ch: Choice) returns (more: seq<Action>)
    requires Reaches(actions, pc, told) && !pc.Exited? && ch.receipt == Missing
    ensures Reaches(more, ChildStep(Child(pc, [], None), ch).pc, told + SentBy(pc, ch))
  {
    more := actions + [ChildMoves(ch)];
    OneMoreAction(NEW_SYSTEM, actions, ChildMoves(ch));
    DeliveredByStep(Run(NEW_SYSTEM, actions).child, ch);
    PcDecides(Run(NEW_SYSTEM, actions).child, ch);
  }

  lemma PcDecides(c: Child, ch: Choice)
    ensures ChildStep(c, ch).pc == ChildStep(Child(c.pc, [], None), ch).pc
  {
  }

  // A call that sends nothing.
  lemma MoveSilently(actions: seq<Action>, pc: Pc, told: seq<Status>, ch: Choice) returns (more: seq<Action>)
    requires Reaches(actions, pc, told) && !pc.Exited? && ch.receipt == Missing && SentBy(pc, ch) == []
    ensures Reaches(more, ChildStep(Child(pc, [], None), ch).pc, told)
  {
    more := Move(actions, pc, told, ch);
    Seqs.NoMore(told);
  }

  const WORKS := Choice(true, true, Missing)
  const FAILS := Choice(false, false, Missing)

  lemma ReachesStart() returns (actions: seq<Action>)
    ensures Reaches(actions, StartRecording, [])
  {
    actions := [];
    assert Run(NEW_SYSTEM, actions) == NEW_SYSTEM;
    actions := MoveSilently(actions, InitCom, [], WORKS);
    actions := MoveSilently(actions, Connect, [], WORKS);
    actions := MoveSilently(actions, Build, [], WORKS);
    actions := MoveSilently(actions, CreateManager, [], WORKS);
    actions := MoveSilently(actions, CancelLeftover, [], WORKS);
  }

  lemma ReachesTimeout() returns (actions: seq<Action>)
    ensures Reaches(actions, SetTimeout, [Started])
  {
    actions := ReachesStart();
    actions := MoveSilently(actions, StartRecording, [], WORKS);
    actions := Move(actions, SendStarted, [], WORKS);
    Seqs.NoMore([Started]);
  }

  // The first read takes Started, and a second status goes with the dropped reader.
  lemma ReadLoses(actions: seq<Action>, pc: Pc, x: Status) returns (more: seq<Action>)
    requires Reaches(actions, pc, [Started] + [x])
    ensures Possible(NEW_SYSTEM, more) && x in Run(NEW_SYSTEM, more).lost
  {
    RunKeepsInv(NEW_SYSTEM, actions);
    var s := Run(NEW_SYSTEM, actions);
    assert s.toParent[0] == Started && s.toParent[1] == x;
    OneMoreAction(NEW_SYSTEM, actions, ParentReads(1));
    assert s.toParent[1..2][0] == x;
    more := actions + [ParentReads(1)];
  }

  // Nobody asks, the read times out and the trace is saved.
  lemma ReachesSave() returns (actions: seq<Action>)
    ensures Reaches(actions, RunSave(true), [Started])
  {
    actions := ReachesTimeout();
    actions := MoveSilently(actions, SetTimeout, [Started], WORKS);
    actions := MoveSilently(actions, AwaitCommand, [Started], WORKS);
  }

  lemma ReachesReport() returns (actions: seq<Action>)
    ensures Reaches(actions, Exited(true), [Started] + [TimedOut])
  {
    actions := ReachesSave();
    actions := MoveSilently(actions, RunSave(true), [Started], WORKS);
    actions := Move(actions, Report(TimedOut), [Started], WORKS);
  }

  // The parent then reads both statuses at once.
  lemma TimedOutCanBeLost() returns (actions: seq<Action>)
    ensures Possible(NEW_SYSTEM, actions) && TimedOut in Run(NEW_SYSTEM, actions).lost
  {
    actions := ReachesReport();
    actions := ReadLoses(actions, Exited(true), TimedOut);
  }

  // The receive timeout cannot be set, and the recording is cancelled.
  lemma ReachesFailure() returns (actions: seq<Action>)
    ensures Reaches(actions, ReportError, [Started])
  {
    actions := ReachesTimeout();
    actions := MoveSilently(actions, SetTimeout, [Started], FAILS);
    actions := MoveSilently(actions, Unwind, [Started], WORKS);
  }

  // The parent then reads Started and the error at once.
  lemma ErrorCanBeLost() returns (actions: seq<Action>)
    ensures Possible(NEW_SYSTEM, actions) && Error in Run(NEW_SYSTEM, actions).lost
  {
    actions := ReachesFailure();
    actions := Move(actions, ReportError, [Started], WORKS);
    actions := ReadLoses(actions, Exited(false), Error);
  }

  /** A status can be lost with the dropped reader exactly if it answers no request of the user:
      the report of a recording that timed out, and the report of a failure. */
  lemma CanBeLostIff(x: Status)
    ensures (exists actions :: Possible(NEW_SYSTEM, actions) && x in Run(NEW_SYSTEM, actions).lost) <==>
            x == TimedOut || x == Error
  {
    if actions :| Possible(NEW_SYSTEM, actions) && x in Run(NEW_SYSTEM, actions).lost {
      OnlyUnaskedStatusesAreLost(actions, x);
    }
    if x == TimedOut {
      var actions := TimedOutCanBeLost();
    }
    if x == Error {
      var actions := ErrorCanBeLost();
    }
  }

  // The child has exited, and its last effect was a terminal status that got out.
  ghost predicate TerminalOut(c: Child) {
    && c.pc.Exited?
    && c.log != []
    && c.log[|c.log| - 1].Sent?
    && c.log[|c.log| - 1].delivered
    && c.log[|c.log| - 1].status != Started
  }

  lemma TerminalOutIff(c: Child)
    requires StatusesInOrder(c) && TerminalLast(c) && Delivered(c.log) != [] && Delivered(c.log)[0] == Started
    ensures TerminalOut(c) <==> |Delivered(c.log)| == 2
  {
    if |Delivered(c.log)| == 2 {
      TerminalWasLast(c, Delivered(c.log)[1]);
    } else if TerminalOut(c) {
      LastIsDelivered(c.log);
    }
  }

  /** Reading Started can lose a status exactly when the child has already exited and its
      terminal status has got out; a parent that reads Started sooner loses nothing. */
  lemma ReadCanLoseIff(actions: seq<Action>)
    requires Possible(NEW_SYSTEM, actions)
    requires var s := Run(NEW_SYSTEM, actions); s.parent.Launching? && s.toParent != [] && s.toParent[0] == Started
    ensures var s := Run(NEW_SYSTEM, actions);
            (exists d: nat :: Enabled(s, ParentReads(d)) && Next(s, ParentReads(d)).lost != []) <==> TerminalOut(s.child)
  {
    RunKeepsInv(NEW_SYSTEM, actions);
    var s := Run(NEW_SYSTEM, actions);
    TerminalOutIff(s.child);
    LosesIff(s);
  }

  lemma LosesIff(s: System)
    requires s.parent.Launching? && s.toParent != [] && s.toParent[0] == Started && |s.toParent| <= 2
    ensures (exists d: nat :: Enabled(s, ParentReads(d)) && Next(s, ParentReads(d)).lost != []) <==> |s.toParent| == 2
  {
    if |s.toParent| == 2 {
      assert Enabled(s, ParentReads(1)) && |Next(s, ParentReads(1)).lost| == 1;
    }
  }

  lemma LastIsDelivered(log: seq<Effect>)
    requires log != [] && log[|log| - 1].Sent? && log[|log| - 1].delivered
    ensures log[|log| - 1].status in Delivered(log)
  {
  }

  // ----- the child's own code -----

  // How each call the child may make turns out.
  type Oracle = Pc -> Choice

  function Rank(pc: Pc): nat {
    match pc
    case InitCom => 12
    case Connect => 11
    case Build => 10
    case CreateManager => 9
    case CancelLeftover => 8
    case StartRecording => 7
    case SendStarted => 6
    case SetTimeout => 5
    case AwaitCommand => 4
    case RunCancel => 3
    case RunSave(_) => 3
    case Report(_) => 1
    case Unwind => 2
    case ReportError => 1
    case Exited(_) => 0
  }

  // The child run to its end.
  function Finish(c: Child, o: Oracle): Child
    decreases Rank(c.pc)
  {
    if c.pc.Exited? then c else Finish(ChildStep(c, o(c.pc)), o)
  }

  lemma FinishStep(c: Child, o: Oracle)
    requires !c.pc.Exited?
    ensures Finish(c, o) == Finish(ChildStep(c, o(c.pc)), o)
  {
  }

  lemma {:induction false} PassedPointsDoNotMatter(c: Child, o: Oracle, p: Oracle, pc: Pc)
    requires Rank(c.pc) < Rank(pc) && forall x :: x != pc ==> o(x) == p(x)
    ensures Finish(c, o) == Finish(c, p)
    decreases Rank(c.pc)
  {
    if !c.pc.Exited? {
      PassedPointsDoNotMatter(ChildStep(c, o(c.pc)), o, p, pc);
    }
  }

  function Foreseen(pc: Pc, ch: Choice, rest: Oracle): Oracle {
    x => if x == pc then ch else rest(x)
  }

  lemma FinishForeseen(c: Child, ch: Choice, rest: Oracle)
    requires !c.pc.Exited?
    ensures Finish(c, Foreseen(c.pc, ch, rest)) == Finish(ChildStep(c, ch), rest)
  {
    StepLowersRank(c, ch);
    PassedPointsDoNotMatter(ChildStep(c, ch), Foreseen(c.pc, ch, rest), rest, c.pc);
  }

  lemma StepLowersRank(c: Child, ch: Choice)
    requires !c.pc.Exited?
    ensures Rank(ChildStep(c, ch).pc) < Rank(c.pc)
  {
  }

  /** Whatever the interleaving, a child that has exited has done what its code does
      under some outcomes of its calls. */
  lemma {:induction false} EveryRunFollowsTheCode(s: System, actions: seq<Action>) returns (o: Oracle)
    requires Possible(s, actions) && Run(s, actions).child.pc.Exited?
    ensures Run(s, actions).child == Finish(s.child, o)
    decreases |actions|
  {
    if actions == [] {
      o := _ => Choice(false, false, Missing);
    } else {
      var rest := EveryRunFollowsTheCode(Next(s, actions[0]), actions[1..]);
      if actions[0].ChildMoves? {
        o := Foreseen(s.child.pc, actions[0].ch, rest);
        FinishForeseen(s.child, actions[0].ch, rest);
      } else {
        o := rest;
      }
    }
  }

  // The calls before Start.
  lemma UpToStart(o: Oracle)
    ensures Finish(Child(Build, [], None), o) ==
            if !o(Build).ok || !o(CreateManager).ok then Finish(Child(ReportError, [], None), o)
            else Finish(Child(StartRecording, [] + [Control(CancelCall, o(CancelLeftover).ok)], None), o)
  {
    var c := Child(Build, [], None);
    FinishStep(c, o);
    c := ChildStep(c, o(Build));
    if o(Build).ok {
      FinishStep(c, o);
      c := ChildStep(c, o(CreateManager));
      if o(CreateManager).ok {
        FinishStep(c, o);
      }
    }
  }

  // `log` stands for everything the child process does to the outside.
  class Recorder {
    var log: seq<Effect>

    constructor ()
      ensures log == []
    {
      log := [];
    }

    method RecordEtwTrace(o: Oracle) returns (ok: bool)
      requires log == []
      modifies this
      ensures exists receipt :: Finish(NEW_CHILD, o) == Child(Exited(ok), log, receipt) && Ended(ok, log, receipt)
      ensures Settled(log) && Narrative(Delivered(log))
    {
      ghost var c := NEW_CHILD;
      CodeSettles(o);
      if !o(InitCom).ok {
        return false;
      }
      c := ChildStep(c, o(c.pc));
      if !o(Connect).ok {
        return false;
      }
      c := ChildStep(c, o(c.pc));
      assert Finish(NEW_CHILD, o) == Finish(c, o);
      ghost var receipt;
      ok, receipt := RecordInner(o);
      if !ok {
        var ch := o(ReportError);
        log := log + [Sent(Error, ch.ok || ch.delivered)];
      }
      assert Finish(NEW_CHILD, o) == Child(Exited(ok), log, receipt);
    }

    method RecordInner(o: Oracle) returns (ok: bool, ghost receipt: Option<Receipt>)
      requires log == []
      modifies this
      ensures Finish(Child(Build, [], None), o) ==
              Finish(Child(if ok then Exited(true) else ReportError, log, receipt), o)
    {
      UpToStart(o);
      if !o(Build).ok {
        return false, None;
      }
      if !o(CreateManager).ok {
        return false, None;
      }
      // leftover sessions with the same name
      log := log + [Control(CancelCall, o(CancelLeftover).ok)];
      FinishStep(Child(StartRecording, log, None), o);
      log := log + [Control(StartCall, o(StartRecording).ok)];
      if !o(StartRecording).ok {
        return false, None;
      }
      var aborted;
      aborted, receipt := WhileGuarded(o);
      if !aborted {
        // the deferred guard
        FinishStep(Child(Unwind, log, receipt), o);
        log := log + [Control(CancelCall, o(Unwind).ok)];
      }
      ok := aborted;
    }

    // From the moment the cancel guard exists; true if it was aborted.
    method WhileGuarded(o: Oracle) returns (aborted: bool, ghost receipt: Option<Receipt>)
      modifies this
      ensures Finish(Child(SendStarted, old(log), None), o) ==
              Finish(Child(if aborted then Exited(true) else Unwind, log, receipt), o)
      ensures old(log) <= log && WhileArmed(log[|old(log)|..], receipt, aborted)
    {
      ghost var c := Child(SendStarted, log, None);
      var ch := o(SendStarted);
      log := log + [Sent(Started, ch.ok || ch.delivered)];
      FinishStep(c, o);
      if !ch.ok {
        return false, None;
      }
      c := ChildStep(c, ch);
      FinishStep(c, o);
      var received := ReceiveCommand(o);
      if received.None? {
        return false, None;
      }
      c := ChildStep(c, o(SetTimeout));
      FinishStep(c, o);
      receipt := Some(o(AwaitCommand).receipt);
      var (command, timedOut) := received.value;
      aborted := Obey(command, timedOut, o, receipt);
    }

    // The command to obey, Save standing in for one that is missing or unreadable.
    method ReceiveCommand(o: Oracle) returns (r: Option<(Command, bool)>)
      ensures r == if !o(SetTimeout).ok then None
                   else match o(AwaitCommand).receipt
                        case Got(command) => Some((command, false))
                        case Missing => Some((Save, true))
    {
      if !o(SetTimeout).ok {
        return None;
      }
      match o(AwaitCommand).receipt {
        case Got(command) => r := Some((command, false));
        case Missing => r := Some((Save, true));
      }
    }

    method Obey(command: Command, timedOut: bool, o: Oracle, ghost receipt: Option<Receipt>) returns (aborted: bool)
      modifies this
      ensures Finish(Child(if command == Cancel then RunCancel else RunSave(timedOut), old(log), receipt), o) ==
              Finish(Child(if aborted then Exited(true) else Unwind, log, receipt), o)
      ensures old(log) <= log && |log| == |old(log)| + (if aborted then 2 else 1)
      ensures log[|old(log)|] == Control(if command == Cancel then CancelCall else SaveCall, aborted)
      ensures aborted ==>
                IsReport(log[|old(log)| + 1], if command == Cancel then Cancelled else if timedOut then TimedOut else Stopped)
    {
      ghost var c := Child(if command == Cancel then RunCancel else RunSave(timedOut), log, receipt);
      FinishStep(c, o);
      var status;
      match command {
        case Cancel =>
          log := log + [Control(CancelCall, o(RunCancel).ok)];
          if !o(RunCancel).ok {
            return false;
          }
          status := Cancelled;
        case Save =>
          var saved := o(RunSave(timedOut)).ok;
          log := log + [Control(SaveCall, saved)];
          if !saved {
            return false;
          }
          status := if timedOut then TimedOut else Stopped;
      }
      FinishStep(Child(Report(status), log, receipt), o);
      var ch := o(Report(status));
      log := log + [Sent(status, ch.ok || ch.delivered)];
      aborted := true;
    }
  }

  // The child after some of its calls have turned out one way or another.
  function ChildAt(choices: seq<Choice>): Child {
    if choices == [] then NEW_CHILD else ChildStep(ChildAt(choices[..|choices| - 1]), choices[|choices| - 1])
  }

  lemma {:induction false} ChildAtKeepsInv(choices: seq<Choice>)
    ensures ChildInv(ChildAt(choices))
  {
    if choices != [] {
      ChildAtKeepsInv(choices[..|choices| - 1]);
      ChildStepKeepsInv(ChildAt(choices[..|choices| - 1]), choices[|choices| - 1]);
    }
  }

  lemma {:induction false} ChildAtKeepsShape(choices: seq<Choice>)
    ensures var c := ChildAt(choices); Shape(c.pc, c.log, c.receipt)
  {
    if choices != [] {
      ChildAtKeepsShape(choices[..|choices| - 1]);
      StepKeepsShape(ChildAt(choices[..|choices| - 1]), choices[|choices| - 1]);
    }
  }

  lemma {:induction false} FinishIsAt(choices: seq<Choice>, o: Oracle) returns (all: seq<Choice>)
    ensures Finish(ChildAt(choices), o) == ChildAt(all) && ChildAt(all).pc.Exited?
    decreases Rank(ChildAt(choices).pc)
  {
    var c := ChildAt(choices);
    if c.pc.Exited? {
      all := choices;
    } else {
      Seqs.TakeOfConcat(choices, [o(c.pc)]);
      all := FinishIsAt(choices + [o(c.pc)], o);
    }
  }

  /** However its calls turn out, the child's code ends with the recording settled and its story told in order. */
  lemma CodeSettles(o: Oracle)
    ensures var c := Finish(NEW_CHILD, o);
            c.pc.Exited? && Settled(c.log) && Narrative(Delivered(c.log)) && Ended(c.pc.ok, c.log, c.receipt)
  {
    var all := FinishIsAt([], o);
    ChildAtKeepsInv(all);
    ChildAtKeepsShape(all);
  }
}
