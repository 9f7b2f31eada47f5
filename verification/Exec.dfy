/**
 The life of an exec stream: any number of `Close` calls on its two ends, the reaper goroutine that
 waits for both, and the watcher that terminates and then kills the process, as a timed step system.

 Library behaviour taken as given: closing a closed channel panics; `cmd.Wait` returns only after the
 process has exited and closes the parent's ends of its pipes before it returns; closing a file that is
 already closed returns an error; `time.After(d)` fires no earlier than d after it was called.
 */
module ExecSystem {
  import opened Bytes

  /** Seconds, for both timers. */
  const TIMEOUT: nat := 10

  datatype Which = Stdin | Stdout

  /** One end of the stream: its closer, the channel its close function closes, and the file underneath. */
  datatype End = End(
    channelCloses: nat,   // times the channel has been closed
    closing: bool,        // a Close call is between closing the channel and closing the file
    closed: bool,         // the closer's flag
    failed: bool,         // history: the close of the file has returned an error
    fileClosed: bool)

  datatype Reaper = AwaitStdin | AwaitStdout | Waiting | Exited

  datatype Watcher =
    | NotStarted
    | Starting
    | FirstTimer(since: nat)
    | Terminated
    | SecondTimer(since: nat)
    | WatcherDone

  datatype Signal = Term(at: nat) | Kill(at: nat)

  datatype State = State(
    stdin: End,
    stdout: End,
    panicked: bool,
    reaper: Reaper,
    watcher: Watcher,
    cancelled: bool,        // the watcher's context
    alive: bool,            // the process
    now: nat,
    readyAt: Option<nat>,   // history: when the second of the two channels was closed
    signals: seq<Signal>)   // history: signals sent to the process

  datatype Step =
    | BeginClose(which: Which) | EndClose(which: Which, osOk: bool)
    | ReaperStdin | ReaperStdout | WaitReturns
    | WatcherStart | FirstFires | SecondStart | SecondFires | WatcherCancelled
    | ProcessExit | Tick

  function Init(): State {
    var end := End(0, false, false, false, false);
    State(end, end, false, AwaitStdin, NotStarted, false, true, 0, None, [])
  }

  function EndOf(s: State, which: Which): End {
    if which.Stdin? then s.stdin else s.stdout
  }

  function WithEnd(s: State, which: Which, end: End): State {
    if which.Stdin? then s.(stdin := end) else s.(stdout := end)
  }

  predicate BothSignalled(s: State) {
    s.stdin.channelCloses > 0 && s.stdout.channelCloses > 0
  }

  predicate Killed(s: State) {
    exists i :: 0 <= i < |s.signals| && s.signals[i].Kill?
  }

  predicate Enabled(s: State, step: Step) {
    && !s.panicked
    && match step
       case BeginClose(which) => !EndOf(s, which).closing
       case EndClose(which, _) => EndOf(s, which).closing
       case ReaperStdin => s.reaper.AwaitStdin? && s.stdin.channelCloses > 0
       case ReaperStdout => s.reaper.AwaitStdout? && s.stdout.channelCloses > 0
       case WaitReturns => s.reaper.Waiting? && !s.alive
       case WatcherStart => s.watcher.Starting?
       case FirstFires => s.watcher.FirstTimer? && s.watcher.since + TIMEOUT <= s.now
       case SecondStart => s.watcher.Terminated?
       case SecondFires => s.watcher.SecondTimer? && s.watcher.since + TIMEOUT <= s.now
       case WatcherCancelled => (s.watcher.FirstTimer? || s.watcher.SecondTimer?) && s.cancelled
       case ProcessExit => s.alive
       case Tick => true
  }

  /** `Close` on an end whose flag is not set: the close function starts by closing the channel. */
  function RunCloseFunc(s: State, which: Which): State {
    var end := EndOf(s, which);
    if end.channelCloses > 0 then
      WithEnd(s, which, end.(channelCloses := end.channelCloses + 1)).(panicked := true)
    else
      var t := WithEnd(s, which, end.(channelCloses := 1, closing := true));
      if BothSignalled(t) then t.(readyAt := Some(s.now)) else t
  }

  function Apply(s: State, step: Step): State
    requires Enabled(s, step)
  {
    match step
    case BeginClose(which) => if EndOf(s, which).closed then s else RunCloseFunc(s, which)
    case EndClose(which, osOk) =>
      var end := EndOf(s, which);
      var ok := osOk && !end.fileClosed;
      WithEnd(s, which, end.(closing := false, fileClosed := true, closed := ok, failed := end.failed || !ok))
    case ReaperStdin => s.(reaper := AwaitStdout)
    case ReaperStdout => s.(reaper := Waiting, watcher := Starting)
    case WaitReturns =>
      s.(reaper := Exited, cancelled := true,
         stdin := s.stdin.(fileClosed := true), stdout := s.stdout.(fileClosed := true))
    case WatcherStart => s.(watcher := FirstTimer(s.now))
    case FirstFires => s.(watcher := Terminated, signals := s.signals + [Term(s.now)])
    case SecondStart => s.(watcher := SecondTimer(s.now))
    case SecondFires => s.(watcher := WatcherDone, signals := s.signals + [Kill(s.now)])
    case WatcherCancelled => s.(watcher := WatcherDone)
    case ProcessExit => s.(alive := false)
    case Tick => s.(now := s.now + 1)
  }

  predicate CanRun(s: State, steps: seq<Step>)
    decreases |steps|
  {
    steps == [] || (Enabled(s, steps[0]) && CanRun(Apply(s, steps[0]), steps[1..]))
  }

  function After(s: State, steps: seq<Step>): State
    requires CanRun(s, steps)
    decreases |steps|
  {
    if steps == [] then s else After(Apply(s, steps[0]), steps[1..])
  }

  // ----- the invariant -----

  ghost predicate EndInv(s: State, end: End) {
    && (s.panicked ==> end.channelCloses <= 2 && (end.channelCloses == 2 ==> end.failed))
    && (!s.panicked ==> end.channelCloses <= 1)
    && (end.closing || end.closed || end.failed ==> end.channelCloses >= 1)
    && (end.channelCloses == 1 ==> end.closing || end.closed || end.failed)
    && !(end.closing && end.failed) && !(end.closed && end.failed) && !(end.closing && end.closed)
  }

  ghost predicate SignalsInv(s: State) {
    && (match s.watcher
        case NotStarted => s.signals == []
        case Starting => s.signals == []
        case FirstTimer(since) => s.signals == [] && s.readyAt.Some? && s.readyAt.value <= since <= s.now
        case Terminated => |s.signals| == 1
        case SecondTimer(since) => |s.signals| == 1 && s.signals[0].at <= since <= s.now
        case WatcherDone => |s.signals| <= 2)
    && (s.signals != [] ==>
          s.readyAt.Some? && s.signals[0].Term? && s.readyAt.value + TIMEOUT <= s.signals[0].at <= s.now)
    && (|s.signals| == 2 ==> s.signals[1].Kill? && s.signals[0].at + TIMEOUT <= s.signals[1].at <= s.now)
  }

  /** The two ends, and when both were signalled. */
  ghost predicate EndsInv(s: State) {
    && EndInv(s, s.stdin) && EndInv(s, s.stdout)
    && (s.panicked ==> s.stdin.channelCloses == 2 || s.stdout.channelCloses == 2)
    && (s.readyAt.Some? <==> BothSignalled(s))
    && (s.readyAt.Some? ==> s.readyAt.value <= s.now)
  }

  /** The reaper, and what it starts and cancels. */
  ghost predicate ReaperInv(s: State) {
    && (!s.reaper.AwaitStdin? ==> s.stdin.channelCloses > 0)
    && (s.reaper.Waiting? || s.reaper.Exited? ==> BothSignalled(s))
    && (s.watcher.NotStarted? <==> s.reaper.AwaitStdin? || s.reaper.AwaitStdout?)
    && (s.cancelled <==> s.reaper.Exited?)
    && (s.reaper.Exited? ==> !s.alive)
    && (s.watcher.WatcherDone? ==> s.cancelled || |s.signals| == 2)
  }

  ghost predicate Inv(s: State) {
    EndsInv(s) && ReaperInv(s) && SignalsInv(s)
  }

  lemma CloseKeepsEnds(s: State, step: Step)
    requires EndsInv(s) && Enabled(s, step) && (step.BeginClose? || step.EndClose?)
    ensures EndsInv(Apply(s, step))
  {
    match step
    case BeginClose(Stdin) =>
    case BeginClose(Stdout) =>
    case EndClose(Stdin, _) =>
    case EndClose(Stdout, _) =>
  }

  /** A close touches one end and the record of when both were signalled, and never takes back a signal. */
  lemma CloseFrame(s: State, step: Step)
    requires EndsInv(s) && Enabled(s, step) && (step.BeginClose? || step.EndClose?)
    ensures var t := Apply(s, step);
      && t == s.(stdin := t.stdin, stdout := t.stdout, panicked := t.panicked, readyAt := t.readyAt)
      && (s.stdin.channelCloses > 0 ==> t.stdin.channelCloses > 0)
      && (s.stdout.channelCloses > 0 ==> t.stdout.channelCloses > 0)
      && (s.readyAt.Some? ==> t.readyAt == s.readyAt)
  {
  }

  lemma CloseKeepsInv(s: State, step: Step)
    requires Inv(s) && Enabled(s, step) && (step.BeginClose? || step.EndClose?)
    ensures Inv(Apply(s, step))
  {
    CloseKeepsEnds(s, step);
    CloseFrame(s, step);
  }

  lemma ReaperKeepsInv(s: State, step: Step)
    requires Inv(s) && Enabled(s, step) && (step.ReaperStdin? || step.ReaperStdout? || step.WaitReturns?)
    ensures Inv(Apply(s, step))
  {
    match step
    case ReaperStdin =>
    case ReaperStdout =>
    case WaitReturns =>
  }

  lemma WatcherKeepsInv(s: State, step: Step)
    requires Inv(s) && Enabled(s, step)
    requires step.WatcherStart? || step.FirstFires? || step.SecondStart? || step.SecondFires? || step.WatcherCancelled?
    ensures Inv(Apply(s, step))
  {
    match step
    case WatcherStart =>
    case FirstFires =>
    case SecondStart =>
    case SecondFires =>
    case WatcherCancelled =>
  }

  lemma EnvironmentKeepsInv(s: State, step: Step)
    requires Inv(s) && Enabled(s, step) && (step.ProcessExit? || step.Tick?)
    ensures Inv(Apply(s, step))
  {
    match step
    case ProcessExit =>
    case Tick =>
  }

  lemma StepInv(s: State, step: Step)
    requires Inv(s) && Enabled(s, step)
    ensures Inv(Apply(s, step))
  {
    match step
    case BeginClose(_) => CloseKeepsInv(s, step);
    case EndClose(_, _) => CloseKeepsInv(s, step);
    case ReaperStdin => ReaperKeepsInv(s, step);
    case ReaperStdout => ReaperKeepsInv(s, step);
    case WaitReturns => ReaperKeepsInv(s, step);
    case ProcessExit => EnvironmentKeepsInv(s, step);
    case Tick => EnvironmentKeepsInv(s, step);
    case _ => WatcherKeepsInv(s, step);
  }

  lemma {:induction false} RunInv(s: State, steps: seq<Step>)
    requires Inv(s) && CanRun(s, steps)
    ensures Inv(After(s, steps))
    decreases |steps|
  {
    if steps != [] {
      StepInv(s, steps[0]);
      RunInv(Apply(s, steps[0]), steps[1..]);
    }
  }

  // ----- closing -----

  /**
   Under any interleaving of any number of `Close` calls: `cmd.Wait` is entered only after both
   channels are closed, no channel is closed twice unless the close of its file has failed, and a
   double close is the only panic.
   */
  lemma CloseSignalling(steps: seq<Step>)
    requires CanRun(Init(), steps)
    ensures var s := After(Init(), steps);
      && (s.reaper.Waiting? || s.reaper.Exited? ==> BothSignalled(s))
      && (forall which :: EndOf(s, which).channelCloses >= 2 ==> EndOf(s, which).failed)
      && (s.panicked <==> exists which :: EndOf(s, which).channelCloses >= 2)
  {
    RunInv(Init(), steps);
    var s := After(Init(), steps);
    assert EndOf(s, Stdin) == s.stdin && EndOf(s, Stdout) == s.stdout;
  }

  /** If every close of a file returns nil, nothing panics and no channel is closed twice. */
  lemma NoFailureNoPanic(steps: seq<Step>)
    requires CanRun(Init(), steps)
    requires !After(Init(), steps).stdin.failed && !After(Init(), steps).stdout.failed
    ensures var s := After(Init(), steps);
      !s.panicked && s.stdin.channelCloses <= 1 && s.stdout.channelCloses <= 1
  {
    RunInv(Init(), steps);
  }

  /**
   The exact condition: in a reachable state a `Close` call panics if and only if an earlier one on that end
   failed.
   */
  lemma ClosePanicsExactly(steps: seq<Step>, which: Which)
    requires CanRun(Init(), steps) && Enabled(After(Init(), steps), BeginClose(which))
    ensures var s := After(Init(), steps);
      Apply(s, BeginClose(which)).panicked <==> EndOf(s, which).failed
  {
    RunInv(Init(), steps);
  }

  /** A file is closed by the end of its own close function or by `cmd.Wait`, and by nothing else. */
  ghost predicate FileInv(s: State, which: Which) {
    var end := EndOf(s, which);
    end.fileClosed <==> end.closed || end.failed || s.reaper.Exited?
  }

  ghost predicate FilesInv(s: State) {
    FileInv(s, Stdin) && FileInv(s, Stdout)
  }

  lemma CloseKeepsFile(s: State, step: Step, which: Which)
    requires FileInv(s, which) && Enabled(s, step) && (step.BeginClose? || step.EndClose?)
    ensures FileInv(Apply(s, step), which)
  {
    match step
    case BeginClose(_) =>
    case EndClose(_, _) =>
  }

  lemma StepFiles(s: State, step: Step)
    requires FilesInv(s) && Enabled(s, step)
    ensures FilesInv(Apply(s, step))
  {
    if step.BeginClose? || step.EndClose? {
      CloseKeepsFile(s, step, Stdin);
      CloseKeepsFile(s, step, Stdout);
    }
  }

  lemma {:induction false} RunFiles(s: State, steps: seq<Step>)
    requires FilesInv(s) && CanRun(s, steps)
    ensures FilesInv(After(s, steps))
    decreases |steps|
  {
    if steps != [] {
      StepFiles(s, steps[0]);
      RunFiles(Apply(s, steps[0]), steps[1..]);
    }
  }

  /**
   If the operating system never fails a close, a close of a file fails exactly if `cmd.Wait` has closed the
   file first.
   */
  lemma CloseFailsExactly(steps: seq<Step>, which: Which)
    requires CanRun(Init(), steps) && Enabled(After(Init(), steps), EndClose(which, true))
    ensures var s := After(Init(), steps);
      EndOf(Apply(s, EndClose(which, true)), which).failed <==> s.reaper.Exited?
  {
    RunInv(Init(), steps);
    RunFiles(Init(), steps);
    var s := After(Init(), steps);
    assert FileInv(s, which);
  }

  /** The two halves of a run. */
  lemma {:induction false} RunAppend(s: State, first: seq<Step>, second: seq<Step>)
    requires CanRun(s, first) && CanRun(After(s, first), second)
    ensures CanRun(s, first + second) && After(s, first + second) == After(After(s, first), second)
    decreases |first|
  {
    if first == [] {
      assert first + second == second;
    } else {
      assert (first + second)[0] == first[0] && (first + second)[1..] == first[1..] + second;
      RunAppend(Apply(s, first[0]), first[1..], second);
    }
  }

  /** `Stream.Close` closes the reader and is half-way through closing the writer. */
  function CloseHalfWay(): (steps: seq<Step>) {
    [BeginClose(Stdout)] + [EndClose(Stdout, true)] + [BeginClose(Stdin)]
  }

  /** `cmd.Wait` is entered and returns. */
  function ReapAll(): (steps: seq<Step>) {
    [ReaperStdin] + [ReaperStdout] + [ProcessExit] + [WaitReturns]
  }

  /** The close of the writer goes on, and the other copier's `Stream.Close` follows. */
  function CloseAgain(): (steps: seq<Step>) {
    [EndClose(Stdin, true)] + [BeginClose(Stdout)] + [BeginClose(Stdin)]
  }

  lemma HalfWay()
    ensures CanRun(Init(), CloseHalfWay())
    ensures After(Init(), CloseHalfWay()) ==
      State(End(1, true, false, false, false), End(1, false, true, false, true), false,
        AwaitStdin, NotStarted, false, true, 0, Some(0), [])
  {
  }

  lemma Reaped(s: State)
    requires s == After(Init(), CloseHalfWay()) && CanRun(Init(), CloseHalfWay())
    ensures CanRun(s, ReapAll())
    ensures var t := After(s, ReapAll());
      !t.panicked && t.stdin == End(1, true, false, false, true) && t.stdout == End(1, false, true, false, true)
  {
  }

  lemma ClosedAgain(s: State)
    requires !s.panicked && s.stdin == End(1, true, false, false, true) && s.stdout == End(1, false, true, false, true)
    ensures CanRun(s, CloseAgain()) && After(s, CloseAgain()).panicked
  {
  }

  /** No close fails for a reason of its own. */
  predicate Healthy(steps: seq<Step>) {
    forall step :: step in steps && step.EndClose? ==> step.osOk
  }

  /** Every `Close` of the writer comes after one of the reader has returned, as in `Stream.Close`. */
  predicate ReaderFirst(s: State, steps: seq<Step>)
    requires CanRun(s, steps)
    decreases |steps|
  {
    steps == [] ||
    (&& (steps[0] == BeginClose(Stdin) ==> s.stdout.channelCloses > 0 && !s.stdout.closing)
     && ReaderFirst(Apply(s, steps[0]), steps[1..]))
  }

  /**
   Two calls of `Stream.Close`, as the two copiers of `bidirectionalCopy` make, can panic although the
   system is healthy: the process exits, and `cmd.Wait` closes the file of stdin, between the two halves
   of its close in the first call.
   */
  lemma DoubleCloseCanPanic()
    ensures var steps := CloseHalfWay() + ReapAll() + CloseAgain();
      CanRun(Init(), steps) && Healthy(steps) && ReaderFirst(Init(), steps) && After(Init(), steps).panicked
  {
    HalfWay();
    var s := After(Init(), CloseHalfWay());
    Reaped(s);
    var t := After(s, ReapAll());
    ClosedAgain(t);
    RunAppend(Init(), CloseHalfWay(), ReapAll());
    RunAppend(Init(), CloseHalfWay() + ReapAll(), CloseAgain());
    ReapedInOrder(s);
    ReaderFirstAppend(Init(), CloseHalfWay(), ReapAll());
    ReaderFirstAppend(Init(), CloseHalfWay() + ReapAll(), CloseAgain());
  }

  lemma ReapedInOrder(s: State)
    requires CanRun(s, ReapAll())
    ensures ReaderFirst(s, ReapAll())
  {
  }

  lemma {:induction false} ReaderFirstAppend(s: State, first: seq<Step>, second: seq<Step>)
    requires CanRun(s, first) && CanRun(After(s, first), second)
    requires ReaderFirst(s, first) && ReaderFirst(After(s, first), second)
    ensures CanRun(s, first + second) && ReaderFirst(s, first + second)
    decreases |first|
  {
    RunAppend(s, first, second);
    if first == [] {
      assert first + second == second;
    } else {
      assert (first + second)[0] == first[0] && (first + second)[1..] == first[1..] + second;
      ReaderFirstAppend(Apply(s, first[0]), first[1..], second);
    }
  }

  /** The writer is closed only once the reader is, so `cmd.Wait` comes too late to fail the reader's close. */
  ghost predicate ReaderSafe(s: State) {
    !s.stdout.failed && (s.stdin.channelCloses > 0 ==> s.stdout.closed)
  }

  lemma StepReaderSafe(s: State, step: Step)
    requires Inv(s) && FilesInv(s) && ReaderSafe(s) && Enabled(s, step)
    requires step.EndClose? ==> step.osOk
    requires step == BeginClose(Stdin) ==> s.stdout.channelCloses > 0 && !s.stdout.closing
    ensures ReaderSafe(Apply(s, step))
  {
    match step
    case BeginClose(_) =>
    case EndClose(_, _) =>
    case _ =>
  }

  lemma {:induction false} RunReaderSafe(s: State, steps: seq<Step>)
    requires Inv(s) && FilesInv(s) && ReaderSafe(s)
    requires CanRun(s, steps) && Healthy(steps) && ReaderFirst(s, steps)
    ensures Inv(After(s, steps)) && ReaderSafe(After(s, steps))
    decreases |steps|
  {
    if steps != [] {
      assert steps[0].EndClose? ==> steps[0].osOk by { assert steps[0] in steps; }
      StepInv(s, steps[0]);
      StepFiles(s, steps[0]);
      StepReaderSafe(s, steps[0]);
      RunReaderSafe(Apply(s, steps[0]), steps[1..]);
    }
  }

  /**
   What closing the reader first does achieve: with a healthy system its own close never fails and its
   channel is closed only once; any panic is that of a second close of the writer.
   */
  lemma ReaderFirstSparesReader(steps: seq<Step>)
    requires CanRun(Init(), steps) && Healthy(steps) && ReaderFirst(Init(), steps)
    ensures var s := After(Init(), steps);
      !s.stdout.failed && s.stdout.channelCloses <= 1 && (s.panicked ==> s.stdin.channelCloses == 2 && s.stdin.failed)
  {
    RunReaderSafe(Init(), steps);
  }

  /** An error of the operating system is enough: on either end, the next `Close` after it panics. */
  lemma SystemErrorCanPanic(which: Which)
    ensures var steps := [BeginClose(which)] + [EndClose(which, false)] + [BeginClose(which)];
      CanRun(Init(), steps) && After(Init(), steps).panicked && EndOf(After(Init(), steps), which).channelCloses == 2
  {
    var s1 := Apply(Init(), BeginClose(which));
    var s2 := Apply(s1, EndClose(which, false));
    OneStep(Init(), BeginClose(which));
    OneStep(s1, EndClose(which, false));
    OneStep(s2, BeginClose(which));
    RunAppend(Init(), [BeginClose(which)], [EndClose(which, false)]);
    RunAppend(Init(), [BeginClose(which)] + [EndClose(which, false)], [BeginClose(which)]);
  }

  lemma OneStep(s: State, step: Step)
    requires Enabled(s, step)
    ensures CanRun(s, [step]) && After(s, [step]) == Apply(s, step)
  {
    assert [step][1..] == [];
    assert After(Apply(s, step), []) == Apply(s, step);
  }

  // ----- terminating the process -----

  /**
   Nothing is sent to the process before both ends are closed and ten seconds have passed since; what
   is sent is at most one SIGTERM and then, ten seconds later at the earliest, at most one SIGKILL.
   */
  lemma SignalsInOrder(steps: seq<Step>)
    requires CanRun(Init(), steps)
    ensures var s := After(Init(), steps);
      && |s.signals| <= 2
      && (|s.signals| >= 1 ==>
            BothSignalled(s) && s.readyAt.Some? && s.signals[0].Term? && s.readyAt.value + 10 <= s.signals[0].at)
      && (|s.signals| == 2 ==> s.signals[1].Kill? && s.signals[0].at + 10 <= s.signals[1].at)
  {
    RunInv(Init(), steps);
  }

  /** And no later than need be: ten seconds after its start a timer can fire, and what it sends is recorded. */
  lemma TimersFire(steps: seq<Step>)
    requires CanRun(Init(), steps) && !After(Init(), steps).panicked
    ensures var s := After(Init(), steps);
      && (s.watcher.FirstTimer? && s.watcher.since + 10 <= s.now ==>
            Enabled(s, FirstFires) && Apply(s, FirstFires).signals == [Term(s.now)])
      && (s.watcher.SecondTimer? && s.watcher.since + 10 <= s.now ==>
            Enabled(s, SecondFires) && |s.signals| == 1 && Apply(s, SecondFires).signals == s.signals + [Kill(s.now)])
  {
    RunInv(Init(), steps);
  }

  predicate Final(s: State) {
    s.reaper.Exited? && s.watcher.WatcherDone?
  }

  function TicksLeft(s: State): nat {
    match s.watcher
    case FirstTimer(since) => if s.now < since + TIMEOUT then since + TIMEOUT - s.now else 0
    case SecondTimer(since) => if s.now < since + TIMEOUT then since + TIMEOUT - s.now else 0
    case _ => 0
  }

  function Measure(s: State): nat {
    var reaper := match s.reaper { case AwaitStdin => 3 case AwaitStdout => 2 case Waiting => 1 case Exited => 0 };
    var watcher := match s.watcher {
      case NotStarted => 6 case Starting => 5 case FirstTimer(_) => 4 case Terminated => 3 case SecondTimer(_) => 2
      case WatcherDone => 0 };
    (TIMEOUT + 1) * watcher + TicksLeft(s) + reaper + (if s.alive then 1 else 0)
  }

  /** A step that brings neither reaper nor watcher on: a `Close` call, or a tick no timer is waiting for. */
  predicate Idle(s: State, step: Step) {
    step.BeginClose? || step.EndClose? || (step.Tick? && TicksLeft(s) == 0)
  }

  /** A step that comes about unasked: of reaper or watcher, time passing, and the exit of a killed process. */
  predicate Due(s: State, step: Step) {
    !Idle(s, step) && (step.ProcessExit? ==> Killed(s))
  }

  lemma IdleStepMeasure(s: State, step: Step)
    requires Inv(s) && Enabled(s, step) && Idle(s, step)
    ensures Measure(Apply(s, step)) == Measure(s)
  {
    if !step.Tick? {
      CloseFrame(s, step);
    }
  }

  lemma TickMeasure(s: State)
    requires Enabled(s, Tick) && TicksLeft(s) > 0
    ensures Measure(Apply(s, Tick)) < Measure(s)
  {
  }

  lemma WatcherMeasure(s: State, step: Step)
    requires Enabled(s, step)
    requires step.WatcherStart? || step.FirstFires? || step.SecondStart? || step.SecondFires? || step.WatcherCancelled?
    ensures Measure(Apply(s, step)) < Measure(s)
  {
    match step
    case WatcherStart =>
    case FirstFires =>
    case SecondStart =>
    case SecondFires =>
    case WatcherCancelled =>
  }

  lemma ReaperMeasure(s: State, step: Step)
    requires Inv(s) && Enabled(s, step)
    requires step.ReaperStdin? || step.ReaperStdout? || step.WaitReturns? || step.ProcessExit?
    ensures Measure(Apply(s, step)) < Measure(s)
  {
    match step
    case ReaperStdin =>
    case ReaperStdout =>
    case WaitReturns =>
    case ProcessExit =>
  }

  /** Every step lowers the measure, except the idle ones, which leave it alone. */
  lemma StepMeasure(s: State, step: Step)
    requires Inv(s) && Enabled(s, step)
    ensures Idle(s, step) ==> Measure(Apply(s, step)) == Measure(s)
    ensures !Idle(s, step) ==> Measure(Apply(s, step)) < Measure(s)
  {
    if Idle(s, step) {
      IdleStepMeasure(s, step);
    } else if step.Tick? {
      TickMeasure(s);
    } else if step.ReaperStdin? || step.ReaperStdout? || step.WaitReturns? || step.ProcessExit? {
      ReaperMeasure(s, step);
    } else {
      WatcherMeasure(s, step);
    }
  }

  /** The steps of a run that are not idle. */
  function Advances(s: State, steps: seq<Step>): nat
    requires CanRun(s, steps)
    decreases |steps|
  {
    if steps == [] then 0 else (if Idle(s, steps[0]) then 0 else 1) + Advances(Apply(s, steps[0]), steps[1..])
  }

  lemma StaysSignalled(s: State, step: Step)
    requires Inv(s) && Enabled(s, step) && BothSignalled(s)
    ensures BothSignalled(Apply(s, step))
  {
    if step.BeginClose? || step.EndClose? {
      CloseFrame(s, step);
    }
  }

  lemma {:induction false} RunAdvances(s: State, steps: seq<Step>)
    requires Inv(s) && CanRun(s, steps) && BothSignalled(s)
    ensures Inv(After(s, steps)) && BothSignalled(After(s, steps))
    ensures Advances(s, steps) + Measure(After(s, steps)) <= Measure(s)
    decreases |steps|
  {
    if steps != [] {
      StepInv(s, steps[0]);
      StepMeasure(s, steps[0]);
      StaysSignalled(s, steps[0]);
      RunAdvances(Apply(s, steps[0]), steps[1..]);
    }
  }

  /**
   Once both ends are closed, reaper and watcher reach their final states provided a killed process
   exits: however the run goes on, only so many of its steps are not idle, and unless a double close
   has panicked it can stop only with both final; until then a due step is enabled and lowers the measure.
   */
  lemma ReachesTheEnd(before: seq<Step>, after: seq<Step>) returns (next: Option<Step>)
    requires CanRun(Init(), before) && BothSignalled(After(Init(), before))
    requires CanRun(After(Init(), before), after)
    ensures Advances(After(Init(), before), after) <= Measure(After(Init(), before))
    ensures var t := After(After(Init(), before), after);
      && (next.None? ==> t.panicked || Final(t))
      && (next.Some? ==>
            Enabled(t, next.value) && Due(t, next.value) && Measure(Apply(t, next.value)) < Measure(t))
  {
    RunInv(Init(), before);
    var s := After(Init(), before);
    RunAdvances(s, after);
    var t := After(s, after);
    if t.panicked || Final(t) {
      next := None;
    } else {
      var step := NextStep(t);
      StepMeasure(t, step);
      next := Some(step);
    }
  }

  /** So a run that no due step can extend has ended. */
  lemma StopsOnlyFinal(before: seq<Step>, after: seq<Step>)
    requires CanRun(Init(), before) && BothSignalled(After(Init(), before))
    requires CanRun(After(Init(), before), after)
    requires var t := After(After(Init(), before), after);
      !t.panicked && forall step :: Due(t, step) ==> !Enabled(t, step)
    ensures Final(After(After(Init(), before), after))
  {
    var next := ReachesTheEnd(before, after);
  }

  lemma NextStep(s: State) returns (step: Step)
    requires Inv(s) && BothSignalled(s) && !s.panicked && !Final(s)
    ensures Enabled(s, step) && Due(s, step)
  {
    match s.watcher
    case NotStarted => step := if s.reaper.AwaitStdin? then ReaperStdin else ReaperStdout;
    case Starting => step := WatcherStart;
    case FirstTimer(since) => step := if since + TIMEOUT <= s.now then FirstFires else Tick;
    case Terminated => step := SecondStart;
    case SecondTimer(since) => step := if since + TIMEOUT <= s.now then SecondFires else Tick;
    case WatcherDone =>
      if s.alive {
        assert s.signals[1].Kill?;
        step := ProcessExit;
      } else {
        step := WaitReturns;
      }
  }

  // ----- a process that exits by itself -----

  /** Once the process is reaped a watcher in either of its timers need not wait for it, and sends nothing more. */
  lemma ReapedEndsWatcher(steps: seq<Step>)
    requires CanRun(Init(), steps)
    requires var s := After(Init(), steps);
      !s.panicked && s.reaper.Exited? && (s.watcher.FirstTimer? || s.watcher.SecondTimer?)
    ensures var s := After(Init(), steps);
      && Enabled(s, WatcherCancelled)
      && Final(Apply(s, WatcherCancelled)) && Apply(s, WatcherCancelled).signals == s.signals
  {
    RunInv(Init(), steps);
  }

  /** Nothing has been sent to the process, and the first timer, if it runs, has time left. */
  predicate InTime(s: State) {
    && s.signals == []
    && (s.watcher.NotStarted? || s.watcher.Starting? || s.watcher.WatcherDone?
        || (s.watcher.FirstTimer? && s.now < s.watcher.since + 10))
  }

  lemma {:induction false} RunInTime(s: State, steps: seq<Step>)
    requires InTime(s) && CanRun(s, steps) && Tick !in steps
    ensures InTime(After(s, steps))
    decreases |steps|
  {
    if steps != [] {
      assert steps[0] in steps;
      StepInTime(s, steps[0]);
      RunInTime(Apply(s, steps[0]), steps[1..]);
    }
  }

  lemma StepInTime(s: State, step: Step)
    requires InTime(s) && Enabled(s, step) && step != Tick
    ensures InTime(Apply(s, step))
  {
  }

  lemma NextUntimed(s: State) returns (step: Step)
    requires Inv(s) && BothSignalled(s) && InTime(s) && !s.alive && !s.panicked && !Final(s)
    ensures Enabled(s, step) && Due(s, step) && step != Tick
  {
    match s.reaper
    case AwaitStdin => step := ReaperStdin;
    case AwaitStdout => step := ReaperStdout;
    case Waiting => step := WaitReturns;
    case Exited => step := if s.watcher.Starting? then WatcherStart else WatcherCancelled;
  }

  /**
   A process that exits within ten seconds of the start of the first timer is sent nothing: with no further
   tick of the clock, in any run, no signal is sent, and the run can stop only with reaper and watcher done.
   */
  lemma QuickExitIsQuiet(before: seq<Step>, after: seq<Step>)
    requires CanRun(Init(), before) && BothSignalled(After(Init(), before)) && InTime(After(Init(), before))
    requires CanRun(After(Init(), before), after) && Tick !in after
    ensures var t := After(After(Init(), before), after);
      && t.signals == []
      && (!t.alive && !t.panicked && (forall step :: Due(t, step) && step != Tick ==> !Enabled(t, step)) ==> Final(t))
  {
    var s := After(Init(), before);
    RunInv(Init(), before);
    RunAdvances(s, after);
    RunInTime(s, after);
    var t := After(s, after);
    if !t.alive && !t.panicked && !Final(t) {
      var step := NextUntimed(t);
    }
  }
}
