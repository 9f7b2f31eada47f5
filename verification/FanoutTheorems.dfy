/** What every run of the stdin fan-out keeps, and exactly when it loses a wake-up. */
module FanoutTheorems {
  import opened Bytes
  import opened FanoutSystem

  lemma StepInv(input: seq<Chunk>, s: State, step: Step)
    requires Inv(input, s) && Enabled(input, s, step)
    ensures Inv(input, Apply(input, s, step))
  {
    StepControl(input, s, step);
    StepLists(input, s, step);
    StepOrdered(input, s, step);
    StepAttached(input, s, step);
    StepContents(input, s, step);
    StepWakes(input, s, step);
    StepClosedSoFar(input, s, step);
  }

  lemma {:induction false} RunInv(input: seq<Chunk>, s: State, steps: seq<Step>)
    requires Inv(input, s) && CanRun(input, s, steps)
    ensures Inv(input, After(input, s, steps))
    decreases |steps|
  {
    if steps != [] {
      StepInv(input, s, steps[0]);
      RunInv(input, Apply(input, s, steps[0]), steps[1..]);
    }
  }

  // ----- delivery -----

  /**
   In every reachable state, a reader attached after k delivery loops has received a prefix of
   chunks k, k+1, ...; when the mutex is free and it is open, or closed but not yet pruned, it has
   received exactly the chunks delivered since; and when it has seen EOF it has received the whole
   remaining input. An open reader is never pruned.
   */
  lemma SuffixDelivery(input: seq<Chunk>, steps: seq<Step>, id: nat)
    requires CanRun(input, Init(), steps)
    requires id < |After(input, Init(), steps).pipes|
    ensures var s := After(input, Init(), steps);
      var p := s.pipes[id];
      && p.from <= s.done <= |input|
      && p.received <= Concat(input[p.from..])
      && (!p.readerClosed ==> id in s.writers)
      && (!s.locked && id in s.writers ==> p.received == Concat(input[p.from..s.done]))
      && (p.sawEof ==> p.received == Concat(input[p.from..]))
  {
    InitInv(input);
    RunInv(input, Init(), steps);
    var s := After(input, Init(), steps);
    var p := s.pipes[id];
    assert input[p.from..] == input[p.from..|input|];
    SpanIsConcat(input, p.from, |input|);
    SpanIsConcat(input, p.from, s.done);
  }

  /** A step never takes back, reorders or rewrites what a reader has received. */
  lemma ReceivedOnlyGrows(input: seq<Chunk>, s: State, step: Step, id: nat)
    requires Enabled(input, s, step) && id < |s.pipes|
    ensures id < |Apply(input, s, step).pipes|
    ensures s.pipes[id].received <= Apply(input, s, step).pipes[id].received
    ensures s.pipes[id].received != Apply(input, s, step).pipes[id].received ==>
      step.ReaderRead? && step.id == id
  {
    PipeFrame(input, s, step, id);
  }

  /**
   A delivery loop that other threads interleave with ends like the sequential one of `Fanout.Write`
   (compare `WriteOutcome` there): each attached reader took some first part of the chunk, a pipe whose
   reader took less has closed, and the new list is the old one, in order, without exactly those.
   */
  lemma FinishPrunes(input: seq<Chunk>, s: State) returns (took: seq<nat>)
    requires Inv(input, s) && Enabled(input, s, WriteFinish)
    ensures |took| == |s.writers|
    ensures var t := Apply(input, s, WriteFinish);
      && t.writers == Survivors(s.writers, TookAll(took, |input[s.done]|))
      && t.done == s.done + 1
    ensures forall j :: 0 <= j < |took| ==> TookOf(input, s, s.writers[j], took[j])
  {
    assert s.writers[..s.pc.next] == s.writers;
    var keep: seq<bool> :| |keep| == |s.writers| && s.pc.open == Survivors(s.writers, keep);
    took := seq(|s.writers|, j requires 0 <= j < |s.writers| => TookCount(input, s, s.writers[j]));
    forall j | 0 <= j < |took|
      ensures TookOf(input, s, s.writers[j], took[j]) && (took[j] == |input[s.done]| <==> keep[j])
    {
      TakenAt(input, s, keep, j);
    }
    TookAllIs(took, |input[s.done]|, keep);
  }

  lemma TookAllIs(took: seq<nat>, n: nat, keep: seq<bool>)
    requires |took| == |keep| && forall j :: 0 <= j < |took| ==> (took[j] == n <==> keep[j])
    ensures TookAll(took, n) == keep
  {
  }

  /** The pipe's reader has got all earlier chunks since it was attached and n bytes of the current one. */
  ghost predicate TookOf(input: seq<Chunk>, s: State, id: nat, n: nat) {
    && id < |s.pipes| && s.pipes[id].from <= s.done < |input| && n <= |input[s.done]|
    && s.pipes[id].received == Concat(input[s.pipes[id].from..s.done]) + input[s.done][..n]
    && (n < |input[s.done]| ==> s.pipes[id].readerClosed)
  }

  ghost function TookCount(input: seq<Chunk>, s: State, id: nat): nat {
    if id < |s.pipes| && s.pipes[id].from <= s.done <= |input| then
      var base := Span(input, s.pipes[id].from, s.done);
      if |base| <= |s.pipes[id].received| then |s.pipes[id].received| - |base| else 0
    else 0
  }

  /** What the reader of the j-th attached pipe took of the chunk just delivered. */
  lemma TakenAt(input: seq<Chunk>, s: State, keep: seq<bool>, j: nat)
    requires Lists(s) && Contents(input, s) && Enabled(input, s, WriteFinish)
    requires |keep| == |s.writers| && s.pc.open == Survivors(s.writers, keep) && j < |keep|
    ensures var n := TookCount(input, s, s.writers[j]);
      TookOf(input, s, s.writers[j], n) && (n == |input[s.done]| <==> keep[j])
  {
    var w := s.writers[j];
    SurvivorsAreFlagged(s.writers, keep, j);
    assert s.writers[..s.pc.next] == s.writers && w in s.writers;
    assert InStep(input, s, w);
    var base := Span(input, s.pipes[w].from, s.done);
    SpanIsConcat(input, s.pipes[w].from, s.done);
    PartOf(base, input[s.done], s.pipes[w].received);
  }

  lemma PartOf(base: Bytes, chunk: Bytes, received: Bytes)
    requires base <= received && received <= base + chunk
    ensures |received| - |base| <= |chunk| && received == base + chunk[..|received| - |base|]
    ensures |received| - |base| == |chunk| <==> received == base + chunk
  {
  }

  /** `Write` never runs its delivery loop over an empty list, and never finds the fan-out closed. */
  lemma WakeFindsWriters(input: seq<Chunk>, steps: seq<Step>)
    requires CanRun(input, Init(), steps)
    ensures var s := After(input, Init(), steps);
      && (s.pc.Woken? || s.pc.Delivering? ==> s.writers != [])
      && !(s.pc.Checking? && s.closed)
      && !s.pc.Stopped?
  {
    InitInv(input);
    RunInv(input, Init(), steps);
  }

  // ----- the end of the input -----

  /** `Close` has closed the pipe already or is still to do it. */
  predicate WillEnd(s: State, id: nat) {
    id < |s.pipes| && (s.pc.Exited? ==> s.pipes[id].writerClosed)
  }

  lemma StaysOpen(input: seq<Chunk>, s: State, step: Step, id: nat)
    requires Enabled(input, s, step) && id < |s.pipes|
    ensures var t := Apply(input, s, step);
      && id < |t.pipes| && t.pipes[id].from == s.pipes[id].from
      && t.pipes[id].readerClosed == (s.pipes[id].readerClosed || step == ReaderClose(id))
  {
    PipeFrame(input, s, step, id);
    match step
    case TeeAppend =>
    case CloseOne =>
    case TeeSend(_) =>
    case TeeReturn(_) =>
    case ReaderRead(_, _) =>
    case ReaderClose(_) =>
    case ReaderEof(_) =>
    case _ =>
  }

  lemma EndStep(input: seq<Chunk>, s: State, step: Step, id: nat)
    requires Inv(input, s) && Enabled(input, s, step) && WillEnd(s, id) && !s.pipes[id].readerClosed
    ensures WillEnd(Apply(input, s, step), id)
  {
    CloseFrame(input, s, step, id);
    if step.CloseFinish? {
      assert id in s.writers;
      var j: nat :| j < |s.writers| && s.writers[j] == id;
      assert s.pipes[s.writers[j]].writerClosed;
    }
  }

  lemma {:induction false} EndRun(input: seq<Chunk>, s: State, steps: seq<Step>, id: nat)
    requires Inv(input, s) && CanRun(input, s, steps) && WillEnd(s, id)
    requires !s.pipes[id].readerClosed && ReaderClose(id) !in steps
    ensures var t := After(input, s, steps);
      && Inv(input, t) && WillEnd(t, id)
      && !t.pipes[id].readerClosed && t.pipes[id].from == s.pipes[id].from
    decreases |steps|
  {
    if steps != [] {
      assert steps[0] in steps;
      StepInv(input, s, steps[0]);
      StaysOpen(input, s, steps[0], id);
      EndStep(input, s, steps[0], id);
      EndRun(input, Apply(input, s, steps[0]), steps[1..], id);
    }
  }

  /**
   Whatever happens on the way: when the producer is through, every reader attached before `Close` that
   has not closed can see EOF as soon as its `Tee` has returned, and has received its whole suffix.
   */
  lemma CloseEndsReaders(input: seq<Chunk>, before: seq<Step>, after: seq<Step>, id: nat)
    requires CanRun(input, Init(), before) && CanRun(input, After(input, Init(), before), after)
    requires var s := After(input, Init(), before);
      !s.pc.Exited? && id < |s.pipes| && !s.pipes[id].readerClosed && ReaderClose(id) !in after
    requires After(input, After(input, Init(), before), after).pc.Exited?
    ensures var s, t := After(input, Init(), before), After(input, After(input, Init(), before), after);
      && id < |t.pipes| && t.pipes[id].writerClosed && s.pipes[id].from <= |input|
      && t.pipes[id].received == Concat(input[s.pipes[id].from..])
      && (t.pipes[id].stage.Returned? ==>
            Enabled(input, t, ReaderEof(id)) && Apply(input, t, ReaderEof(id)).pipes[id].sawEof)
  {
    var s := After(input, Init(), before);
    InitInv(input);
    RunInv(input, Init(), before);
    EndRun(input, s, after, id);
    HasSuffix(input, After(input, s, after), id);
  }

  /** Nobody is left to serve or close the pipe of this reader. */
  ghost predicate TooLate(s: State, id: nat) {
    && s.pc.Exited? && id < |s.pipes|
    && s.pipes[id].received == [] && !s.pipes[id].writerClosed && !s.pipes[id].sawEof
  }

  lemma LateStep(input: seq<Chunk>, s: State, step: Step, id: nat)
    requires Enabled(input, s, step) && TooLate(s, id)
    ensures TooLate(Apply(input, s, step), id)
  {
    PipeFrame(input, s, step, id);
    CloseFrame(input, s, step, id);
  }

  lemma {:induction false} LateRun(input: seq<Chunk>, s: State, steps: seq<Step>, id: nat)
    requires CanRun(input, s, steps) && TooLate(s, id)
    ensures TooLate(After(input, s, steps), id)
    decreases |steps|
  {
    if steps != [] {
      LateStep(input, s, steps[0], id);
      LateRun(input, Apply(input, s, steps[0]), steps[1..], id);
    }
  }

  /** A `Tee` can still append after `Close`, and its reader then never gets anything, not even EOF. */
  lemma LateReaderWaitsForever(input: seq<Chunk>, s: State, steps: seq<Step>)
    requires Inv(input, s) && s.pc.Exited?
    requires Enabled(input, s, TeeAppend) ==> CanRun(input, Apply(input, s, TeeAppend), steps)
    ensures Enabled(input, s, TeeAppend)
    ensures TooLate(After(input, Apply(input, s, TeeAppend), steps), |s.pipes|)
  {
    LateRun(input, Apply(input, s, TeeAppend), steps, |s.pipes|);
  }

  // ----- wake-ups -----

  /** No `Tee` is between its append and its send. */
  ghost predicate AllSent(s: State) {
    forall id :: 0 <= id < |s.pipes| ==> !s.pipes[id].stage.Appended?
  }

  /** The producer is parked although readers are attached, and nobody is about to wake it. */
  ghost predicate Lost(s: State) {
    s.pc.Parked? && s.writers != [] && AllSent(s)
  }

  /** Some `Tee` of the run does its send while the producer is between io.go:75 and the receive. */
  ghost predicate SendsInWindow(input: seq<Chunk>, s: State, steps: seq<Step>)
    requires CanRun(input, s, steps)
    decreases |steps|
  {
    steps != [] &&
    ((steps[0].TeeSend? && s.pc.Unlocked?) || SendsInWindow(input, Apply(input, s, steps[0]), steps[1..]))
  }

  lemma {:induction false} MissedNeedsWindow(input: seq<Chunk>, s: State, steps: seq<Step>)
    requires CanRun(input, s, steps) && !s.missed
    requires !SendsInWindow(input, s, steps)
    ensures !After(input, s, steps).missed
    decreases |steps|
  {
    if steps != [] {
      MissedNeedsWindow(input, Apply(input, s, steps[0]), steps[1..]);
    }
  }

  /** If no `Tee` sends inside the window, a parked `Write` with readers always has a `Tee` about to wake it. */
  lemma NoWindowSendNoLoss(input: seq<Chunk>, steps: seq<Step>)
    requires CanRun(input, Init(), steps)
    requires !SendsInWindow(input, Init(), steps)
    ensures var s := After(input, Init(), steps);
      s.pc.Parked? && s.writers != [] ==> exists id :: 0 <= id < |s.pipes| && s.pipes[id].stage.Appended?
  {
    InitInv(input);
    RunInv(input, Init(), steps);
    MissedNeedsWindow(input, Init(), steps);
    var s := After(input, Init(), steps);
    if s.pc.Parked? && s.writers != [] {
      assert !SentAt(s, 0);
    }
  }

  /**
   In a reachable state the wake-up is lost exactly if a send fell into this `Write`'s window and no `Tee`
   is unsent.
   */
  lemma LostExactly(input: seq<Chunk>, steps: seq<Step>)
    requires CanRun(input, Init(), steps)
    ensures var s := After(input, Init(), steps);
      Lost(s) <==> s.pc.Parked? && s.missed && AllSent(s)
  {
    InitInv(input);
    RunInv(input, Init(), steps);
    var s := After(input, Init(), steps);
    if Lost(s) {
      assert SentAt(s, 0);
    }
  }

  lemma StagesKept(input: seq<Chunk>, s: State, step: Step)
    requires Enabled(input, s, step) && !step.TeeAppend? && !step.TeeSend?
    ensures AllSent(Apply(input, s, step)) == AllSent(s)
  {
    var t := Apply(input, s, step);
    assert forall id :: 0 <= id < |s.pipes| ==> t.pipes[id].stage.Appended? == s.pipes[id].stage.Appended?;
  }

  /**
   The only step that loses the wake-up is the receive itself, and exactly when the guard below holds before
   it.
   */
  lemma LossHappensAtPark(input: seq<Chunk>, s: State, step: Step)
    requires Enabled(input, s, step) && !Lost(s)
    ensures Lost(Apply(input, s, step)) <==> step.Park? && s.writers != [] && AllSent(s)
  {
    if step.TeeAppend? {
      assert Apply(input, s, step).pipes[|s.pipes|].stage.Appended?;
    } else if !step.TeeSend? {
      StagesKept(input, s, step);
    }
  }

  lemma {:induction false} RunSnoc(input: seq<Chunk>, s: State, steps: seq<Step>, last: Step)
    requires CanRun(input, s, steps) && Enabled(input, After(input, s, steps), last)
    ensures CanRun(input, s, steps + [last])
    ensures After(input, s, steps + [last]) == Apply(input, After(input, s, steps), last)
    decreases |steps|
  {
    if steps == [] {
      assert [last][1..] == [];
    } else {
      assert (steps + [last])[0] == steps[0] && (steps + [last])[1..] == steps[1..] + [last];
      RunSnoc(input, Apply(input, s, steps[0]), steps[1..], last);
    }
  }

  /** `Write` finds no writers and leaves the mutex. */
  lemma WriteLeavesMutex(input: seq<Chunk>) returns (steps: seq<Step>)
    requires input != []
    ensures CanRun(input, Init(), steps)
    ensures After(input, Init(), steps) == Init().(pc := Unlocked)
  {
    steps := [];
    RunSnoc(input, Init(), steps, WriteLock);
    steps := steps + [WriteLock];
    RunSnoc(input, Init(), steps, WriteCheck);
    steps := steps + [WriteCheck];
  }

  /**
   Whatever the input, there is a run that loses the wake-up for its first chunk, with the reader in its
   caller's hands.
   */
  lemma WakeUpCanBeLost(input: seq<Chunk>) returns (steps: seq<Step>)
    requires input != []
    ensures CanRun(input, Init(), steps) && Lost(After(input, Init(), steps))
    ensures After(input, Init(), steps).pipes == [Pipe(Returned, 0, [], false, false, false)]
  {
    steps := WriteLeavesMutex(input);
    RunSnoc(input, Init(), steps, TeeAppend);
    steps := steps + [TeeAppend];
    RunSnoc(input, Init(), steps, TeeSend(0));
    steps := steps + [TeeSend(0)];
    RunSnoc(input, Init(), steps, TeeReturn(0));
    steps := steps + [TeeReturn(0)];
    RunSnoc(input, Init(), steps, Park);
    steps := steps + [Park];
  }

  lemma LostStep(input: seq<Chunk>, s: State, step: Step)
    requires Control(input, s) && Lost(s) && Enabled(input, s, step) && !step.TeeAppend?
    ensures var t := Apply(input, s, step);
      && Control(input, t) && Lost(t) && t.done == s.done && t.writers == s.writers && |t.pipes| == |s.pipes|
      && forall id :: 0 <= id < |s.pipes| ==> t.pipes[id].received == s.pipes[id].received
  {
    var t := Apply(input, s, step);
    StagesKept(input, s, step);
    forall id | 0 <= id < |s.pipes| ensures t.pipes[id].received == s.pipes[id].received {
      PipeFrame(input, s, step, id);
    }
  }

  /**
   A lost wake-up is permanent: until a further `Tee` appends, nothing any thread does lets a single byte
   through.
   */
  lemma {:induction false} LostIsPermanent(input: seq<Chunk>, s: State, steps: seq<Step>)
    requires Control(input, s) && Lost(s) && CanRun(input, s, steps)
    requires TeeAppend !in steps
    ensures var t := After(input, s, steps);
      && Lost(t) && t.done == s.done && t.writers == s.writers && |t.pipes| == |s.pipes|
      && forall id :: 0 <= id < |s.pipes| ==> t.pipes[id].received == s.pipes[id].received
    decreases |steps|
  {
    if steps != [] {
      assert steps[0] in steps;
      LostStep(input, s, steps[0]);
      LostIsPermanent(input, Apply(input, s, steps[0]), steps[1..]);
    }
  }

  /** A step of the producer, of a `Tee` under way, or a read by an attached reader. */
  predicate Internal(step: Step) {
    !(step.TeeAppend? || step.ReaderClose? || step.ReaderEof?)
  }

  /**
   As long as attached readers go on reading, the lost wake-up is the only way the fan-out stops, apart
   from waiting for its first reader: in every reachable state that is neither the end of the input, nor a
   producer parked with no writers, nor a lost wake-up, some internal step is enabled, and this is one.
   `FanoutStall` has what happens when a reader stops.
   */
  lemma OnlyStopsParked(input: seq<Chunk>, steps: seq<Step>) returns (step: Step)
    requires CanRun(input, Init(), steps)
    requires var s := After(input, Init(), steps);
      !s.pc.Exited? && !(s.pc.Parked? && s.writers == []) && !Lost(s)
    ensures Internal(step) && Enabled(input, After(input, Init(), steps), step)
  {
    InitInv(input);
    RunInv(input, Init(), steps);
    step := NextInternal(input, After(input, Init(), steps));
  }

  lemma NextInternal(input: seq<Chunk>, s: State) returns (step: Step)
    requires Inv(input, s)
    requires !s.pc.Exited? && !(s.pc.Parked? && s.writers == []) && !Lost(s)
    ensures Internal(step) && Enabled(input, s, step)
  {
    match s.pc {
      case Copying => step := if s.done < |input| then WriteLock else CloseLock;
      case Checking => step := WriteCheck;
      case Unlocked => step := Park;
      case Parked =>
        var id: nat :| id < |s.pipes| && s.pipes[id].stage.Appended?;
        step := TeeSend(id);
      case Woken => step := Relock;
      case Delivering(next, open, rest) => step := NextDelivery(s);
      case Closing(next) => step := if next < |s.writers| then CloseOne else CloseFinish;
    }
  }

  lemma NextDelivery(s: State) returns (step: Step)
    requires s.pc.Delivering? && Lists(s)
    ensures Internal(step)
    ensures forall input: seq<Chunk> :: s.done < |input| ==> Enabled(input, s, step)
  {
    if s.pc.next == |s.writers| {
      return WriteFinish;
    }
    var id := s.writers[s.pc.next];
    if s.pc.rest == [] {
      step := WriteReturn;
    } else if Broken(s.pipes[id]) {
      step := WriteFail;
    } else {
      match s.pipes[id].stage
      case Appended => step := TeeSend(id);
      case Sent => step := TeeReturn(id);
      case Returned => step := ReaderRead(id, 1);
    }
  }

  // ----- progress -----

  /** Steps the `Tee` calls under way still have to take. */
  function Unfinished(pipes: seq<Pipe>): nat {
    if pipes == [] then 0
    else
      var n := |pipes| - 1;
      Unfinished(pipes[..n]) + match pipes[n].stage { case Appended => 2 case Sent => 1 case Returned => 0 }
  }

  lemma {:induction false} UnfinishedUpdate(pipes: seq<Pipe>, id: nat, p: Pipe)
    requires id < |pipes|
    ensures p.stage == pipes[id].stage ==> Unfinished(pipes[id := p]) == Unfinished(pipes)
    ensures pipes[id].stage.Appended? && p.stage.Sent? ==> Unfinished(pipes[id := p]) < Unfinished(pipes)
    ensures pipes[id].stage.Sent? && p.stage.Returned? ==> Unfinished(pipes[id := p]) < Unfinished(pipes)
  {
    var n := |pipes| - 1;
    if id < n {
      assert pipes[id := p][..n] == pipes[..n][id := p];
      UnfinishedUpdate(pipes[..n], id, p);
    } else {
      assert pipes[id := p][..n] == pipes[..n];
    }
  }

  function Phase(pc: Producer): nat {
    match pc
    case Copying => 8
    case Checking => 7
    case Unlocked => 6
    case Parked => 5
    case Woken => 4
    case Delivering(_, _, _) => 3
    case Stopped => 2
    case Closing(_) => 1
    case Exited => 0
  }

  function WritersLeft(s: State): int {
    if s.pc.Delivering? || s.pc.Closing? then |s.writers| - s.pc.next else 0
  }

  function RestLeft(s: State): nat {
    if s.pc.Delivering? then |s.pc.rest| else 0
  }

  /**
   The lexicographic order of chunks to deliver, phase, writers to serve, bytes to read and `Tee` steps to
   take.
   */
  ghost predicate Lower(input: seq<Chunk>, t: State, s: State) {
    || t.done > s.done
    || (t.done == s.done &&
        (|| Phase(t.pc) < Phase(s.pc)
         || (Phase(t.pc) == Phase(s.pc) &&
             (|| WritersLeft(t) < WritersLeft(s)
              || (WritersLeft(t) == WritersLeft(s) &&
                  (|| RestLeft(t) < RestLeft(s)
                   || (RestLeft(t) == RestLeft(s) && Unfinished(t.pipes) < Unfinished(s.pipes))))))))
  }

  /** Every internal step, whichever it is, brings the fan-out closer to stopping. */
  lemma InternalStepsRunOut(input: seq<Chunk>, s: State, step: Step)
    requires Control(input, s) && Lists(s) && Enabled(input, s, step) && Internal(step)
    ensures Lower(input, Apply(input, s, step), s)
  {
    match step {
      case TeeSend(id) => UnfinishedUpdate(s.pipes, id, s.pipes[id].(stage := Sent));
      case TeeReturn(id) => UnfinishedUpdate(s.pipes, id, s.pipes[id].(stage := Returned));
      case _ =>
    }
  }

  /** The producer cannot be on its way into a wait: it is not inside the window, and no wake-up is lost. */
  ghost predicate Running(s: State) {
    !s.pc.Unlocked? && !Lost(s)
  }

  /** Whatever anyone does, as long as one reader stays open. */
  lemma StaysRunning(input: seq<Chunk>, s: State, step: Step, id: nat)
    requires Inv(input, s) && Enabled(input, s, step) && Running(s)
    requires id < |s.pipes| && !s.pipes[id].readerClosed && step != ReaderClose(id)
    ensures var t := Apply(input, s, step);
      Running(t) && id < |t.pipes| && !t.pipes[id].readerClosed && t.pipes[id].from == s.pipes[id].from
    ensures WillEnd(s, id) ==> WillEnd(Apply(input, s, step), id)
  {
    assert id in s.writers;
    LossHappensAtPark(input, s, step);
    StaysOpen(input, s, step, id);
    if WillEnd(s, id) {
      EndStep(input, s, step, id);
    }
  }

  /**
   The end of the input, with everything from the reader's first chunk on received; and the reader gets
   EOF once its `Tee` has returned, unless that had appended only after `Close`.
   */
  predicate Delivered(input: seq<Chunk>, s: State, reader: nat, t: State)
    requires reader < |s.pipes|
  {
    && t.pc.Exited? && t.done == |input|
    && s.pipes[reader].from <= |input|
    && reader < |t.pipes| && t.pipes[reader].received == Concat(input[s.pipes[reader].from..])
    && (WillEnd(s, reader) && t.pipes[reader].stage.Returned? ==> Enabled(input, t, ReaderEof(reader)))
  }

  /** A run of any steps in which the reader is not closed, and which no internal step extends. */
  ghost predicate Exhaustive(input: seq<Chunk>, s: State, steps: seq<Step>, reader: nat) {
    && CanRun(input, s, steps)
    && ReaderClose(reader) !in steps
    && (forall step :: Internal(step) ==> !Enabled(input, After(input, s, steps), step))
  }

  /**
   With one open reader attached and the producer not inside its window, internal steps alone take the
   fan-out to the end of the input, and that reader has then received the whole of its suffix.
   */
  lemma {:induction false} DeliversEverything(input: seq<Chunk>, s: State, id: nat) returns (steps: seq<Step>)
    requires Inv(input, s) && Running(s)
    requires id < |s.pipes| && !s.pipes[id].readerClosed
    ensures forall step :: step in steps ==> Internal(step)
    ensures CanRun(input, s, steps)
    ensures Delivered(input, s, id, After(input, s, steps))
    decreases |input| - s.done, Phase(s.pc), WritersLeft(s), RestLeft(s), Unfinished(s.pipes)
  {
    if s.pc.Exited? {
      steps := [];
      assert id in s.writers;
      HasSuffix(input, s, id);
    } else {
      assert id in s.writers;
      var step := NextInternal(input, s);
      StepInv(input, s, step);
      InternalStepsRunOut(input, s, step);
      StaysRunning(input, s, step, id);
      var rest := DeliversEverything(input, Apply(input, s, step), id);
      steps := [step] + rest;
      assert steps[1..] == rest;
    }
  }

  lemma {:induction false} RunStaysRunning(input: seq<Chunk>, s: State, steps: seq<Step>, id: nat)
    requires Inv(input, s) && Running(s) && CanRun(input, s, steps)
    requires id < |s.pipes| && !s.pipes[id].readerClosed && ReaderClose(id) !in steps
    ensures var t := After(input, s, steps);
      && Inv(input, t) && Running(t)
      && id < |t.pipes| && !t.pipes[id].readerClosed && t.pipes[id].from == s.pipes[id].from
      && (WillEnd(s, id) ==> WillEnd(t, id))
    decreases |steps|
  {
    if steps != [] {
      assert steps[0] in steps;
      StepInv(input, s, steps[0]);
      StaysRunning(input, s, steps[0], id);
      RunStaysRunning(input, Apply(input, s, steps[0]), steps[1..], id);
    }
  }

  /**
   And it is not one lucky schedule: whatever is run, with other `Tee` calls appending and other readers
   closing at will, the internal steps run out (`InternalStepsRunOut`) only at the end of the input,
   with the reader's whole suffix received.
   */
  lemma EveryScheduleDelivers(input: seq<Chunk>, s: State, steps: seq<Step>, id: nat)
    requires Inv(input, s) && Running(s) && Exhaustive(input, s, steps, id)
    requires id < |s.pipes| && !s.pipes[id].readerClosed
    ensures Delivered(input, s, id, After(input, s, steps))
    ensures WillEnd(s, id) ==> Enabled(input, After(input, s, steps), ReaderEof(id))
  {
    RunStaysRunning(input, s, steps, id);
    var t := After(input, s, steps);
    assert id in t.writers;
    if !t.pc.Exited? {
      var step := NextInternal(input, t);
    } else {
      HasSuffix(input, t, id);
      NoTeeLeft(input, t, id);
    }
  }

  lemma NoTeeLeft(input: seq<Chunk>, s: State, id: nat)
    requires id < |s.pipes| && forall step :: Internal(step) ==> !Enabled(input, s, step)
    ensures s.pipes[id].stage.Returned?
  {
    assert Internal(TeeSend(id)) && Internal(TeeReturn(id));
  }

  lemma HasSuffix(input: seq<Chunk>, s: State, id: nat)
    requires Inv(input, s) && s.pc.Exited? && id < |s.pipes| && !s.pipes[id].readerClosed
    ensures s.pipes[id].from <= |input| && s.pipes[id].received == Concat(input[s.pipes[id].from..])
  {
    assert id in s.writers && InStep(input, s, id);
    SpanIsConcat(input, s.pipes[id].from, |input|);
    assert input[s.pipes[id].from..] == input[s.pipes[id].from..|input|];
  }

  /** Waking a parked producer puts the fan-out back to running, with all readers still attached. */
  lemma SendWakes(input: seq<Chunk>, s: State, id: nat)
    requires Inv(input, s) && s.pc.Parked? && Enabled(input, s, TeeSend(id))
    ensures var t := Apply(input, s, TeeSend(id));
      && Inv(input, t) && Running(t) && t.pc.Woken? && t.writers == s.writers && |t.pipes| == |s.pipes|
      && forall r :: 0 <= r < |s.pipes| ==>
          t.pipes[r].from == s.pipes[r].from && t.pipes[r].readerClosed == s.pipes[r].readerClosed && WillEnd(t, r)
  {
    StepInv(input, s, TeeSend(id));
  }

  /**
   The next `Tee` to send after the producer has parked releases it, also when the wake-up was lost
   before: every open reader, whichever `Tee` attached it, then gets its whole suffix by internal steps
   alone, and in every run that leaves it open and goes on as long as an internal step is enabled.
   */
  lemma NextSendReleases(input: seq<Chunk>, s: State, id: nat, reader: nat) returns (steps: seq<Step>)
    requires Inv(input, s) && s.pc.Parked? && Enabled(input, s, TeeSend(id))
    requires reader < |s.pipes| && !s.pipes[reader].readerClosed
    ensures var t := Apply(input, s, TeeSend(id));
      && (forall step :: step in steps ==> Internal(step))
      && CanRun(input, t, steps) && Delivered(input, s, reader, After(input, t, steps))
    ensures forall others :: Exhaustive(input, Apply(input, s, TeeSend(id)), others, reader) ==>
      Delivered(input, s, reader, After(input, Apply(input, s, TeeSend(id)), others))
  {
    var t := Apply(input, s, TeeSend(id));
    SendWakes(input, s, id);
    steps := DeliversEverything(input, t, reader);
    forall others | Exhaustive(input, t, others, reader)
      ensures Delivered(input, s, reader, After(input, t, others))
    {
      EveryScheduleDelivers(input, t, others, reader);
    }
  }
}
