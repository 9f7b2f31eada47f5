/** What one attached reader that stops reading does to the stdin fan-out, and what else can stop it. */
module FanoutStall {
  import opened Bytes
  import opened FanoutSystem
  import opened FanoutTheorems

  /** `Write` is inside its write to the pipe of a reader that is open and holds back: the mutex is held. */
  predicate StalledOn(s: State, id: nat) {
    && s.locked && s.pc.Delivering? && s.pc.rest != []
    && s.pc.next < |s.writers| && s.writers[s.pc.next] == id
    && id < |s.pipes| && s.pipes[id].stage.Returned? && !Broken(s.pipes[id])
  }

  /** Everything others depend on is as it was: no chunk further, nobody new, nothing received. */
  ghost predicate Standstill(s: State, t: State) {
    && t.pc == s.pc && t.done == s.done && t.locked == s.locked && t.writers == s.writers && |t.pipes| == |s.pipes|
    && forall x :: 0 <= x < |s.pipes| ==> t.pipes[x].received == s.pipes[x].received
  }

  lemma StallStep(input: seq<Chunk>, s: State, step: Step, id: nat)
    requires StalledOn(s, id) && Enabled(input, s, step)
    requires step != ReaderClose(id) && !(step.ReaderRead? && step.id == id)
    ensures StalledOn(Apply(input, s, step), id) && Standstill(s, Apply(input, s, step))
  {
    forall x | 0 <= x < |s.pipes|
      ensures x < |Apply(input, s, step).pipes|
      ensures Apply(input, s, step).pipes[x].received == s.pipes[x].received
    {
      PipeFrame(input, s, step, x);
    }
  }

  /** A step of the reader that holds everybody up. */
  predicate Resumes(step: Step, id: nat) {
    step == ReaderClose(id) || (step.ReaderRead? && step.id == id)
  }

  /**
   Until that reader reads or closes, nothing anyone does has an effect on the others: no chunk is
   delivered, no byte received by any reader, and no `Tee` gets to append.
   */
  lemma {:induction false} StallIsPermanent(input: seq<Chunk>, s: State, steps: seq<Step>, id: nat)
    requires StalledOn(s, id) && CanRun(input, s, steps)
    requires forall step :: step in steps ==> !Resumes(step, id)
    ensures StalledOn(After(input, s, steps), id) && Standstill(s, After(input, s, steps))
    decreases |steps|
  {
    if steps != [] {
      assert !Resumes(steps[0], id) by { assert steps[0] in steps; }
      StallStep(input, s, steps[0], id);
      StallIsPermanent(input, Apply(input, s, steps[0]), steps[1..], id);
    }
  }

  /** But it can always read any part of what is offered; and after the last of it the loop goes on and keeps it. */
  lemma ReadEndsStall(input: seq<Chunk>, s: State, id: nat, n: nat)
    requires Inv(input, s) && StalledOn(s, id) && 1 <= n <= |s.pc.rest|
    ensures Enabled(input, s, ReaderRead(id, n))
    ensures var t := Apply(input, s, ReaderRead(id, n));
      && t.pipes[id].received == s.pipes[id].received + s.pc.rest[..n]
      && (n < |s.pc.rest| ==> StalledOn(t, id))
      && (n == |s.pc.rest| ==> Enabled(input, t, WriteReturn))
      && (n == |s.pc.rest| ==>
            Apply(input, t, WriteReturn).pc == Delivering(s.pc.next + 1, s.pc.open + [id], input[s.done]))
  {
  }

  /** And it can always close, and then the loop goes on without it. */
  lemma CloseEndsStall(input: seq<Chunk>, s: State, id: nat)
    requires Inv(input, s) && StalledOn(s, id)
    ensures Enabled(input, s, ReaderClose(id))
    ensures Enabled(input, Apply(input, s, ReaderClose(id)), WriteFail)
    ensures Apply(input, Apply(input, s, ReaderClose(id)), WriteFail).pc ==
      Delivering(s.pc.next + 1, s.pc.open, input[s.done])
  {
  }

  /** Whatever the input, a single reader is enough: it has its pipe, and does not read the first chunk. */
  lemma ReaderCanStall(input: seq<Chunk>) returns (steps: seq<Step>)
    requires input != []
    ensures CanRun(input, Init(), steps) && StalledOn(After(input, Init(), steps), 0)
  {
    steps := OneReader(input);
    RunSnoc(input, Init(), steps, WriteLock);
    steps := steps + [WriteLock];
    RunSnoc(input, Init(), steps, WriteCheck);
    steps := steps + [WriteCheck];
  }

  lemma OneReader(input: seq<Chunk>) returns (steps: seq<Step>)
    ensures CanRun(input, Init(), steps)
    ensures After(input, Init(), steps) ==
      Init().(writers := [0], pipes := [Pipe(Returned, 0, [], false, false, false)])
  {
    steps := [];
    RunSnoc(input, Init(), steps, TeeAppend);
    steps := steps + [TeeAppend];
    RunSnoc(input, Init(), steps, TeeSend(0));
    steps := steps + [TeeSend(0)];
    RunSnoc(input, Init(), steps, TeeReturn(0));
    steps := steps + [TeeReturn(0)];
  }

  // ----- all that can stop it -----

  /** A step of the producer or of a `Tee` under way: what the program does without any reader's help. */
  predicate OfProgram(step: Step) {
    Internal(step) && !step.ReaderRead?
  }

  ghost predicate AllReturned(s: State) {
    forall id :: 0 <= id < |s.pipes| ==> s.pipes[id].stage.Returned?
  }

  /** The end of the input; nobody attached yet; a lost wake-up; or a reader that holds back. */
  ghost predicate Halted(s: State) {
    s.pc.Exited? || (s.pc.Parked? && s.writers == []) || Lost(s) || exists id :: StalledOn(s, id)
  }

  lemma NextOfProgram(input: seq<Chunk>, s: State) returns (step: Step)
    requires Inv(input, s) && !Halted(s)
    ensures OfProgram(step) && Enabled(input, s, step)
  {
    step := NextInternal(input, s);
    assert step.ReaderRead? ==> StalledOn(s, step.id);
  }

  /**
   The exact list: in a reachable state nothing of the program can move if and only if no `Tee` is under way
   and the fan-out is halted.
   */
  lemma HaltsExactly(input: seq<Chunk>, steps: seq<Step>)
    requires CanRun(input, Init(), steps)
    ensures var s := After(input, Init(), steps);
      (forall step :: OfProgram(step) ==> !Enabled(input, s, step)) <==> AllReturned(s) && Halted(s)
  {
    InitInv(input);
    RunInv(input, Init(), steps);
    var s := After(input, Init(), steps);
    if AllReturned(s) && Halted(s) {
      forall step | OfProgram(step) ensures !Enabled(input, s, step) {
        HaltedStays(input, s, step);
      }
    } else if AllReturned(s) {
      var step := NextOfProgram(input, s);
    } else {
      var id: nat :| id < |s.pipes| && !s.pipes[id].stage.Returned?;
      var step := if s.pipes[id].stage.Appended? then TeeSend(id) else TeeReturn(id);
      assert OfProgram(step) && Enabled(input, s, step);
    }
  }

  lemma HaltedStays(input: seq<Chunk>, s: State, step: Step)
    requires Inv(input, s) && AllReturned(s) && Halted(s) && OfProgram(step)
    ensures !Enabled(input, s, step)
  {
  }
}
