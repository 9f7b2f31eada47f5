/**
 The stdin fan-out as an interleaving of one producer and any number of `Tee` callers and readers.

 The producer is the goroutine of `NewStdIOStreamManager`: it copies a list of chunks into the
 fan-out, one `Write` per chunk, and then calls `Close`. Every other thread is a `Tee` caller,
 identified with the pipe it creates, followed by that pipe's reader. Each constructor of `Step`
 is one atomic action; a run is any sequence of enabled steps.

 Library behaviour taken as given: an `io.Pipe` write returns without error exactly when the reader
 has taken every byte, and with an error once either end is closed; a send on an unbuffered channel
 inside a `select` with a default case happens only if a receiver is already parked.
 */
module FanoutSystem {
  import opened Bytes

  /** `io.Copy` never passes an empty chunk to `Write`. */
  type Chunk = b: Bytes | b != [] witness [0]

  /** How far the `Tee` call that created a pipe has got. */
  datatype Stage = Appended | Sent | Returned

  datatype Pipe = Pipe(
    stage: Stage,
    from: nat,            // number of delivery loops completed when the pipe was attached
    received: Bytes,      // everything its reader has read
    readerClosed: bool,
    writerClosed: bool,
    sawEof: bool)

  datatype Producer =
    | Copying                                                // in io.Copy, between two Writes
    | Checking                                               // io.go:71, mutex held
    | Unlocked                                               // io.go:76, before the receive
    | Parked                                                 // io.go:76, blocked in the receive
    | Woken                                                  // io.go:77
    | Delivering(next: nat, open: seq<nat>, rest: Bytes)     // io.go:80-86, mutex held
    | Stopped                                                // io.Copy has returned an error
    | Closing(next: nat)                                     // io.go:61-63, mutex held
    | Exited

  datatype State = State(
    pc: Producer,
    done: nat,            // completed delivery loops
    locked: bool,
    writers: seq<nat>,
    closed: bool,
    pipes: seq<Pipe>,
    missed: bool)         // history: some Tee sent since the producer last left the mutex at io.go:75

  datatype Step =
    | WriteLock | WriteCheck | Park | Relock | WriteReturn | WriteFail | WriteFinish
    | CloseLock | CloseOne | CloseFinish
    | TeeAppend | TeeSend(id: nat) | TeeReturn(id: nat)
    | ReaderRead(id: nat, n: nat) | ReaderClose(id: nat) | ReaderEof(id: nat)

  function Init(): State {
    State(Copying, 0, false, [], false, [], false)
  }

  predicate Broken(p: Pipe) {
    p.readerClosed || p.writerClosed
  }

  predicate Enabled(input: seq<Chunk>, s: State, step: Step) {
    match step
    case WriteLock => s.pc.Copying? && s.done < |input| && !s.locked
    case WriteCheck => s.pc.Checking? && s.done < |input|
    case Park => s.pc.Unlocked?
    case Relock => s.pc.Woken? && !s.locked && s.done < |input|
    case WriteReturn => s.pc.Delivering? && s.pc.next < |s.writers| && s.pc.rest == [] && s.done < |input|
    case WriteFail =>
      && s.pc.Delivering? && s.pc.next < |s.writers| && s.pc.rest != [] && s.done < |input|
      && s.writers[s.pc.next] < |s.pipes| && Broken(s.pipes[s.writers[s.pc.next]])
    case WriteFinish => s.pc.Delivering? && s.pc.next == |s.writers|
    case CloseLock => ((s.pc.Copying? && s.done == |input|) || s.pc.Stopped?) && !s.locked
    case CloseOne => s.pc.Closing? && s.pc.next < |s.writers| && s.writers[s.pc.next] < |s.pipes|
    case CloseFinish => s.pc.Closing? && s.pc.next == |s.writers|
    case TeeAppend => !s.locked
    case TeeSend(id) => id < |s.pipes| && s.pipes[id].stage.Appended?
    case TeeReturn(id) => id < |s.pipes| && s.pipes[id].stage.Sent?
    case ReaderRead(id, n) =>
      && id < |s.pipes| && s.pipes[id].stage.Returned? && !Broken(s.pipes[id])
      && s.pc.Delivering? && s.pc.next < |s.writers| && s.writers[s.pc.next] == id
      && 1 <= n <= |s.pc.rest|
    case ReaderClose(id) => id < |s.pipes| && s.pipes[id].stage.Returned?
    case ReaderEof(id) =>
      id < |s.pipes| && s.pipes[id].stage.Returned? && !s.pipes[id].readerClosed && s.pipes[id].writerClosed
  }

  function Apply(input: seq<Chunk>, s: State, step: Step): State
    requires Enabled(input, s, step)
  {
    match step
    case WriteLock => s.(pc := Checking, locked := true)
    case WriteCheck =>
      if s.closed then s.(pc := Stopped, locked := false)
      else if s.writers == [] then s.(pc := Unlocked, locked := false, missed := false)
      else s.(pc := Delivering(0, [], input[s.done]))
    case Park => s.(pc := Parked)
    case Relock => s.(pc := Delivering(0, [], input[s.done]), locked := true)
    case WriteReturn => s.(pc := Delivering(s.pc.next + 1, s.pc.open + [s.writers[s.pc.next]], input[s.done]))
    case WriteFail => s.(pc := Delivering(s.pc.next + 1, s.pc.open, input[s.done]))
    case WriteFinish => s.(pc := Copying, done := s.done + 1, locked := false, writers := s.pc.open)
    case CloseLock => s.(pc := Closing(0), locked := true)
    case CloseOne =>
      var id := s.writers[s.pc.next];
      s.(pc := Closing(s.pc.next + 1), pipes := s.pipes[id := s.pipes[id].(writerClosed := true)])
    case CloseFinish => s.(pc := Exited, locked := false, closed := true)
    case TeeAppend =>
      s.(writers := s.writers + [|s.pipes|],
         pipes := s.pipes + [Pipe(Appended, s.done, [], false, false, false)])
    case TeeSend(id) =>
      var sent := s.(pipes := s.pipes[id := s.pipes[id].(stage := Sent)]);
      if s.pc.Parked? then sent.(pc := Woken)
      else sent.(missed := s.missed || s.pc.Unlocked?)
    case TeeReturn(id) => s.(pipes := s.pipes[id := s.pipes[id].(stage := Returned)])
    case ReaderRead(id, n) =>
      s.(pc := s.pc.(rest := s.pc.rest[n..]),
         pipes := s.pipes[id := s.pipes[id].(received := s.pipes[id].received + s.pc.rest[..n])])
    case ReaderClose(id) => s.(pipes := s.pipes[id := s.pipes[id].(readerClosed := true)])
    case ReaderEof(id) => s.(pipes := s.pipes[id := s.pipes[id].(sawEof := true)])
  }

  predicate CanRun(input: seq<Chunk>, s: State, steps: seq<Step>)
    decreases |steps|
  {
    steps == [] || (Enabled(input, s, steps[0]) && CanRun(input, Apply(input, s, steps[0]), steps[1..]))
  }

  function After(input: seq<Chunk>, s: State, steps: seq<Step>): State
    requires CanRun(input, s, steps)
    decreases |steps|
  {
    if steps == [] then s else After(input, Apply(input, s, steps[0]), steps[1..])
  }

  /** The bytes of chunks a..b-1. */
  function Span(input: seq<Chunk>, a: nat, b: nat): Bytes
    requires a <= b <= |input|
  {
    if a == b then [] else Span(input, a, b - 1) + input[b - 1]
  }

  lemma {:induction false} SpanPrefix(input: seq<Chunk>, a: nat, b: nat, c: nat)
    requires a <= b <= c <= |input|
    ensures Span(input, a, b) <= Span(input, a, c)
  {
    if b < c {
      SpanPrefix(input, a, b, c - 1);
      PrefixTrans(Span(input, a, b), Span(input, a, c - 1), Span(input, a, c));
    }
  }

  lemma {:induction false} SpanIsConcat(input: seq<Chunk>, a: nat, b: nat)
    requires a <= b <= |input|
    ensures Span(input, a, b) == Concat(input[a..b])
  {
    if a < b {
      SpanIsConcat(input, a, b - 1);
      assert input[a..b] == input[a..b - 1] + [input[b - 1]];
      ConcatSnoc(input[a..b - 1], input[b - 1]);
    }
  }

  // ----- the invariant -----

  /** A `Write` has been called and has not returned. */
  predicate InWrite(pc: Producer) {
    pc.Checking? || pc.Unlocked? || pc.Parked? || pc.Woken? || pc.Delivering?
  }

  ghost predicate Control(input: seq<Chunk>, s: State) {
    && s.done <= |input|
    && (InWrite(s.pc) ==> s.done < |input|)
    && !s.pc.Stopped?
    && (s.pc.Closing? || s.pc.Exited? ==> s.done == |input|)
    && (s.locked <==> s.pc.Checking? || s.pc.Delivering? || s.pc.Closing?)
    && (s.closed <==> s.pc.Exited?)
    && (s.pc.Delivering? || s.pc.Closing? ==> s.pc.next <= |s.writers|)
  }

  /** `kept` is `ws` with some elements left out. */
  ghost predicate IsPruned(ws: seq<nat>, kept: seq<nat>) {
    exists keep: seq<bool> :: |keep| == |ws| && kept == Survivors(ws, keep)
  }

  lemma PrunedSnoc(ws: seq<nat>, kept: seq<nat>, w: nat)
    requires IsPruned(ws, kept)
    ensures IsPruned(ws + [w], kept + [w]) && IsPruned(ws + [w], kept)
  {
    var keep: seq<bool> :| |keep| == |ws| && kept == Survivors(ws, keep);
    var n := |ws|;
    assert (ws + [w])[..n] == ws && (keep + [true])[..n] == keep && (keep + [false])[..n] == keep;
    assert Survivors(ws + [w], keep + [true]) == kept + [w];
    assert Survivors(ws + [w], keep + [false]) == kept;
  }

  ghost predicate Lists(s: State) {
    && (forall i :: 0 <= i < |s.writers| ==> s.writers[i] < |s.pipes|)
    && Distinct(s.writers)
    && (s.pc.Delivering? ==>
          && s.pc.next <= |s.writers|
          && (forall i :: 0 <= i < |s.pc.open| ==> s.pc.open[i] in s.writers[..s.pc.next])
          && Distinct(s.pc.open))
  }

  /** The list being rebuilt keeps the order of the old one. */
  ghost predicate Ordered(s: State)
    requires Lists(s)
  {
    s.pc.Delivering? ==> IsPruned(s.writers[..s.pc.next], s.pc.open)
  }

  /** An open reader is never pruned, and nobody holds the reader of an unfinished `Tee`. */
  ghost predicate Attached(s: State)
    requires Lists(s)
  {
    && (forall id :: 0 <= id < |s.pipes| && !s.pipes[id].readerClosed ==> id in s.writers)
    && (forall id :: 0 <= id < |s.pipes| && !s.pipes[id].stage.Returned? ==> !s.pipes[id].readerClosed)
    && (s.pc.Delivering? ==>
          forall j :: 0 <= j < s.pc.next && !s.pipes[s.writers[j]].readerClosed ==> s.writers[j] in s.pc.open)
    && (forall id :: 0 <= id < |s.pipes| && s.pipes[id].writerClosed ==> s.pc.Closing? || s.pc.Exited?)
    && (forall id :: 0 <= id < |s.pipes| && s.pipes[id].sawEof ==> s.pipes[id].writerClosed)
  }

  /**
   What an attached pipe must hold while `chunk` is delivered, `base` being the chunks before it since the
   pipe was attached: all, some or nothing of it, depending on the loop. The pipes the loop has left out
   are those whose reader closed without taking all of it.
   */
  ghost predicate InDelivery(s: State, id: nat, base: Bytes, chunk: Bytes)
    requires id < |s.pipes| && s.pc.Delivering? && s.pc.next <= |s.writers|
  {
    var p := s.pipes[id];
    if id in s.writers[..s.pc.next] then
      if id in s.pc.open then p.received == base + chunk
      else p.readerClosed && base <= p.received && p.received < base + chunk
    else if s.pc.next < |s.writers| && s.writers[s.pc.next] == id then
      base <= p.received && p.received + s.pc.rest == base + chunk
    else p.received == base
  }

  /** What an attached pipe must hold, whether its reader is still open or not. */
  ghost predicate InStep(input: seq<Chunk>, s: State, id: nat) {
    && id < |s.pipes| && s.pipes[id].from <= s.done <= |input|
    && var base := Span(input, s.pipes[id].from, s.done);
      if s.pc.Delivering? then
        s.done < |input| && s.pc.next <= |s.writers| && InDelivery(s, id, base, input[s.done])
      else s.pipes[id].received == base
  }

  ghost predicate Contents(input: seq<Chunk>, s: State) {
    && s.done <= |input|
    && forall id :: 0 <= id < |s.pipes| ==>
      && s.pipes[id].from <= s.done
      && s.pipes[id].received <= Span(input, s.pipes[id].from, |input|)
      && (id in s.writers ==> InStep(input, s, id))
      && (s.pipes[id].sawEof ==> s.pipes[id].received == Span(input, s.pipes[id].from, |input|))
  }

  /** The `Tee` of the j-th attached pipe is past its send. */
  predicate SentAt(s: State, j: nat) {
    j < |s.writers| && s.writers[j] < |s.pipes| && !s.pipes[s.writers[j]].stage.Appended?
  }

  ghost predicate SomeSent(s: State) {
    exists j :: SentAt(s, j)
  }

  /** `missed` holds exactly when some attached `Tee` is already past its send. */
  ghost predicate Wakes(s: State) {
    && (s.pc.Woken? || s.pc.Delivering? ==> s.writers != [])
    && (s.pc.Unlocked? || s.pc.Parked? ==>
          (s.missed <==> SomeSent(s)))
  }

  /** `Close` has closed the writers it has passed. */
  ghost predicate ClosedSoFar(s: State) {
    s.pc.Closing? ==>
      && s.pc.next <= |s.writers|
      && forall j :: 0 <= j < s.pc.next ==> s.writers[j] < |s.pipes| && s.pipes[s.writers[j]].writerClosed
  }

  ghost predicate Inv(input: seq<Chunk>, s: State) {
    && Control(input, s) && Lists(s) && Ordered(s) && Attached(s) && Contents(input, s) && Wakes(s)
    && ClosedSoFar(s)
  }

  /** A pipe's writer end is closed only by `Close`, and for good. */
  lemma CloseFrame(input: seq<Chunk>, s: State, step: Step, id: nat)
    requires Enabled(input, s, step) && id < |s.pipes|
    ensures id < |Apply(input, s, step).pipes|
    ensures var p, q := s.pipes[id], Apply(input, s, step).pipes[id];
      q.writerClosed <==> p.writerClosed || (step.CloseOne? && s.writers[s.pc.next] == id)
  {
    match step
    case TeeAppend =>
    case CloseOne =>
    case TeeSend(_) =>
    case TeeReturn(_) =>
    case ReaderRead(_, _) =>
    case ReaderClose(_) =>
    case ReaderEof(_) =>
    case _ =>
  }

  lemma StepClosedSoFar(input: seq<Chunk>, s: State, step: Step)
    requires Control(input, s) && ClosedSoFar(s) && Lists(s) && Enabled(input, s, step)
    ensures ClosedSoFar(Apply(input, s, step))
  {
    var t := Apply(input, s, step);
    if t.pc.Closing? {
      forall j | 0 <= j < t.pc.next ensures t.writers[j] < |t.pipes| && t.pipes[t.writers[j]].writerClosed {
        CloseFrame(input, s, step, s.writers[j]);
      }
    }
  }

  lemma InitInv(input: seq<Chunk>)
    ensures Inv(input, Init())
  {
  }

  lemma StepControl(input: seq<Chunk>, s: State, step: Step)
    requires Control(input, s) && Lists(s) && Enabled(input, s, step)
    ensures Control(input, Apply(input, s, step))
  {
  }

  lemma AdvanceLists(input: seq<Chunk>, s: State, step: Step)
    requires Lists(s) && Enabled(input, s, step) && (step.WriteReturn? || step.WriteFail?)
    ensures Lists(Apply(input, s, step))
  {
    var w := s.writers[s.pc.next];
    assert s.writers[..s.pc.next + 1] == s.writers[..s.pc.next] + [w];
    assert w !in s.writers[..s.pc.next];
  }

  lemma OtherLists(input: seq<Chunk>, s: State, step: Step)
    requires Control(input, s) && Lists(s) && Enabled(input, s, step) && !(step.WriteReturn? || step.WriteFail?)
    ensures Lists(Apply(input, s, step))
  {
  }

  lemma StepLists(input: seq<Chunk>, s: State, step: Step)
    requires Control(input, s) && Lists(s) && Enabled(input, s, step)
    ensures Lists(Apply(input, s, step))
  {
    if step.WriteReturn? || step.WriteFail? {
      AdvanceLists(input, s, step);
    } else {
      OtherLists(input, s, step);
    }
  }

  lemma AdvanceOrdered(input: seq<Chunk>, s: State, step: Step)
    requires Lists(s) && Ordered(s) && Enabled(input, s, step) && (step.WriteReturn? || step.WriteFail?)
    ensures var t := Apply(input, s, step);
      IsPruned(t.writers[..t.pc.next], t.pc.open)
  {
    PrunedNext(s.writers, s.pc.next, s.pc.open);
  }

  lemma PrunedNext(ws: seq<nat>, next: nat, open: seq<nat>)
    requires next < |ws| && IsPruned(ws[..next], open)
    ensures IsPruned(ws[..next + 1], open + [ws[next]]) && IsPruned(ws[..next + 1], open)
  {
    assert ws[..next + 1] == ws[..next] + [ws[next]];
    PrunedSnoc(ws[..next], open, ws[next]);
  }

  lemma NothingPruned()
    ensures IsPruned([], [])
  {
    assert Survivors<nat>([], []) == [];
  }

  lemma StepOrdered(input: seq<Chunk>, s: State, step: Step)
    requires Control(input, s) && Lists(s) && Ordered(s) && Enabled(input, s, step) && Lists(Apply(input, s, step))
    ensures Ordered(Apply(input, s, step))
  {
    if step.WriteReturn? || step.WriteFail? {
      AdvanceOrdered(input, s, step);
    } else if step.WriteCheck? || step.Relock? {
      NothingPruned();
      assert s.writers[..0] == [];
    }
  }

  lemma StepAttachedWrite(input: seq<Chunk>, s: State, step: Step)
    requires Control(input, s) && Lists(s) && Attached(s) && Enabled(input, s, step)
    requires step.WriteReturn? || step.WriteFail? || step.WriteFinish?
    ensures Lists(Apply(input, s, step)) && Attached(Apply(input, s, step))
  {
  }

  /** One pipe changes in a way that leaves the list and the loop alone. */
  lemma AttachedUpdate(s: State, t: State, x: nat, p: Pipe)
    requires Lists(s) && Attached(s) && Lists(t) && x < |s.pipes|
    requires t.pipes == s.pipes[x := p] && t.writers == s.writers
    requires t.pc.Delivering? ==> s.pc.Delivering? && t.pc.next == s.pc.next && t.pc.open == s.pc.open
    requires s.pc.Closing? || s.pc.Exited? ==> t.pc.Closing? || t.pc.Exited?
    requires p.writerClosed == s.pipes[x].writerClosed
    requires s.pipes[x].readerClosed ==> p.readerClosed
    requires p.readerClosed ==> p.stage.Returned?
    requires p.sawEof ==> p.writerClosed
    ensures Attached(t)
  {
  }

  lemma StepAttachedPipe(input: seq<Chunk>, s: State, step: Step)
    requires Lists(s) && Attached(s) && Enabled(input, s, step)
    requires step.TeeSend? || step.TeeReturn? || step.ReaderRead? || step.ReaderClose? || step.ReaderEof?
    requires Lists(Apply(input, s, step))
    ensures Attached(Apply(input, s, step))
  {
    var t, x := Apply(input, s, step), step.id;
    AttachedUpdate(s, t, x, t.pipes[x]);
  }

  lemma StepAttachedOther(input: seq<Chunk>, s: State, step: Step)
    requires Control(input, s) && Lists(s) && Attached(s) && Enabled(input, s, step)
    requires !(step.WriteReturn? || step.WriteFail? || step.WriteFinish?)
    requires !(step.TeeSend? || step.TeeReturn? || step.ReaderRead? || step.ReaderClose? || step.ReaderEof?)
    ensures Lists(Apply(input, s, step)) && Attached(Apply(input, s, step))
  {
    StepLists(input, s, step);
  }

  lemma StepAttached(input: seq<Chunk>, s: State, step: Step)
    requires Control(input, s) && Lists(s) && Attached(s) && Enabled(input, s, step)
    ensures Lists(Apply(input, s, step)) && Attached(Apply(input, s, step))
  {
    if step.WriteReturn? || step.WriteFail? || step.WriteFinish? {
      StepAttachedWrite(input, s, step);
    } else if step.TeeSend? || step.TeeReturn? || step.ReaderRead? || step.ReaderClose? || step.ReaderEof? {
      StepLists(input, s, step);
      StepAttachedPipe(input, s, step);
    } else {
      StepAttachedOther(input, s, step);
    }
  }

  lemma ReturnInStep(input: seq<Chunk>, s: State, id: nat)
    requires Lists(s) && InStep(input, s, id) && Enabled(input, s, WriteReturn) && id in s.writers
    ensures InStep(input, Apply(input, s, WriteReturn), id)
  {
    var w := s.writers[s.pc.next];
    assert s.writers[..s.pc.next + 1] == s.writers[..s.pc.next] + [w];
    assert w !in s.writers[..s.pc.next];
    if id == w {
      assert s.pipes[w].received + s.pc.rest == s.pipes[w].received;
    }
  }

  lemma FailInStep(input: seq<Chunk>, s: State, id: nat)
    requires Lists(s) && Attached(s) && InStep(input, s, id) && Enabled(input, s, WriteFail) && id in s.writers
    ensures InStep(input, Apply(input, s, WriteFail), id)
  {
    var w := s.writers[s.pc.next];
    assert s.writers[..s.pc.next + 1] == s.writers[..s.pc.next] + [w];
    assert w !in s.writers[..s.pc.next];
    if id == w {
      assert s.pipes[w].received < s.pipes[w].received + s.pc.rest;
    }
  }

  lemma BeginInStep(input: seq<Chunk>, s: State, step: Step, id: nat)
    requires Control(input, s) && Lists(s) && InStep(input, s, id) && Enabled(input, s, step) && id in s.writers
    requires step.WriteCheck? || step.Relock?
    ensures InStep(input, Apply(input, s, step), id)
  {
    assert s.pipes[id].received == Span(input, s.pipes[id].from, s.done);
  }

  lemma FinishInStep(input: seq<Chunk>, s: State, id: nat)
    requires Lists(s) && InStep(input, s, id) && Enabled(input, s, WriteFinish) && id in s.pc.open
    ensures InStep(input, Apply(input, s, WriteFinish), id)
  {
    assert s.writers[..s.pc.next] == s.writers;
  }

  lemma ReadInStep(input: seq<Chunk>, s: State, x: nat, n: nat, id: nat)
    requires Lists(s) && InStep(input, s, id) && Enabled(input, s, ReaderRead(x, n)) && id in s.writers
    ensures InStep(input, Apply(input, s, ReaderRead(x, n)), id)
  {
    if x == id {
      assert id !in s.writers[..s.pc.next];
      var p := s.pipes[id];
      assert p.received + s.pc.rest[..n] + s.pc.rest[n..] == p.received + s.pc.rest;
    }
  }

  /**
   Outside a delivery loop, and in one whose step changes neither the loop nor the list, nothing is
   received.
   */
  lemma SameInStep(input: seq<Chunk>, s: State, t: State, id: nat)
    requires InStep(input, s, id) && id < |t.pipes|
    requires t.pipes[id].received == s.pipes[id].received && t.pipes[id].from == s.pipes[id].from
    requires t.pipes[id].readerClosed || !s.pipes[id].readerClosed
    requires t.done == s.done
    requires if s.pc.Delivering? then t.pc == s.pc && t.writers == s.writers else !t.pc.Delivering?
    ensures InStep(input, t, id)
  {
  }

  /** The steps that begin, advance or end a delivery loop, or read in one. */
  predicate OfDelivery(step: Step) {
    step.WriteReturn? || step.WriteFail? || step.WriteCheck? || step.Relock? || step.WriteFinish? || step.ReaderRead?
  }

  lemma OtherInStep(input: seq<Chunk>, s: State, step: Step, id: nat)
    requires Control(input, s) && InStep(input, s, id) && Enabled(input, s, step) && !OfDelivery(step)
    ensures InStep(input, Apply(input, s, step), id)
  {
    PipeFrame(input, s, step, id);
    SameInStep(input, s, Apply(input, s, step), id);
  }

  lemma StepInStep(input: seq<Chunk>, s: State, step: Step, id: nat)
    requires Control(input, s) && Lists(s) && Attached(s) && InStep(input, s, id)
    requires Enabled(input, s, step) && id in s.writers && id in Apply(input, s, step).writers
    ensures InStep(input, Apply(input, s, step), id)
  {
    match step
    case WriteReturn => ReturnInStep(input, s, id);
    case WriteFail => FailInStep(input, s, id);
    case WriteCheck => BeginInStep(input, s, step, id);
    case Relock => BeginInStep(input, s, step, id);
    case WriteFinish => FinishInStep(input, s, id);
    case ReaderRead(x, n) => ReadInStep(input, s, x, n, id);
    case _ => OtherInStep(input, s, step, id);
  }

  lemma ReadStaysPrefix(input: seq<Chunk>, s: State, id: nat, n: nat)
    requires Control(input, s) && Lists(s) && Contents(input, s) && Enabled(input, s, ReaderRead(id, n))
    ensures s.pipes[id].received + s.pc.rest[..n] <= Span(input, s.pipes[id].from, |input|)
  {
    var p := s.pipes[id];
    assert id in s.writers && InStep(input, s, id);
    assert id !in s.writers[..s.pc.next];
    SpanPrefix(input, p.from, s.done + 1, |input|);
    PartIsPrefix(p.received, s.pc.rest, n, Span(input, p.from, |input|));
  }

  lemma PartIsPrefix(received: Bytes, rest: Bytes, n: nat, whole: Bytes)
    requires n <= |rest| && received + rest <= whole
    ensures received + rest[..n] <= whole
  {
    assert received + rest == (received + rest[..n]) + rest[n..];
  }

  /** Only a read changes what a pipe's reader has received. */
  lemma PipeFrame(input: seq<Chunk>, s: State, step: Step, id: nat)
    requires Enabled(input, s, step) && id < |s.pipes|
    ensures id < |Apply(input, s, step).pipes|
    ensures var p, q := s.pipes[id], Apply(input, s, step).pipes[id];
      && q.from == p.from
      && q.received == (if step.ReaderRead? && step.id == id then p.received + s.pc.rest[..step.n] else p.received)
      && (q.sawEof ==> p.sawEof || step == ReaderEof(id))
      && (p.readerClosed ==> q.readerClosed)
  {
    var t := Apply(input, s, step);
    match step
    case TeeAppend => assert t.pipes[id] == s.pipes[id];
    case CloseOne =>
    case TeeSend(x) => assert t.pipes == s.pipes[x := s.pipes[x].(stage := Sent)];
    case TeeReturn(x) =>
    case ReaderRead(x, n) =>
    case ReaderClose(x) =>
    case ReaderEof(x) =>
    case _ => assert t.pipes == s.pipes;
  }

  lemma StepContentsAt(input: seq<Chunk>, s: State, step: Step, id: nat)
    requires Control(input, s) && Lists(s) && Attached(s) && Contents(input, s)
    requires Enabled(input, s, step) && id < |s.pipes|
    ensures id < |Apply(input, s, step).pipes|
    ensures var p := Apply(input, s, step).pipes[id];
      && p.from == s.pipes[id].from
      && p.received <= Span(input, p.from, |input|)
      && (p.sawEof ==> p.received == Span(input, p.from, |input|))
  {
    PipeFrame(input, s, step, id);
    match step {
      case ReaderRead(x, n) =>
        if x == id {
          ReadStaysPrefix(input, s, id, n);
        }
      case ReaderEof(x) =>
        if x == id {
          assert id in s.writers && InStep(input, s, id);
        }
      case _ =>
    }
  }

  /** Only `Tee` adds to the list, and only its new pipe. */
  lemma StillListed(input: seq<Chunk>, s: State, step: Step, id: nat)
    requires Lists(s) && Enabled(input, s, step) && id < |s.pipes| && id in Apply(input, s, step).writers
    ensures id in s.writers
  {
  }

  lemma StepContents(input: seq<Chunk>, s: State, step: Step)
    requires Control(input, s) && Lists(s) && Attached(s) && Contents(input, s) && Enabled(input, s, step)
    ensures Contents(input, Apply(input, s, step))
  {
    StepControl(input, s, step);
    StepLists(input, s, step);
    var t := Apply(input, s, step);
    forall id | 0 <= id < |t.pipes|
      ensures t.pipes[id].from <= t.done
      ensures t.pipes[id].received <= Span(input, t.pipes[id].from, |input|)
      ensures id in t.writers ==> InStep(input, t, id)
      ensures t.pipes[id].sawEof ==> t.pipes[id].received == Span(input, t.pipes[id].from, |input|)
    {
      if id < |s.pipes| {
        StepContentsAt(input, s, step, id);
        if id in t.writers {
          StillListed(input, s, step, id);
          StepInStep(input, s, step, id);
        }
      }
    }
  }

  lemma StepWakes(input: seq<Chunk>, s: State, step: Step)
    requires Control(input, s) && Lists(s) && Attached(s) && Wakes(s) && Enabled(input, s, step)
    ensures Wakes(Apply(input, s, step))
  {
    var t := Apply(input, s, step);
    if s.pc.Unlocked? || s.pc.Parked? {
      if step.TeeSend? {
        assert step.id in s.writers;
        var j: nat :| j < |s.writers| && s.writers[j] == step.id;
        assert SentAt(t, j);
      } else {
        SameSent(input, s, step);
      }
    }
  }

  lemma SameSent(input: seq<Chunk>, s: State, step: Step)
    requires Control(input, s) && Lists(s) && Enabled(input, s, step)
    requires (s.pc.Unlocked? || s.pc.Parked?) && !step.TeeSend?
    ensures SomeSent(Apply(input, s, step)) == SomeSent(s)
  {
    var t := Apply(input, s, step);
    forall j: nat ensures SentAt(t, j) == SentAt(s, j) {
    }
  }
}
