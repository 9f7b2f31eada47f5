/** Exactly when a direction of the proxy loses bytes it has read. */
module ProxyLoss {
  import opened Bytes
  import opened ProxySystem
  import opened ProxyTheorems

  /** Read from the connection and not yet out of the pipe. */
  predicate InPipe(l: Lane) {
    l.first.Offering? || l.pending != []
  }

  /**
   The lane from `side` holds bytes that can go nowhere: in front of or inside a closed pipe, or bound
   for a closed connection; or it has dropped some already.
   */
  predicate Doomed(s: State, side: Side) {
    var l := LaneFrom(s, side);
    || l.failed
    || (PipeClosed(l) && InPipe(l))
    || (ConnClosed(s, Opposite(side)) && l.second.Writing?)
  }

  /**
   The step about to be taken dooms bytes of the lane from `side`: a chunk is read although the pipe it
   is bound for is closed; the connection breaks under a chunk being written; a close hits a pipe that
   holds bytes, or a connection a chunk is being written to.
   */
  predicate Dooms(s: State, step: Step, side: Side)
    requires Enabled(s, step)
  {
    var l := LaneFrom(s, side);
    match step
    case CopierMove(x, move) => x == side && ((move.ReadConn? && PipeClosed(l)) || move.WriteConnError?)
    case CopierClose(x, first) =>
      (match ClosesRun(LaneFrom(s, x), first)
       case 0 => RunsOn(x, first) == Opposite(side) && InPipe(l)
       case 1 => RunsOn(x, first) == side && InPipe(l)
       case _ => RunsOn(x, first) == Opposite(side) && l.second.Writing?)
    case _ => false
  }

  // ----- one step -----

  lemma MoveStaysDoomed(s: State, x: Side, move: Move, side: Side)
    requires LaneInv(LaneFrom(s, side)) && Enabled(s, CopierMove(x, move)) && Doomed(s, side)
    ensures Doomed(Apply(s, CopierMove(x, move)), side)
  {
    MoveFrame(s, x, move, side);
    MoveFrame(s, x, move, Opposite(side));
  }

  lemma CloseStaysDoomed(s: State, x: Side, first: bool, side: Side)
    requires Enabled(s, CopierClose(x, first)) && Doomed(s, side)
    ensures Doomed(Apply(s, CopierClose(x, first)), side)
  {
    CloseFrame(s, x, first, side);
    CloseFrame(s, x, first, Opposite(side));
  }

  /** No step undoes it. */
  lemma StaysDoomed(s: State, step: Step, side: Side)
    requires LaneInv(LaneFrom(s, side)) && Enabled(s, step) && Doomed(s, side)
    ensures Doomed(Apply(s, step), side)
  {
    match step {
      case CopierMove(x, move) => MoveStaysDoomed(s, x, move, side);
      case CopierClose(x, first) => CloseStaysDoomed(s, x, first, side);
      case _ =>
    }
  }

  lemma MoveDooms(s: State, x: Side, move: Move, side: Side)
    requires Inv(s) && Enabled(s, CopierMove(x, move)) && !Doomed(s, side)
    ensures Doomed(Apply(s, CopierMove(x, move)), side) <==> Dooms(s, CopierMove(x, move), side)
  {
    MoveFrame(s, x, move, side);
    MoveFrame(s, x, move, Opposite(side));
  }

  /** What a close does to the lane from `side`. */
  lemma CloseEffect(s: State, x: Side, first: bool, side: Side)
    requires Enabled(s, CopierClose(x, first))
    ensures var l, m := LaneFrom(s, side), LaneFrom(Apply(s, CopierClose(x, first)), side);
      var k := ClosesRun(LaneFrom(s, x), first);
      && m.readerClosed == (l.readerClosed || (k == 0 && RunsOn(x, first) == Opposite(side)))
      && m.writerClosed == (l.writerClosed || (k == 1 && RunsOn(x, first) == side))
  {
  }

  lemma CloseDooms(s: State, x: Side, first: bool, side: Side)
    requires Inv(s) && Enabled(s, CopierClose(x, first)) && !Doomed(s, side)
    ensures Doomed(Apply(s, CopierClose(x, first)), side) <==> Dooms(s, CopierClose(x, first), side)
  {
    CloseFrame(s, x, first, side);
    CloseEffect(s, x, first, side);
    CloseConnFrame(s, x, first, Opposite(side));
  }

  /** Bytes of a lane are doomed by exactly the steps described by `Dooms`; dialling and the peers doom none. */
  lemma StepDooms(s: State, step: Step, side: Side)
    requires Inv(s) && Enabled(s, step) && !Doomed(s, side)
    ensures Doomed(Apply(s, step), side) <==> Dooms(s, step, side)
  {
    match step {
      case CopierMove(x, move) => MoveDooms(s, x, move, side);
      case CopierClose(x, first) => CloseDooms(s, x, first, side);
      case _ =>
    }
  }

  // ----- whole runs -----

  ghost predicate SomeStepDooms(s: State, steps: seq<Step>, side: Side)
    requires CanRun(s, steps)
    decreases |steps|
  {
    steps != [] && (Dooms(s, steps[0], side) || SomeStepDooms(Apply(s, steps[0]), steps[1..], side))
  }

  lemma {:induction false} RunDooms(s: State, steps: seq<Step>, side: Side)
    requires Inv(s) && CanRun(s, steps)
    ensures Doomed(s, side) || SomeStepDooms(s, steps, side) <==> Doomed(After(s, steps), side)
    decreases |steps|
  {
    if steps != [] {
      StepInv(s, steps[0]);
      if Doomed(s, side) {
        StaysDoomed(s, steps[0], side);
      } else {
        StepDooms(s, steps[0], side);
      }
      RunDooms(Apply(s, steps[0]), steps[1..], side);
    }
  }

  lemma EndedLaneLost(l: Lane)
    requires LaneInv(l) && !FirstActive(l) && !SecondActive(l)
    ensures l.delivered == l.consumed <==> !l.failed
  {
    assert l.delivered + [] + [] + [] == l.delivered;
  }

  /**
   When neither copier of a lane is running any more, every byte read was delivered exactly if no step
   of the run, judged by the state before it, was one that dooms bytes; which is to say that no write
   of the lane failed.
   */
  lemma EndLosesNothingExactly(steps: seq<Step>, side: Side)
    requires CanRun(Init(), steps)
    requires var l := LaneFrom(After(Init(), steps), side); !FirstActive(l) && !SecondActive(l)
    ensures var l := LaneFrom(After(Init(), steps), side);
      && (l.delivered == l.consumed <==> !SomeStepDooms(Init(), steps, side))
      && (l.delivered == l.consumed <==> !l.failed)
  {
    RunInv(Init(), steps);
    RunDooms(Init(), steps, side);
    EndedLaneLost(LaneFrom(After(Init(), steps), side));
  }

  /** Doomed bytes are lost however the run goes on. */
  lemma DoomedIsLost(before: seq<Step>, after: seq<Step>, side: Side)
    requires CanRun(Init(), before) && CanRun(After(Init(), before), after)
    requires Doomed(After(Init(), before), side)
    requires var l := LaneFrom(After(After(Init(), before), after), side); !FirstActive(l) && !SecondActive(l)
    ensures var l := LaneFrom(After(After(Init(), before), after), side); |l.delivered| < |l.consumed|
  {
    var s := After(Init(), before);
    RunInv(Init(), before);
    RunInv(s, after);
    RunDooms(s, after, side);
  }

  // ----- runs in which no connection breaks of itself -----

  predicate Breaks(step: Step) {
    step.CopierMove? && (step.move.ReadConnError? || step.move.WriteConnError?)
  }

  predicate Healthy(steps: seq<Step>) {
    forall step :: step in steps ==> !Breaks(step)
  }

  predicate Running(l: Lane) {
    FirstActive(l) && SecondActive(l)
  }

  /**
   The first copier of the lane from `side` ends only at the end of what its peer sends, and the pipe is
   closed only after it has put everything through, or when it is never to read anything because the
   dial failed.
   */
  ghost predicate Safe(s: State, side: Side) {
    var l := LaneFrom(s, side);
    && !l.failed
    && (PipeClosed(l) ==> !InPipe(l) && (FirstActive(l) ==> s.phase.DialFailed? && side.ConnectSide?))
    && (ConnClosed(s, Opposite(side)) ==> !l.second.Writing?)
    && (!SecondActive(l) ==> PipeClosed(l))
    && (!FirstActive(l) ==> !InPipe(l) && l.ended && l.input == [])
    && (FirstActive(l) ==> !ConnClosed(s, side))
  }

  lemma MoveSafe(s: State, x: Side, move: Move, side: Side)
    requires Inv(s) && Safe(s, side) && Enabled(s, CopierMove(x, move)) && !Breaks(CopierMove(x, move))
    ensures Safe(Apply(s, CopierMove(x, move)), side)
  {
    MoveFrame(s, x, move, side);
    MoveFrame(s, x, move, Opposite(side));
  }

  lemma CloseSafe(s: State, x: Side, first: bool, side: Side)
    requires Inv(s) && Safe(s, side) && Enabled(s, CopierClose(x, first)) && Running(LaneFrom(s, Opposite(side)))
    ensures Safe(Apply(s, CopierClose(x, first)), side)
  {
    CloseFrame(s, x, first, side);
    CloseEffect(s, x, first, side);
    CloseConnFrame(s, x, first, side);
    CloseConnFrame(s, x, first, Opposite(side));
  }

  /** Copiers that run now have run all along. */
  lemma WasRunning(s: State, step: Step, side: Side)
    requires Enabled(s, step) && Running(LaneFrom(Apply(s, step), side))
    ensures Running(LaneFrom(s, side))
  {
    StaysInactive(s, step, side);
  }

  lemma OtherSafe(s: State, step: Step, side: Side)
    requires Inv(s) && Safe(s, side) && Enabled(s, step) && !step.CopierMove? && !step.CopierClose?
    ensures Safe(Apply(s, step), side)
  {
    match step
    case DialOk =>
    case DialError =>
    case PeerSend(_, _) =>
    case PeerEnd(_) =>
  }

  lemma StepSafe(s: State, step: Step, side: Side)
    requires Inv(s) && Safe(s, side) && Enabled(s, step) && !Breaks(step) && Running(LaneFrom(s, Opposite(side)))
    ensures Safe(Apply(s, step), side)
  {
    match step {
      case CopierMove(x, move) => MoveSafe(s, x, move, side);
      case CopierClose(x, first) => CloseSafe(s, x, first, side);
      case _ => OtherSafe(s, step, side);
    }
  }

  lemma {:induction false} RunSafe(s: State, steps: seq<Step>, side: Side)
    requires Inv(s) && Safe(s, side) && CanRun(s, steps) && Healthy(steps)
    requires Running(LaneFrom(After(s, steps), Opposite(side)))
    ensures Running(LaneFrom(s, Opposite(side))) && Safe(After(s, steps), side)
    decreases |steps|
  {
    if steps != [] {
      assert !Breaks(steps[0]) by { assert steps[0] in steps; }
      RunWasRunning(Apply(s, steps[0]), steps[1..], Opposite(side));
      WasRunning(s, steps[0], Opposite(side));
      StepInv(s, steps[0]);
      StepSafe(s, steps[0], side);
      RunSafe(Apply(s, steps[0]), steps[1..], side);
    }
  }

  lemma {:induction false} RunWasRunning(s: State, steps: seq<Step>, side: Side)
    requires CanRun(s, steps) && Running(LaneFrom(After(s, steps), side))
    ensures Running(LaneFrom(s, side))
    decreases |steps|
  {
    if steps != [] {
      RunWasRunning(Apply(s, steps[0]), steps[1..], side);
      WasRunning(s, steps[0], side);
    }
  }

  /**
   What a caller can rely on: while no connection breaks of itself, a direction dooms nothing as long as
   both copiers of the other direction are running. Only the end of the other direction, a client or
   server that has finished sending, makes the proxy lose bytes.
   */
  lemma SafeWhileOtherRuns(steps: seq<Step>, side: Side)
    requires CanRun(Init(), steps) && Healthy(steps)
    requires Running(LaneFrom(After(Init(), steps), Opposite(side)))
    ensures !Doomed(After(Init(), steps), side)
  {
    RunSafe(Init(), steps, side);
  }

  lemma {:induction false} RunSnoc(s: State, steps: seq<Step>, last: Step)
    requires CanRun(s, steps) && Enabled(After(s, steps), last)
    ensures CanRun(s, steps + [last]) && After(s, steps + [last]) == Apply(After(s, steps), last)
    decreases |steps|
  {
    if steps == [] {
      assert [last][1..] == [];
    } else {
      assert (steps + [last])[0] == steps[0] && (steps + [last])[1..] == steps[1..] + [last];
      RunSnoc(Apply(s, steps[0]), steps[1..], last);
    }
  }

  lemma {:induction false} RunAppend(s: State, first: seq<Step>, second: seq<Step>)
    requires CanRun(s, first) && CanRun(After(s, first), second)
    ensures CanRun(s, first + second) && After(s, first + second) == After(After(s, first), second)
    decreases |first|
  {
    if first == [] {
      assert first + second == second;
    } else {
      assert (first + second)[0] == first[0] && (first + second)[1..] == first[1..] + second;
      RunAppend(Apply(s, first[0]), first[1..], second);
    }
  }

  /** The client ends its sending direction, and the listen side closes the reader of the replies. */
  lemma ClientEnds(s: State) returns (steps: seq<Step>)
    requires !s.listenClosed && s.fromListen.first.FirstReading? && s.fromListen.input == [] && !s.fromListen.ended
    ensures Healthy(steps) && CanRun(s, steps)
    ensures After(s, steps) == s.(fromListen := s.fromListen.(ended := true, first := FirstClosing(1)),
                                  fromConnect := s.fromConnect.(readerClosed := true))
  {
    steps := [];
    RunSnoc(s, steps, PeerEnd(ListenSide));
    steps := steps + [PeerEnd(ListenSide)];
    RunSnoc(s, steps, CopierMove(ListenSide, ReadConnEnd));
    steps := steps + [CopierMove(ListenSide, ReadConnEnd)];
    RunSnoc(s, steps, CopierClose(ListenSide, true));
    steps := steps + [CopierClose(ListenSide, true)];
  }

  /** The server replies, and the connect side finds nobody reading. */
  lemma ReplyDropped(s: State, reply: Bytes) returns (steps: seq<Step>)
    requires s.phase.Connected? && !s.connectClosed && s.fromConnect == NewLane().(readerClosed := true) && reply != []
    ensures Healthy(steps) && CanRun(s, steps)
    ensures After(s, steps) == s.(fromConnect :=
      Lane([], false, reply, FirstClosing(0), [], false, true, SecondReading, [], true))
  {
    var read, drop := CopierMove(ConnectSide, ReadConn(|reply|)), CopierMove(ConnectSide, OfferFail);
    steps := [];
    RunSnoc(s, steps, PeerSend(ConnectSide, reply));
    steps := steps + [PeerSend(ConnectSide, reply)];
    assert [] + reply == reply && reply[..|reply|] == reply;
    RunSnoc(s, steps, read);
    steps := steps + [read];
    RunSnoc(s, steps, drop);
    steps := steps + [drop];
  }

  /**
   Bytes can be lost although no connection ever fails: when the client ends its sending direction the
   listen side closes `connectReader`, and a reply read from the server after that has nowhere to go.
   */
  lemma HalfCloseLosesReply(reply: Bytes) returns (steps: seq<Step>)
    requires reply != []
    ensures Healthy(steps) && CanRun(Init(), steps)
    ensures var l := After(Init(), steps).fromConnect;
      l.consumed == reply && l.delivered == [] && !FirstActive(l) && l.failed
  {
    RunSnoc(Init(), [], DialOk);
    assert [] + [DialOk] == [DialOk];
    var end := ClientEnds(Init().(phase := Connected));
    RunAppend(Init(), [DialOk], end);
    var drop := ReplyDropped(After(Init(), [DialOk] + end), reply);
    RunAppend(Init(), [DialOk] + end, drop);
    steps := [DialOk] + end + drop;
  }

  /** The client's request is read and put into the pipe. */
  lemma RequestOffered(request: Bytes) returns (steps: seq<Step>)
    requires request != []
    ensures Healthy(steps) && CanRun(Init(), steps)
    ensures After(Init(), steps) == Init().(phase := Connected, fromListen :=
      Lane([], false, request, Waiting, request, false, false, SecondReading, [], false))
  {
    var s := Init();
    steps := [];
    RunSnoc(s, steps, DialOk);
    steps := steps + [DialOk];
    RunSnoc(s, steps, PeerSend(ListenSide, request));
    steps := steps + [PeerSend(ListenSide, request)];
    assert [] + request == request && request[..|request|] == request;
    RunSnoc(s, steps, CopierMove(ListenSide, ReadConn(|request|)));
    steps := steps + [CopierMove(ListenSide, ReadConn(|request|))];
    RunSnoc(s, steps, CopierMove(ListenSide, Offer));
    steps := steps + [CopierMove(ListenSide, Offer)];
  }

  /** The connect side reads it, to write it to the server's connection. */
  lemma RequestTaken(s: State, request: Bytes) returns (steps: seq<Step>)
    requires request != [] && s.phase.Connected?
    requires s.fromListen == Lane([], false, request, Waiting, request, false, false, SecondReading, [], false)
    ensures Healthy(steps) && CanRun(s, steps)
    ensures After(s, steps) == s.(fromListen :=
      Lane([], false, request, FirstReading, [], false, false, Writing(request), [], false))
  {
    steps := [];
    assert request[..|request|] == request;
    RunSnoc(s, steps, CopierMove(ListenSide, ReadPipe(|request|)));
    steps := steps + [CopierMove(ListenSide, ReadPipe(|request|))];
    RunSnoc(s, steps, CopierMove(ListenSide, WriteDone));
    steps := steps + [CopierMove(ListenSide, WriteDone)];
  }

  /** The first copier of the connect side runs its closes, the server's connection last. */
  lemma ServerClosed(s: State) returns (steps: seq<Step>)
    requires s.fromConnect.first == FirstClosing(0)
    ensures Healthy(steps) && CanRun(s, steps)
    ensures After(s, steps) == s.(connectClosed := true, fromListen := s.fromListen.(readerClosed := true),
                                  fromConnect := s.fromConnect.(writerClosed := true, first := FirstDone))
  {
    var close := CopierClose(ConnectSide, true);
    steps := [];
    RunSnoc(s, steps, close);
    steps := steps + [close];
    RunSnoc(s, steps, close);
    steps := steps + [close];
    RunSnoc(s, steps, close);
    steps := steps + [close];
  }

  /**
   And not only what comes after: a server that answers early to a client that has ended its sending
   direction loses the client's own request. The reply finds its pipe closed, the copier that read it
   closes the server's connection, and the request, already read, can no longer be written there.
   */
  lemma HalfCloseLosesRequest(request: Bytes, reply: Bytes) returns (steps: seq<Step>)
    requires request != [] && reply != []
    ensures Healthy(steps) && CanRun(Init(), steps)
    ensures var l := After(Init(), steps).fromListen;
      l.consumed == request && l.delivered == [] && !FirstActive(l) && !SecondActive(l) && l.failed
  {
    steps := RequestOffered(request);
    var more := RequestTaken(After(Init(), steps), request);
    RunAppend(Init(), steps, more);
    steps := steps + more;
    more := ClientEnds(After(Init(), steps));
    RunAppend(Init(), steps, more);
    steps := steps + more;
    more := ReplyDropped(After(Init(), steps), reply);
    RunAppend(Init(), steps, more);
    steps := steps + more;
    more := ServerClosed(After(Init(), steps));
    RunAppend(Init(), steps, more);
    steps := steps + more;
    RunSnoc(Init(), steps, CopierMove(ListenSide, WriteConnFail));
    steps := steps + [CopierMove(ListenSide, WriteConnFail)];
  }

  // ----- runs in which something does fail -----

  /** Any part of a request but the first n bytes can be lost to a connection that breaks while it is written. */
  lemma BreakLosesTail(request: Bytes, n: nat) returns (steps: seq<Step>)
    requires 1 <= n < |request|
    ensures CanRun(Init(), steps)
    ensures var l := After(Init(), steps).fromListen;
      l.consumed == request && l.delivered == request[..n] && !SecondActive(l) && l.failed
  {
    steps := RequestOffered(request);
    var more := RequestTaken(After(Init(), steps), request);
    RunAppend(Init(), steps, more);
    steps := steps + more;
    var write, break_ := CopierMove(ListenSide, WriteConn(n)), CopierMove(ListenSide, WriteConnError);
    RunSnoc(Init(), steps, write);
    steps := steps + [write];
    assert request[n..] != [] && [] + request[..n] == request[..n];
    RunSnoc(Init(), steps, break_);
    steps := steps + [break_];
  }

  /** The client's request is read and put into the pipe before the dial has returned. */
  lemma EarlyRequest(request: Bytes) returns (steps: seq<Step>)
    requires request != []
    ensures Healthy(steps) && CanRun(Init(), steps)
    ensures After(Init(), steps) == Init().(fromListen :=
      Lane([], false, request, Waiting, request, false, false, SecondReading, [], false))
  {
    var s := Init();
    var read := CopierMove(ListenSide, ReadConn(|request|));
    steps := [];
    RunSnoc(s, steps, PeerSend(ListenSide, request));
    steps := steps + [PeerSend(ListenSide, request)];
    assert [] + request == request && request[..|request|] == request;
    RunSnoc(s, steps, read);
    steps := steps + [read];
    RunSnoc(s, steps, CopierMove(ListenSide, Offer));
    steps := steps + [CopierMove(ListenSide, Offer)];
  }

  /** A failed dial loses what was read from the client by then: the listen side winds down with it in the pipe. */
  lemma FailedDialLosesRequest(request: Bytes) returns (steps: seq<Step>)
    requires request != []
    ensures Healthy(steps) && CanRun(Init(), steps)
    ensures var s := After(Init(), steps);
      s.phase.DialFailed? && s.fromListen.consumed == request && s.fromListen.delivered == [] && s.fromListen.failed
  {
    steps := EarlyRequest(request);
    var more := DialFails(After(Init(), steps));
    RunAppend(Init(), steps, more);
    steps := steps + more;
    RunSnoc(Init(), steps, CopierMove(ListenSide, WriteFail));
    steps := steps + [CopierMove(ListenSide, WriteFail)];
  }

  /** The dial fails, the listen side's second copier sees the end of the replies and closes its stream. */
  lemma DialFails(s: State) returns (steps: seq<Step>)
    requires s.phase.Dialling? && s.fromConnect == NewLane()
    ensures Healthy(steps) && CanRun(s, steps)
    ensures After(s, steps) == s.(phase := DialFailed, fromListen := s.fromListen.(writerClosed := true),
      fromConnect := NewLane().(writerClosed := true, readerClosed := true, second := SecondClosing(2)))
  {
    var end, close := CopierMove(ConnectSide, ReadPipeEnd), CopierClose(ConnectSide, false);
    steps := [];
    RunSnoc(s, steps, DialError);
    steps := steps + [DialError];
    RunSnoc(s, steps, end);
    steps := steps + [end];
    RunSnoc(s, steps, close);
    steps := steps + [close];
    RunSnoc(s, steps, close);
    steps := steps + [close];
  }
}
