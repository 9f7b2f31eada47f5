/** While both directions of the proxy are intact: everything sent arrives. */
module ProxyProgress {
  import opened Bytes
  import opened ProxySystem
  import opened ProxyTheorems
  import opened ProxyLoss

  /** Both copiers of the lane from `side` run, and its pipe and both connections are open. */
  predicate Intact(s: State, side: Side) {
    var l := LaneFrom(s, side);
    && s.phase.Connected? && Running(l) && !PipeClosed(l)
    && !ConnClosed(s, side) && !ConnClosed(s, Opposite(side))
  }

  /** A move that takes bytes on, or frees the copier in front to read more. */
  predicate Carries(move: Move) {
    move.ReadConn? || move.Offer? || move.WriteDone? || move.ReadPipe? || move.WriteConn?
  }

  /** An intact lane that holds bytes, or whose peer has sent some it has not read, can carry them on. */
  lemma IntactNeverStuck(s: State, side: Side) returns (move: Move)
    requires LaneInv(LaneFrom(s, side)) && Intact(s, side)
    requires var l := LaneFrom(s, side); l.delivered != l.consumed || l.input != []
    ensures Carries(move) && Enabled(s, CopierMove(side, move))
  {
    var l := LaneFrom(s, side);
    if l.second.Writing? {
      move := WriteConn(|l.second.rest|);
    } else if l.pending != [] {
      move := ReadPipe(|l.pending|);
    } else {
      match l.first
      case Offering(_) => move := Offer;
      case Waiting => move := WriteDone;
      case FirstReading =>
        assert l.delivered + [] + [] + [] == l.delivered;
        move := ReadConn(|l.input|);
    }
  }

  /** Everything the peer of a side sends during a run. */
  function DataFrom(steps: seq<Step>, side: Side): Bytes {
    if steps == [] then []
    else (if steps[0].PeerSend? && steps[0].side == side then steps[0].data else []) + DataFrom(steps[1..], side)
  }

  lemma MoveKeepsData(l: Lane, source: bool, sink: bool, move: Move)
    requires CanMove(l, source, sink, move)
    ensures Moved(l, source, sink, move).consumed + Moved(l, source, sink, move).input == l.consumed + l.input
  {
    if move.ReadConn? {
      assert l.input == l.input[..move.n] + l.input[move.n..];
    }
  }

  lemma StepData(s: State, step: Step, side: Side)
    requires Enabled(s, step)
    ensures var l, m := LaneFrom(s, side), LaneFrom(Apply(s, step), side);
      m.consumed + m.input == l.consumed + l.input + DataFrom([step], side)
  {
    assert DataFrom([step], side) == if step.PeerSend? && step.side == side then step.data else [];
    match step {
      case CopierMove(x, move) =>
        MoveFrame(s, x, move, side);
        MoveKeepsData(LaneFrom(s, x), ConnClosed(s, x), ConnClosed(s, Opposite(x)), move);
      case CopierClose(x, first) => CloseFrame(s, x, first, side);
      case _ =>
    }
  }

  /** What has been read and what has not been yet is, in order, what the peer has sent. */
  lemma {:induction false} RunData(s: State, steps: seq<Step>, side: Side)
    requires CanRun(s, steps)
    ensures var l, m := LaneFrom(s, side), LaneFrom(After(s, steps), side);
      m.consumed + m.input == l.consumed + l.input + DataFrom(steps, side)
    decreases |steps|
  {
    if steps != [] {
      StepData(s, steps[0], side);
      RunData(Apply(s, steps[0]), steps[1..], side);
      assert DataFrom(steps, side) == DataFrom([steps[0]], side) + DataFrom(steps[1..], side);
    }
  }

  lemma IdleIsDone(s: State, side: Side)
    requires LaneInv(LaneFrom(s, side)) && Intact(s, side)
    requires forall move :: Carries(move) ==> !Enabled(s, CopierMove(side, move))
    ensures var l := LaneFrom(s, side); l.delivered == l.consumed && l.consumed + l.input == l.consumed
  {
    var l := LaneFrom(s, side);
    if l.delivered != l.consumed || l.input != [] {
      var move := IntactNeverStuck(s, side);
    }
  }

  /**
   In any run, at any point at which a direction is intact and has nothing to carry on, everything its
   peer has sent so far has been delivered, in order; and it comes to such a point, as each move lowers
   the measure (`StepMeasure`).
   */
  lemma IdleHasDelivered(steps: seq<Step>, side: Side)
    requires CanRun(Init(), steps) && Intact(After(Init(), steps), side)
    requires forall move :: Carries(move) ==> !Enabled(After(Init(), steps), CopierMove(side, move))
    ensures LaneFrom(After(Init(), steps), side).delivered == DataFrom(steps, side)
  {
    RunInv(Init(), steps);
    RunData(Init(), steps, side);
    IdleIsDone(After(Init(), steps), side);
  }

  /** A direction that carries on stays intact, and has the same bytes to deliver. */
  lemma CarryStep(s: State, side: Side, move: Move)
    requires Inv(s) && Intact(s, side) && Carries(move) && Enabled(s, CopierMove(side, move))
    ensures var t := Apply(s, CopierMove(side, move));
      && Inv(t) && Intact(t, side) && Measure(t) < Measure(s)
      && LaneFrom(t, side).consumed + LaneFrom(t, side).input == LaneFrom(s, side).consumed + LaneFrom(s, side).input
  {
    StepInv(s, CopierMove(side, move));
    StepMeasure(s, CopierMove(side, move));
    MoveFrame(s, side, move, side);
    MoveFrame(s, side, move, Opposite(side));
    MoveKeepsData(LaneFrom(s, side), ConnClosed(s, side), ConnClosed(s, Opposite(side)), move);
  }

  /** A run of a direction's own moves. */
  predicate OwnCarries(steps: seq<Step>, side: Side) {
    forall step :: step in steps ==> step.CopierMove? && step.side == side && Carries(step.move)
  }

  /** Intact, with these bytes delivered and nothing left to carry on. */
  predicate AllDelivered(s: State, side: Side, data: Bytes) {
    var l := LaneFrom(s, side);
    Intact(s, side) && l.delivered == data == l.consumed && l.input == []
  }

  lemma CarryFirst(s: State, move: Move, side: Side, rest: seq<Step>)
    requires Carries(move) && Enabled(s, CopierMove(side, move)) && OwnCarries(rest, side)
    requires CanRun(Apply(s, CopierMove(side, move)), rest)
    ensures OwnCarries([CopierMove(side, move)] + rest, side) && CanRun(s, [CopierMove(side, move)] + rest)
    ensures After(s, [CopierMove(side, move)] + rest) == After(Apply(s, CopierMove(side, move)), rest)
  {
    assert ([CopierMove(side, move)] + rest)[1..] == rest;
  }

  /** So from any reachable point at which it is intact, its own moves alone deliver everything sent so far. */
  lemma {:induction false} IntactDelivers(s: State, side: Side) returns (moves: seq<Step>)
    requires Inv(s) && Intact(s, side)
    ensures OwnCarries(moves, side) && CanRun(s, moves)
    ensures AllDelivered(After(s, moves), side, LaneFrom(s, side).consumed + LaneFrom(s, side).input)
    decreases Measure(s)
  {
    var l := LaneFrom(s, side);
    if l.delivered == l.consumed && l.input == [] {
      moves := [];
      assert l.consumed + [] == l.consumed;
    } else {
      var move := IntactNeverStuck(s, side);
      CarryStep(s, side, move);
      var rest := IntactDelivers(Apply(s, CopierMove(side, move)), side);
      CarryFirst(s, move, side, rest);
      moves := [CopierMove(side, move)] + rest;
    }
  }

  // ----- the end of a direction -----

  /**
   At the end of a direction everything its peer sent was delivered exactly if no step doomed any of it
   and nothing was left unread.
   */
  lemma EndDeliversAllExactly(steps: seq<Step>, side: Side)
    requires CanRun(Init(), steps)
    requires var l := LaneFrom(After(Init(), steps), side); !FirstActive(l) && !SecondActive(l)
    ensures var l := LaneFrom(After(Init(), steps), side);
      l.delivered == DataFrom(steps, side) <==> !SomeStepDooms(Init(), steps, side) && l.input == []
  {
    RunInv(Init(), steps);
    RunData(Init(), steps, side);
    EndLosesNothingExactly(steps, side);
    var l := LaneFrom(After(Init(), steps), side);
    assert l.delivered <= l.consumed;
    assert l.input == [] ==> l.consumed + l.input == l.consumed;
  }

  /**
   A healthy end: while no connection breaks of itself and both copiers of the other direction run, the
   first copier of a direction ends only when it has read everything its peer sent, up to the peer's end,
   and when the second has ended too, all of that was delivered.
   */
  lemma HealthyEndDeliversAll(steps: seq<Step>, side: Side)
    requires CanRun(Init(), steps) && Healthy(steps)
    requires Running(LaneFrom(After(Init(), steps), Opposite(side)))
    requires !FirstActive(LaneFrom(After(Init(), steps), side))
    ensures var l := LaneFrom(After(Init(), steps), side);
      && l.ended && l.consumed == DataFrom(steps, side)
      && (!SecondActive(l) ==> l.delivered == DataFrom(steps, side))
  {
    RunInv(Init(), steps);
    RunSafe(Init(), steps, side);
    RunData(Init(), steps, side);
    var l := LaneFrom(After(Init(), steps), side);
    assert l.consumed + [] == l.consumed;
    assert l.delivered + [] + [] + [] == l.delivered;
  }

  /** And the second ends only after the first, unless the dial failed. */
  lemma HealthySecondEndsLast(steps: seq<Step>, side: Side)
    requires CanRun(Init(), steps) && Healthy(steps) && After(Init(), steps).phase.Connected?
    requires Running(LaneFrom(After(Init(), steps), Opposite(side)))
    ensures var l := LaneFrom(After(Init(), steps), side); !SecondActive(l) ==> !FirstActive(l)
  {
    RunSafe(Init(), steps, side);
  }

  /** Both conditions of `EndDeliversAllExactly` are needed: a connection that breaks when read leaves data unread. */
  lemma BreakLeavesUnread(data: Bytes) returns (steps: seq<Step>)
    requires data != []
    ensures CanRun(Init(), steps)
    ensures var l := After(Init(), steps).fromListen;
      && !FirstActive(l) && !l.failed && l.consumed == [] && l.input == data == DataFrom(steps, ListenSide)
  {
    var send, break_ := PeerSend(ListenSide, data), CopierMove(ListenSide, ReadConnError);
    steps := [];
    RunSnoc(Init(), steps, send);
    steps := steps + [send];
    assert [] + data == data;
    RunSnoc(Init(), steps, break_);
    steps := steps + [break_];
    RunData(Init(), steps, ListenSide);
  }

  // ----- what a copier waits for -----

  /**
   A copier of an intact direction waits for nothing but data and room: the one in front can move unless
   it has nothing to read or its chunk is still in the pipe; the one behind, unless the pipe is empty.
   Neither waits for the other's connection.
   */
  lemma WaitsExactly(s: State, side: Side)
    requires LaneInv(LaneFrom(s, side)) && Intact(s, side)
    ensures var l := LaneFrom(s, side);
      && ((exists move :: Carries(move) && OfFirst(move) && Enabled(s, CopierMove(side, move))) <==>
            !(l.first.FirstReading? && l.input == []) && !(l.first.Waiting? && l.pending != []))
      && ((exists move :: Carries(move) && !OfFirst(move) && Enabled(s, CopierMove(side, move))) <==>
            !(l.second.SecondReading? && l.pending == []))
  {
    var l := LaneFrom(s, side);
    if !(l.first.FirstReading? && l.input == []) && !(l.first.Waiting? && l.pending != []) {
      var move := match l.first case FirstReading => ReadConn(1) case Offering(_) => Offer case _ => WriteDone;
      assert Carries(move) && OfFirst(move) && Enabled(s, CopierMove(side, move));
    }
    if !(l.second.SecondReading? && l.pending == []) {
      var move := if l.second.Writing? then WriteConn(1) else ReadPipe(1);
      assert Carries(move) && !OfFirst(move) && Enabled(s, CopierMove(side, move));
    }
  }
}
