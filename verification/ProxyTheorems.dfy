/** Conservation and teardown of the TCP to TCP proxy, over every run. */
module ProxyTheorems {
  import opened Bytes
  import opened ProxySystem

  /** The two copiers of a side: in front of the pipe of its own lane, behind that of the other. */
  function OwnFirst(s: State, side: Side): First {
    LaneFrom(s, side).first
  }

  function OwnSecond(s: State, side: Side): Second {
    LaneFrom(s, Opposite(side)).second
  }

  predicate SideDone(s: State, side: Side) {
    OwnFirst(s, side).FirstDone? && OwnSecond(s, side).SecondDone?
  }

  /** A copier has closed what its progress through the three closes says. */
  ghost predicate ClosedUpTo(s: State, side: Side, k: nat) {
    && (k >= 1 ==> LaneFrom(s, Opposite(side)).readerClosed)
    && (k >= 2 ==> LaneFrom(s, side).writerClosed)
    && (k >= 3 ==> ConnClosed(s, side))
  }

  /** How many of its closes the first or second copier of a lane has run. */
  function Progress(l: Lane, first: bool): nat {
    if first then (match l.first { case FirstClosing(k) => k case FirstDone => 3 case _ => 0 })
    else match l.second { case SecondClosing(k) => k case SecondDone => 3 case _ => 0 }
  }

  ghost predicate SideInv(s: State, side: Side) {
    && ClosedUpTo(s, side, Progress(LaneFrom(s, side), true))
    && ClosedUpTo(s, side, Progress(LaneFrom(s, Opposite(side)), false))
    && (!Copying(s, side) ==> OwnFirst(s, side).FirstReading? && OwnSecond(s, side).SecondReading?)
    && (ConnClosed(s, side) ==> LaneFrom(s, Opposite(side)).readerClosed)
  }

  /**
   As much of it as concerns the two copiers of a side alone, whatever is on the other side: what they
   have closed is closed, and a chunk being written is not empty.
   */
  ghost predicate SideOk(s: State, side: Side) {
    && ClosedUpTo(s, side, Progress(LaneFrom(s, side), true))
    && ClosedUpTo(s, side, Progress(LaneFrom(s, Opposite(side)), false))
    && (!Copying(s, side) ==> OwnFirst(s, side).FirstReading? && OwnSecond(s, side).SecondReading?)
    && (OwnFirst(s, side).FirstClosing? ==> OwnFirst(s, side).closed <= 2)
    && (OwnSecond(s, side).SecondClosing? ==> OwnSecond(s, side).closed <= 2)
    && (OwnSecond(s, side).Writing? ==> OwnSecond(s, side).rest != [])
  }

  ghost predicate Inv(s: State) {
    && LaneInv(s.fromListen) && LaneInv(s.fromConnect)
    && SideInv(s, ListenSide) && SideInv(s, ConnectSide)
    && (s.phase.DialFailed? ==> s.fromConnect.writerClosed)
  }

  // ----- the invariant is kept -----

  lemma ReadConnKeepsLane(l: Lane, n: nat)
    requires LaneInv(l) && l.first.FirstReading? && 1 <= n <= |l.input|
    ensures LaneInv(l.(input := l.input[n..], consumed := l.consumed + l.input[..n], first := Offering(l.input[..n])))
  {
  }

  lemma ReadPipeKeepsLane(l: Lane, n: nat)
    requires LaneInv(l) && l.second.SecondReading? && !PipeClosed(l) && 1 <= n <= |l.pending|
    ensures LaneInv(l.(pending := l.pending[n..], second := Writing(l.pending[..n])))
  {
  }

  lemma WriteConnKeepsLane(l: Lane, n: nat)
    requires LaneInv(l) && l.second.Writing? && 1 <= n <= |l.second.rest|
    ensures var rest := l.second.rest[n..];
      var second := if rest == [] then SecondReading else Writing(rest);
      LaneInv(l.(delivered := l.delivered + l.second.rest[..n], second := second))
  {
  }

  lemma OfferKeepsLane(l: Lane)
    requires LaneInv(l) && l.first.Offering? && !PipeClosed(l) && l.pending == []
    ensures LaneInv(l.(first := Waiting, pending := l.first.chunk))
  {
  }

  lemma FirstFailsKeepsLane(l: Lane)
    requires LaneInv(l) && PipeClosed(l) && (l.first.Offering? || (l.first.Waiting? && l.pending != []))
    ensures LaneInv(l.(first := FirstClosing(0), pending := [], failed := true))
  {
  }

  lemma OfferFailKeepsLane(l: Lane)
    requires LaneInv(l) && l.first.Offering? && PipeClosed(l)
    ensures LaneInv(l.(first := FirstClosing(0), failed := true))
  {
    assert l.pending == [];
    FirstFailsKeepsLane(l);
  }

  lemma SecondFailsKeepsLane(l: Lane)
    requires LaneInv(l) && l.second.Writing?
    ensures LaneInv(l.(second := SecondClosing(0), failed := true))
  {
  }

  /** A copier with nothing in its hands goes back to reading or stops. */
  lemma FirstRestsKeepsLane(l: Lane, first: First)
    requires LaneInv(l) && l.pending == [] && !l.first.Offering? && first in {FirstReading, FirstClosing(0)}
    ensures LaneInv(l.(first := first))
  {
  }

  lemma SecondStopsKeepsLane(l: Lane)
    requires LaneInv(l) && l.second.SecondReading?
    ensures LaneInv(l.(second := SecondClosing(0)))
  {
  }

  lemma FirstMoveKeepsLane(l: Lane, source: bool, sink: bool, move: Move)
    requires LaneInv(l) && CanMove(l, source, sink, move) && OfFirst(move)
    ensures LaneInv(Moved(l, source, sink, move))
  {
    match move {
      case ReadConn(n) => ReadConnKeepsLane(l, n);
      case ReadConnEnd => FirstRestsKeepsLane(l, FirstClosing(0));
      case ReadConnError => FirstRestsKeepsLane(l, FirstClosing(0));
      case Offer => OfferKeepsLane(l);
      case OfferFail => OfferFailKeepsLane(l);
      case WriteDone => FirstRestsKeepsLane(l, FirstReading);
      case WriteFail => FirstFailsKeepsLane(l);
    }
  }

  lemma SecondMoveKeepsLane(l: Lane, source: bool, sink: bool, move: Move)
    requires LaneInv(l) && CanMove(l, source, sink, move) && !OfFirst(move)
    ensures LaneInv(Moved(l, source, sink, move))
  {
    match move {
      case ReadPipe(n) => ReadPipeKeepsLane(l, n);
      case ReadPipeEnd => SecondStopsKeepsLane(l);
      case WriteConn(n) => WriteConnKeepsLane(l, n);
      case WriteConnFail => SecondFailsKeepsLane(l);
      case WriteConnError => SecondFailsKeepsLane(l);
    }
  }

  lemma MoveKeepsLane(l: Lane, source: bool, sink: bool, move: Move)
    requires LaneInv(l) && CanMove(l, source, sink, move)
    ensures LaneInv(Moved(l, source, sink, move))
  {
    if OfFirst(move) {
      FirstMoveKeepsLane(l, source, sink, move);
    } else {
      SecondMoveKeepsLane(l, source, sink, move);
    }
  }

  /** `m` differs from `l` at most in further closes, further input, and a close of a copier that has ended. */
  ghost predicate Closer(l: Lane, m: Lane) {
    && m.delivered == l.delivered && m.consumed == l.consumed && m.pending == l.pending && m.failed == l.failed
    && (l.readerClosed ==> m.readerClosed) && (l.writerClosed ==> m.writerClosed)
    && (m.first == l.first || (l.first.FirstClosing? && m.first == AfterFirstClose(l.first)))
    && (m.second == l.second || (l.second.SecondClosing? && m.second == AfterSecondClose(l.second)))
  }

  lemma CloserKeepsLane(l: Lane, m: Lane)
    requires LaneInv(l) && Closer(l, m)
    ensures LaneInv(m)
  {
  }

  /** A close changes nothing but one flag. */
  lemma CloseNextFrame(s: State, closer: Side, k: nat, side: Side)
    ensures var l, t := LaneFrom(s, side), CloseNext(s, closer, k);
      var m := LaneFrom(t, side);
      && m == l.(readerClosed := m.readerClosed, writerClosed := m.writerClosed)
      && (l.readerClosed ==> m.readerClosed) && (l.writerClosed ==> m.writerClosed)
      && (ConnClosed(s, side) ==> ConnClosed(t, side))
      && t.phase == s.phase
  {
    if k == 0 {
      assert CloseNext(s, closer, k) ==
        WithLane(s, Opposite(closer), LaneFrom(s, Opposite(closer)).(readerClosed := true));
    } else if k == 1 {
      assert CloseNext(s, closer, k) == WithLane(s, closer, LaneFrom(s, closer).(writerClosed := true));
    }
  }

  /** So a copier's close step changes one flag and that copier. */
  lemma CloseFrame(s: State, x: Side, first: bool, side: Side)
    requires Enabled(s, CopierClose(x, first))
    ensures var l, t := LaneFrom(s, side), Apply(s, CopierClose(x, first));
      var m := LaneFrom(t, side);
      && m == (if x == side then OneMoreClosed(l, first) else l)
              .(readerClosed := m.readerClosed, writerClosed := m.writerClosed)
      && (l.readerClosed ==> m.readerClosed) && (l.writerClosed ==> m.writerClosed)
      && (ConnClosed(s, side) ==> ConnClosed(t, side))
      && t.phase == s.phase
  {
    var l := LaneFrom(s, x);
    CloseNextFrame(WithLane(s, x, OneMoreClosed(l, first)), RunsOn(x, first), ClosesRun(l, first), side);
  }

  /** A copier's move changes nothing outside its lane, and no flag. */
  lemma MoveFrame(s: State, x: Side, move: Move, side: Side)
    requires Enabled(s, CopierMove(x, move))
    ensures var l, t := LaneFrom(s, side), Apply(s, CopierMove(x, move));
      var m := LaneFrom(t, side);
      && m == (if x == side then Moved(l, ConnClosed(s, x), ConnClosed(s, Opposite(x)), move) else l)
      && m.readerClosed == l.readerClosed && m.writerClosed == l.writerClosed
      && (if OfFirst(move) then m.second == l.second else m.first == l.first)
      && ConnClosed(t, side) == ConnClosed(s, side) && t.phase == s.phase
  {
  }

  lemma MoveStepLane(s: State, x: Side, move: Move, side: Side)
    requires LaneInv(LaneFrom(s, side)) && Enabled(s, CopierMove(x, move))
    ensures LaneInv(LaneFrom(Apply(s, CopierMove(x, move)), side))
  {
    MoveFrame(s, x, move, side);
    if x == side {
      MoveKeepsLane(LaneFrom(s, side), ConnClosed(s, side), ConnClosed(s, Opposite(side)), move);
    }
  }

  lemma OtherStepCloser(s: State, step: Step, side: Side)
    requires Enabled(s, step) && !step.CopierMove?
    ensures Closer(LaneFrom(s, side), LaneFrom(Apply(s, step), side))
  {
    if step.CopierClose? {
      CloseFrame(s, step.side, step.first, side);
    }
  }

  lemma StepLane(s: State, step: Step, side: Side)
    requires LaneInv(LaneFrom(s, side)) && Enabled(s, step)
    ensures LaneInv(LaneFrom(Apply(s, step), side))
  {
    if step.CopierMove? {
      MoveStepLane(s, step.side, step.move, side);
    } else {
      OtherStepCloser(s, step, side);
      CloserKeepsLane(LaneFrom(s, side), LaneFrom(Apply(s, step), side));
    }
  }

  /** Nothing reopens. */
  lemma StaysClosed(s: State, step: Step, side: Side)
    requires Enabled(s, step)
    ensures var t := Apply(s, step);
      && (LaneFrom(s, side).readerClosed ==> LaneFrom(t, side).readerClosed)
      && (LaneFrom(s, side).writerClosed ==> LaneFrom(t, side).writerClosed)
      && (ConnClosed(s, side) ==> ConnClosed(t, side))
  {
    match step {
      case CopierMove(x, move) => MoveFrame(s, x, move, side);
      case CopierClose(x, first) => CloseFrame(s, x, first, side);
      case _ =>
    }
  }

  lemma StaysClosedUpTo(s: State, step: Step, side: Side, k: nat)
    requires Enabled(s, step) && ClosedUpTo(s, side, k)
    ensures ClosedUpTo(Apply(s, step), side, k)
  {
    StaysClosed(s, step, side);
    StaysClosed(s, step, Opposite(side));
  }

  /** A copier's next close takes effect. */
  lemma OwnClose(s: State, x: Side, first: bool)
    requires Enabled(s, CopierClose(x, first)) && ClosesRun(LaneFrom(s, x), first) <= 2
    requires ClosedUpTo(s, RunsOn(x, first), Progress(LaneFrom(s, x), first))
    ensures var t := Apply(s, CopierClose(x, first));
      ClosedUpTo(t, RunsOn(x, first), Progress(LaneFrom(t, x), first))
  {
  }

  lemma ProgressKept(s: State, step: Step, x: Side, first: bool)
    requires Enabled(s, step) && step != CopierClose(x, first)
    ensures Progress(LaneFrom(Apply(s, step), x), first) == Progress(LaneFrom(s, x), first)
  {
    match step {
      case CopierMove(y, move) =>
        MoveFrame(s, y, move, x);
        MoveKeepsProgress(LaneFrom(s, y), ConnClosed(s, y), ConnClosed(s, Opposite(y)), move, first);
      case CopierClose(y, f) => CloseFrame(s, y, f, x);
      case _ =>
    }
  }

  lemma MoveKeepsProgress(l: Lane, source: bool, sink: bool, move: Move, first: bool)
    requires CanMove(l, source, sink, move)
    ensures Progress(Moved(l, source, sink, move), first) == Progress(l, first)
  {
  }

  lemma StepProgress(s: State, step: Step, x: Side, first: bool)
    requires Enabled(s, step) && LaneInv(LaneFrom(s, x))
    requires ClosedUpTo(s, RunsOn(x, first), Progress(LaneFrom(s, x), first))
    ensures ClosedUpTo(Apply(s, step), RunsOn(x, first), Progress(LaneFrom(Apply(s, step), x), first))
  {
    if step == CopierClose(x, first) {
      OwnClose(s, x, first);
    } else {
      StaysClosedUpTo(s, step, RunsOn(x, first), Progress(LaneFrom(s, x), first));
      ProgressKept(s, step, x, first);
    }
  }

  /** Before `bidirectionalCopy` begins on a side its copiers do nothing. */
  lemma StepIdle(s: State, step: Step, side: Side)
    requires SideInv(s, side) && Enabled(s, step)
    ensures var t := Apply(s, step);
      !Copying(t, side) ==> OwnFirst(t, side).FirstReading? && OwnSecond(t, side).SecondReading?
  {
    match step {
      case CopierMove(x, move) =>
        MoveFrame(s, x, move, side);
        MoveFrame(s, x, move, Opposite(side));
      case CopierClose(x, first) =>
        CloseFrame(s, x, first, side);
        CloseFrame(s, x, first, Opposite(side));
      case _ =>
    }
  }

  /** A connection is closed only by a copier of its side that has already closed the side's reader. */
  lemma StepConnClosed(s: State, step: Step, side: Side)
    requires SideInv(s, side) && LaneInv(LaneFrom(s, side)) && LaneInv(LaneFrom(s, Opposite(side)))
    requires Enabled(s, step)
    ensures var t := Apply(s, step); ConnClosed(t, side) ==> LaneFrom(t, Opposite(side)).readerClosed
  {
    StaysClosed(s, step, Opposite(side));
    if ConnClosed(Apply(s, step), side) && !ConnClosed(s, side) {
      ClosesConn(s, step, side);
    }
  }

  lemma ClosesConn(s: State, step: Step, side: Side)
    requires Enabled(s, step) && ConnClosed(Apply(s, step), side) && !ConnClosed(s, side)
    ensures step.CopierClose? && RunsOn(step.side, step.first) == side
    ensures Progress(LaneFrom(s, step.side), step.first) >= 2
  {
    match step {
      case CopierMove(x, move) => MoveFrame(s, x, move, side);
      case CopierClose(x, first) => CloseConnFrame(s, x, first, side);
      case _ =>
    }
  }

  lemma CloseConnFrame(s: State, x: Side, first: bool, side: Side)
    requires Enabled(s, CopierClose(x, first))
    ensures ConnClosed(Apply(s, CopierClose(x, first)), side) == (ConnClosed(s, side) ||
      (side == RunsOn(x, first) && ClosesRun(LaneFrom(s, x), first) >= 2))
  {
  }

  lemma StepSideInv(s: State, step: Step, side: Side)
    requires SideInv(s, side) && Enabled(s, step)
    requires LaneInv(LaneFrom(s, side)) && LaneInv(LaneFrom(s, Opposite(side)))
    ensures SideInv(Apply(s, step), side)
  {
    StepProgress(s, step, side, true);
    StepProgress(s, step, Opposite(side), false);
    StepIdle(s, step, side);
    StepConnClosed(s, step, side);
  }

  lemma StepInv(s: State, step: Step)
    requires Inv(s) && Enabled(s, step)
    ensures Inv(Apply(s, step))
  {
    StepSideInv(s, step, ListenSide);
    StepSideInv(s, step, ConnectSide);
    StepLane(s, step, ListenSide);
    StepLane(s, step, ConnectSide);
    StepPhase(s, step);
  }

  lemma StepPhase(s: State, step: Step)
    requires Enabled(s, step) && (s.phase.DialFailed? ==> s.fromConnect.writerClosed)
    ensures Apply(s, step).phase.DialFailed? ==> Apply(s, step).fromConnect.writerClosed
  {
    StaysClosed(s, step, ConnectSide);
    match step {
      case CopierMove(x, move) => MoveFrame(s, x, move, ConnectSide);
      case CopierClose(x, first) => CloseFrame(s, x, first, ConnectSide);
      case _ =>
    }
  }

  lemma {:induction false} RunInv(s: State, steps: seq<Step>)
    requires Inv(s) && CanRun(s, steps)
    ensures Inv(After(s, steps))
    decreases |steps|
  {
    if steps != [] {
      StepInv(s, steps[0]);
      RunInv(Apply(s, steps[0]), steps[1..]);
    }
  }

  // ----- conservation -----

  /**
   In every reachable state, in both directions: what was delivered to one peer is a prefix of what
   was read from the other, and exactly as long as no write has failed the difference is the second
   copier's unwritten bytes, the pipe's unread bytes and the first copier's unoffered chunk, in order.
   */
  lemma Conservation(steps: seq<Step>, side: Side)
    requires CanRun(Init(), steps)
    ensures var l := LaneFrom(After(Init(), steps), side);
      && l.delivered <= l.consumed
      && (!l.failed <==> l.consumed == l.delivered + InFlight(l) + l.pending + Unoffered(l))
  {
    RunInv(Init(), steps);
  }

  // ----- teardown of one side -----

  lemma BothSidesOk(s: State, side: Side)
    requires Inv(s)
    ensures SideOk(s, side)
  {
  }

  /** Steps taken by the two copiers of a side. */
  predicate IsStepOf(step: Step, side: Side) {
    match step
    case CopierMove(x, move) => OfFirst(move) == (x == side)
    case CopierClose(x, first) => first == (x == side)
    case _ => false
  }

  /**
   Neither a peer acting nor a connection breaking of itself: what the program gets done without anyone's
   leave, given that a dial returns and that a write on an open connection can make progress.
   */
  predicate IsOwnProgress(step: Step) {
    match step
    case CopierMove(_, move) => !move.ReadConnError? && !move.WriteConnError?
    case _ => !step.PeerSend? && !step.PeerEnd?
  }

  function FirstWeight(first: First): nat {
    match first
    case FirstReading => 4
    case Offering(chunk) => 6 + 3 * |chunk|
    case Waiting => 5
    case FirstClosing(k) => if k <= 2 then 3 - k else 0
    case FirstDone => 0
  }

  function SecondWeight(second: Second): nat {
    match second
    case SecondReading => 4
    case Writing(rest) => 5 + |rest|
    case SecondClosing(k) => if k <= 2 then 3 - k else 0
    case SecondDone => 0
  }

  /** A bound on the steps the two copiers of a side still have to take once their stream's reader has ended. */
  function SideMeasure(s: State, side: Side): nat {
    6 * |LaneFrom(s, side).input| + FirstWeight(OwnFirst(s, side)) + SecondWeight(OwnSecond(s, side))
  }

  /**
   `bidirectionalCopy` on `side` has begun and the pipe it reads from is closed at either end: the
   other side has closed its writer, or a copier of this side has run its first deferred close.
   */
  predicate Winding(s: State, side: Side) {
    Copying(s, side) && PipeClosed(LaneFrom(s, Opposite(side)))
  }

  lemma FirstMoveMeasure(l: Lane, source: bool, sink: bool, move: Move)
    requires CanMove(l, source, sink, move) && OfFirst(move)
    ensures var m := Moved(l, source, sink, move);
      6 * |m.input| + FirstWeight(m.first) < 6 * |l.input| + FirstWeight(l.first)
  {
    match move
    case ReadConn(n) =>
    case Offer =>
    case WriteDone =>
    case _ =>
  }

  lemma SecondMoveMeasure(l: Lane, source: bool, sink: bool, move: Move)
    requires CanMove(l, source, sink, move) && !OfFirst(move) && PipeClosed(l)
    ensures SecondWeight(Moved(l, source, sink, move).second) < SecondWeight(l.second)
  {
  }

  lemma SecondMoveKeepsInput(l: Lane, source: bool, sink: bool, move: Move)
    requires CanMove(l, source, sink, move) && !OfFirst(move)
    ensures Moved(l, source, sink, move).input == l.input
  {
  }

  lemma WindingMoveStep(s: State, x: Side, move: Move, side: Side)
    requires Enabled(s, CopierMove(x, move)) && Winding(s, side)
    ensures var t := Apply(s, CopierMove(x, move));
      if IsStepOf(CopierMove(x, move), side) then SideMeasure(t, side) < SideMeasure(s, side)
      else SideMeasure(t, side) == SideMeasure(s, side)
  {
    MoveFrame(s, x, move, side);
    MoveFrame(s, x, move, Opposite(side));
    var l, source, sink := LaneFrom(s, x), ConnClosed(s, x), ConnClosed(s, Opposite(x));
    if OfFirst(move) {
      FirstMoveMeasure(l, source, sink, move);
    } else {
      SecondMoveKeepsInput(l, source, sink, move);
      if x != side {
        SecondMoveMeasure(l, source, sink, move);
      }
    }
  }

  lemma WindingCloseStep(s: State, x: Side, first: bool, side: Side)
    requires Enabled(s, CopierClose(x, first)) && ClosesRun(LaneFrom(s, x), first) <= 2
    ensures var t := Apply(s, CopierClose(x, first));
      if IsStepOf(CopierClose(x, first), side) then SideMeasure(t, side) < SideMeasure(s, side)
      else SideMeasure(t, side) == SideMeasure(s, side)
  {
    CloseFrame(s, x, first, side);
    CloseFrame(s, x, first, Opposite(side));
  }

  lemma WindingOtherStep(s: State, step: Step, side: Side)
    requires Enabled(s, step) && !step.CopierMove? && !step.CopierClose?
    ensures SideMeasure(Apply(s, step), side) ==
      SideMeasure(s, side) + (if step.PeerSend? && step.side == side then 6 * |step.data| else 0)
  {
  }

  lemma StaysWinding(s: State, step: Step, side: Side)
    requires Enabled(s, step) && Winding(s, side)
    ensures Winding(Apply(s, step), side)
  {
    StaysClosed(s, step, Opposite(side));
    match step {
      case CopierMove(x, move) => MoveFrame(s, x, move, side);
      case CopierClose(x, first) => CloseFrame(s, x, first, side);
      case _ =>
    }
  }

  /**
   The peer of a winding-down side can still send while its connection is open; everything else only winds
   down.
   */
  lemma WindingStep(s: State, step: Step, side: Side)
    requires LaneInv(s.fromListen) && LaneInv(s.fromConnect) && Enabled(s, step) && Winding(s, side)
    ensures Winding(Apply(s, step), side)
    ensures IsStepOf(step, side) ==> SideMeasure(Apply(s, step), side) < SideMeasure(s, side)
    ensures !IsStepOf(step, side) ==>
      SideMeasure(Apply(s, step), side) ==
        SideMeasure(s, side) + (if step.PeerSend? && step.side == side then 6 * |step.data| else 0)
    ensures step.PeerSend? && step.side == side ==> !ConnClosed(s, side)
  {
    StaysWinding(s, step, side);
    match step {
      case CopierMove(x, move) => WindingMoveStep(s, x, move, side);
      case CopierClose(x, first) => WindingCloseStep(s, x, first, side);
      case _ => WindingOtherStep(s, step, side);
    }
  }

  /** While a winding-down side has a copier left, one of its copiers can take a step: nothing is stuck. */
  lemma WindingNeverStuck(s: State, side: Side) returns (step: Step)
    requires SideOk(s, side) && Winding(s, side) && !SideDone(s, side)
    ensures Enabled(s, step) && IsStepOf(step, side) && IsOwnProgress(step)
  {
    var there := Opposite(side);
    match OwnSecond(s, side)
    case SecondReading => step := CopierMove(there, ReadPipeEnd);
    case Writing(rest) => step := CopierMove(there, if ConnClosed(s, side) then WriteConnFail else WriteConn(|rest|));
    case SecondClosing(_) => step := CopierClose(there, false);
    case SecondDone =>
      match OwnFirst(s, side)
      case FirstReading => step := CopierMove(side, ReadConnEnd);
      case Offering(_) => step := CopierMove(side, OfferFail);
      case Waiting => step := CopierMove(side, if LaneFrom(s, side).pending == [] then WriteDone else WriteFail);
      case FirstClosing(_) => step := CopierClose(side, true);
  }

  function OwnSteps(steps: seq<Step>, side: Side): nat {
    if steps == [] then 0 else (if IsStepOf(steps[0], side) then 1 else 0) + OwnSteps(steps[1..], side)
  }

  /** The bytes a side's peer sends during a run. */
  function SentBy(steps: seq<Step>, side: Side): nat {
    if steps == [] then 0
    else (if steps[0].PeerSend? && steps[0].side == side then |steps[0].data| else 0) + SentBy(steps[1..], side)
  }

  /**
   So `Wait` returns: a winding-down side takes at most this many further steps, whatever everyone else
   does.
   */
  lemma {:induction false} WindingIsBounded(s: State, steps: seq<Step>, side: Side)
    requires Inv(s) && Winding(s, side) && CanRun(s, steps)
    ensures Winding(After(s, steps), side)
    ensures OwnSteps(steps, side) + SideMeasure(After(s, steps), side) <= SideMeasure(s, side) + 6 * SentBy(steps, side)
    decreases |steps|
  {
    if steps != [] {
      StepInv(s, steps[0]);
      WindingStep(s, steps[0], side);
      WindingIsBounded(Apply(s, steps[0]), steps[1..], side);
    }
  }

  /**
   Once a copier has run its closes, its side is winding down, and its closes have reached everything it
   holds.
   */
  lemma EndedSideWinds(s: State, side: Side)
    requires SideOk(s, side) && (OwnFirst(s, side).FirstDone? || OwnSecond(s, side).SecondDone?)
    ensures Winding(s, side)
    ensures LaneFrom(s, side).writerClosed && ConnClosed(s, side)
  {
  }

  lemma NextOfWinding(s: State, side: Side) returns (next: Option<Step>)
    requires SideOk(s, side) && Winding(s, side)
    ensures next.None? ==> SideDone(s, side) && ConnClosed(s, side)
    ensures next.Some? ==> Enabled(s, next.value) && IsStepOf(next.value, side) && IsOwnProgress(next.value)
  {
    if SideDone(s, side) {
      EndedSideWinds(s, side);
      next := None;
    } else {
      var step := WindingNeverStuck(s, side);
      next := Some(step);
    }
  }

  // ----- teardown of the whole proxy -----

  /** Some copier has left its loop, or the dial has failed. */
  predicate SomethingEnded(s: State) {
    || s.phase.DialFailed?
    || exists side: Side :: !FirstActive(LaneFrom(s, side)) || !SecondActive(LaneFrom(s, side))
  }

  predicate AllDone(s: State) {
    SideDone(s, ListenSide) && (s.phase.DialFailed? || SideDone(s, ConnectSide))
  }

  function LaneMeasure(l: Lane): nat {
    6 * |l.input| + (if l.ended then 0 else 1) + FirstWeight(l.first) + 3 * |l.pending| + SecondWeight(l.second)
  }

  function Measure(s: State): nat {
    LaneMeasure(s.fromListen) + LaneMeasure(s.fromConnect) + (if s.phase.Dialling? then 1 else 0)
  }

  lemma MoveMeasure(l: Lane, source: bool, sink: bool, move: Move)
    requires LaneInv(l) && CanMove(l, source, sink, move)
    ensures LaneMeasure(Moved(l, source, sink, move)) < LaneMeasure(l)
  {
  }

  lemma MoveStepMeasure(s: State, x: Side, move: Move)
    requires LaneInv(LaneFrom(s, x)) && Enabled(s, CopierMove(x, move))
    ensures Measure(Apply(s, CopierMove(x, move))) < Measure(s)
  {
    MoveMeasure(LaneFrom(s, x), ConnClosed(s, x), ConnClosed(s, Opposite(x)), move);
    MoveFrame(s, x, move, x);
    MoveFrame(s, x, move, Opposite(x));
  }

  lemma CloseMeasure(l: Lane, first: bool, readerClosed: bool, writerClosed: bool)
    requires LaneInv(l) && IsClosing(l, first)
    ensures var m := OneMoreClosed(l, first).(readerClosed := readerClosed, writerClosed := writerClosed);
      LaneMeasure(m) < LaneMeasure(l)
  {
  }

  lemma CloseStepMeasure(s: State, x: Side, first: bool)
    requires LaneInv(LaneFrom(s, x)) && Enabled(s, CopierClose(x, first))
    ensures Measure(Apply(s, CopierClose(x, first))) < Measure(s)
  {
    CloseFrame(s, x, first, x);
    CloseFrame(s, x, first, Opposite(x));
    var m := LaneFrom(Apply(s, CopierClose(x, first)), x);
    CloseMeasure(LaneFrom(s, x), first, m.readerClosed, m.writerClosed);
  }

  lemma StepMeasure(s: State, step: Step)
    requires LaneInv(s.fromListen) && LaneInv(s.fromConnect) && Enabled(s, step)
    ensures step.PeerSend? ==> Measure(Apply(s, step)) == Measure(s) + 6 * |step.data|
    ensures !step.PeerSend? ==> Measure(Apply(s, step)) < Measure(s)
  {
    match step {
      case CopierMove(x, move) => MoveStepMeasure(s, x, move);
      case CopierClose(x, first) => CloseStepMeasure(s, x, first);
      case _ => OtherStepMeasure(s, step);
    }
  }

  lemma OtherStepMeasure(s: State, step: Step)
    requires Enabled(s, step) && !step.CopierMove? && !step.CopierClose?
    ensures step.PeerSend? ==> Measure(Apply(s, step)) == Measure(s) + 6 * |step.data|
    ensures !step.PeerSend? ==> Measure(Apply(s, step)) < Measure(s)
  {
  }

  /** Both sides have begun to copy, and a copier of one is done. */
  lemma NextAfterDone(s: State, side: Side) returns (step: Step)
    requires Inv(s) && Copying(s, ConnectSide) && !AllDone(s)
    requires OwnFirst(s, side).FirstDone? || OwnSecond(s, side).SecondDone?
    ensures Enabled(s, step) && IsOwnProgress(step)
  {
    BothSidesOk(s, side);
    BothSidesOk(s, Opposite(side));
    EndedSideWinds(s, side);
    step := WindingNeverStuck(s, if SideDone(s, side) then Opposite(side) else side);
  }

  /**
   Once anything has ended the whole proxy winds down: some step of the program is enabled until all four
   copiers are done.
   */
  lemma NeverStuck(s: State) returns (step: Step)
    requires Inv(s) && SomethingEnded(s) && !AllDone(s)
    ensures Enabled(s, step) && IsOwnProgress(step)
  {
    if s.phase.Dialling? {
      return DialOk;
    }
    if s.phase.DialFailed? {
      BothSidesOk(s, ListenSide);
      step := WindingNeverStuck(s, ListenSide);
      return;
    }
    var x: Side :| !FirstActive(LaneFrom(s, x)) || !SecondActive(LaneFrom(s, x));
    if LaneFrom(s, x).first.FirstClosing? {
      return CopierClose(x, true);
    }
    if LaneFrom(s, x).second.SecondClosing? {
      return CopierClose(x, false);
    }
    step := NextAfterDone(s, if LaneFrom(s, x).first.FirstDone? then x else Opposite(x));
  }

  function Sent(steps: seq<Step>): nat {
    if steps == [] then 0 else (if steps[0].PeerSend? then |steps[0].data| + 1 else 0) + Sent(steps[1..])
  }

  /** No run goes on for ever on finite input: its length is bounded by what the peers send. */
  lemma {:induction false} RunIsBounded(s: State, steps: seq<Step>)
    requires Inv(s) && CanRun(s, steps)
    ensures |steps| + Measure(After(s, steps)) <= Measure(s) + 7 * Sent(steps)
    decreases |steps|
  {
    if steps != [] {
      StepInv(s, steps[0]);
      StepMeasure(s, steps[0]);
      RunIsBounded(Apply(s, steps[0]), steps[1..]);
    }
  }

  lemma StaysEnded(s: State, step: Step)
    requires Enabled(s, step) && SomethingEnded(s)
    ensures SomethingEnded(Apply(s, step))
  {
    if !s.phase.DialFailed? {
      var x: Side :| !FirstActive(LaneFrom(s, x)) || !SecondActive(LaneFrom(s, x));
      StaysInactive(s, step, x);
    }
  }

  lemma StaysInactive(s: State, step: Step, x: Side)
    requires Enabled(s, step)
    ensures !FirstActive(LaneFrom(s, x)) ==> !FirstActive(LaneFrom(Apply(s, step), x))
    ensures !SecondActive(LaneFrom(s, x)) ==> !SecondActive(LaneFrom(Apply(s, step), x))
  {
    match step {
      case CopierMove(y, move) => MoveFrame(s, y, move, x);
      case CopierClose(y, first) => CloseFrame(s, y, first, x);
      case _ =>
    }
  }

  lemma {:induction false} RunStaysEnded(s: State, steps: seq<Step>)
    requires CanRun(s, steps) && SomethingEnded(s)
    ensures SomethingEnded(After(s, steps))
    decreases |steps|
  {
    if steps != [] {
      StaysEnded(s, steps[0]);
      RunStaysEnded(Apply(s, steps[0]), steps[1..]);
    }
  }

  /**
   Together: once anything has ended, every run is of bounded length but for what the peers still send,
   and one that the program cannot extend has all copiers done.
   */
  lemma EveryRunEnds(before: seq<Step>, after: seq<Step>)
    requires CanRun(Init(), before) && SomethingEnded(After(Init(), before))
    requires CanRun(After(Init(), before), after)
    ensures |after| <= Measure(After(Init(), before)) + 7 * Sent(after)
    ensures var t := After(After(Init(), before), after);
      (forall step :: IsOwnProgress(step) ==> !Enabled(t, step)) ==> AllDone(t)
  {
    var s := After(Init(), before);
    RunInv(Init(), before);
    RunInv(s, after);
    RunStaysEnded(s, after);
    RunIsBounded(s, after);
    var t := After(s, after);
    if !AllDone(t) {
      var step := NeverStuck(t);
    }
  }

  // ----- closed ends -----

  lemma ClosedConnMove(s: State, x: Side, move: Move, side: Side)
    requires Enabled(s, CopierMove(x, move)) && ConnClosed(s, side)
    ensures var t := Apply(s, CopierMove(x, move));
      && LaneFrom(t, side).consumed == LaneFrom(s, side).consumed
      && LaneFrom(t, Opposite(side)).delivered == LaneFrom(s, Opposite(side)).delivered
  {
    MoveFrame(s, x, move, side);
    MoveFrame(s, x, move, Opposite(side));
    ClosedConnLane(LaneFrom(s, x), ConnClosed(s, x), ConnClosed(s, Opposite(x)), move);
  }

  lemma ClosedConnLane(l: Lane, source: bool, sink: bool, move: Move)
    requires CanMove(l, source, sink, move)
    ensures source ==> Moved(l, source, sink, move).consumed == l.consumed
    ensures sink ==> Moved(l, source, sink, move).delivered == l.delivered
  {
  }

  lemma ClosedConnStep(s: State, step: Step, side: Side)
    requires Enabled(s, step) && ConnClosed(s, side)
    ensures var t := Apply(s, step);
      && ConnClosed(t, side)
      && LaneFrom(t, side).consumed == LaneFrom(s, side).consumed
      && LaneFrom(t, Opposite(side)).delivered == LaneFrom(s, Opposite(side)).delivered
  {
    StaysClosed(s, step, side);
    match step {
      case CopierMove(x, move) => ClosedConnMove(s, x, move, side);
      case CopierClose(x, first) =>
        CloseFrame(s, x, first, side);
        CloseFrame(s, x, first, Opposite(side));
      case _ =>
    }
  }

  /** Over any run, nothing is read from a connection after it is closed, and nothing written to it. */
  lemma {:induction false} ClosedConnIsSilent(s: State, steps: seq<Step>, side: Side)
    requires CanRun(s, steps) && ConnClosed(s, side)
    ensures var t := After(s, steps);
      && LaneFrom(t, side).consumed == LaneFrom(s, side).consumed
      && LaneFrom(t, Opposite(side)).delivered == LaneFrom(s, Opposite(side)).delivered
    decreases |steps|
  {
    if steps != [] {
      ClosedConnStep(s, steps[0], side);
      ClosedConnIsSilent(Apply(s, steps[0]), steps[1..], side);
    }
  }

  /** What the second copier has got out of the pipe. */
  function OutOfPipe(l: Lane): Bytes {
    l.delivered + InFlight(l)
  }

  lemma ClosedPipeMove(l: Lane, source: bool, sink: bool, move: Move)
    requires CanMove(l, source, sink, move) && PipeClosed(l)
    ensures OutOfPipe(Moved(l, source, sink, move)) <= OutOfPipe(l)
  {
    if move.WriteConn? {
      assert l.second.rest == l.second.rest[..move.n] + l.second.rest[move.n..];
    }
  }

  lemma ClosedPipeStep(s: State, step: Step, side: Side)
    requires Enabled(s, step) && PipeClosed(LaneFrom(s, side))
    ensures PipeClosed(LaneFrom(Apply(s, step), side))
    ensures OutOfPipe(LaneFrom(Apply(s, step), side)) <= OutOfPipe(LaneFrom(s, side))
  {
    StaysClosed(s, step, side);
    match step {
      case CopierMove(x, move) =>
        MoveFrame(s, x, move, side);
        if x == side {
          ClosedPipeMove(LaneFrom(s, x), ConnClosed(s, x), ConnClosed(s, Opposite(x)), move);
        }
      case CopierClose(x, first) => CloseFrame(s, x, first, side);
      case _ =>
    }
  }

  /**
   Over any run, nothing comes out of a pipe after either end is closed: what gets delivered is what the
   copier behind it had already read.
   */
  lemma {:induction false} ClosedPipeIsSilent(s: State, steps: seq<Step>, side: Side)
    requires CanRun(s, steps) && PipeClosed(LaneFrom(s, side))
    ensures OutOfPipe(LaneFrom(After(s, steps), side)) <= OutOfPipe(LaneFrom(s, side))
    decreases |steps|
  {
    if steps != [] {
      ClosedPipeStep(s, steps[0], side);
      ClosedPipeIsSilent(Apply(s, steps[0]), steps[1..], side);
      PrefixTrans(OutOfPipe(LaneFrom(After(s, steps), side)),
        OutOfPipe(LaneFrom(Apply(s, steps[0]), side)), OutOfPipe(LaneFrom(s, side)));
    }
  }
}
