/**
 One TCP side of a proxy with anything at all on the other: `ProxyStreamManager` is given `Connect` as a
 function, of any scheme, and it may read as much or as little as it likes before it returns.
 */
module ProxyTeardown {
  import opened Bytes
  import opened ProxySystem
  import opened ProxyTheorems
  import ProxyLoss

  /**
   Anything the other side, the two pipes or the network may do to the state of a side. It does not move
   the side's two copiers or give them input, and it reopens nothing.
   */
  predicate Outside(s: State, t: State, side: Side) {
    var here, there := LaneFrom(s, side), LaneFrom(s, Opposite(side));
    var nowHere, nowThere := LaneFrom(t, side), LaneFrom(t, Opposite(side));
    && nowHere.first == here.first && nowHere.input == here.input && nowThere.second == there.second
    && (here.readerClosed ==> nowHere.readerClosed) && (here.writerClosed ==> nowHere.writerClosed)
    && (there.readerClosed ==> nowThere.readerClosed) && (there.writerClosed ==> nowThere.writerClosed)
    && (ConnClosed(s, side) ==> ConnClosed(t, side))
    && (Copying(s, side) ==> Copying(t, side))
  }

  /** A step of the side's two copiers, a step of its peer, or whatever the rest of the world does. */
  datatype Event = Own(step: Step) | FromPeer(step: Step) | Other(next: State)

  predicate IsPeerStep(step: Step, side: Side) {
    (step.PeerSend? || step.PeerEnd?) && step.side == side
  }

  predicate Happens(s: State, e: Event, side: Side) {
    match e
    case Own(step) => Enabled(s, step) && IsStepOf(step, side)
    case FromPeer(step) => Enabled(s, step) && IsPeerStep(step, side)
    case Other(next) => Outside(s, next, side)
  }

  function Result(s: State, e: Event, side: Side): State
    requires Happens(s, e, side)
  {
    match e
    case Own(step) => Apply(s, step)
    case FromPeer(step) => Apply(s, step)
    case Other(next) => next
  }

  predicate CanHappen(s: State, events: seq<Event>, side: Side)
    decreases |events|
  {
    events == [] || (Happens(s, events[0], side) && CanHappen(Result(s, events[0], side), events[1..], side))
  }

  function Outcome(s: State, events: seq<Event>, side: Side): State
    requires CanHappen(s, events, side)
    decreases |events|
  {
    if events == [] then s else Outcome(Result(s, events[0], side), events[1..], side)
  }

  function OwnCount(events: seq<Event>): nat {
    if events == [] then 0 else (if events[0].Own? then 1 else 0) + OwnCount(events[1..])
  }

  function BytesOf(e: Event): nat {
    if e.FromPeer? && e.step.PeerSend? then |e.step.data| else 0
  }

  function SentIn(events: seq<Event>): nat {
    if events == [] then 0 else BytesOf(events[0]) + SentIn(events[1..])
  }

  // ----- what one event keeps -----

  lemma MoveKeepsClosed(s: State, x: Side, move: Move, side: Side, y: Side, first: bool)
    requires Enabled(s, CopierMove(x, move)) && ClosedUpTo(s, side, Progress(LaneFrom(s, y), first))
    ensures var t := Apply(s, CopierMove(x, move)); ClosedUpTo(t, side, Progress(LaneFrom(t, y), first))
  {
    ProgressKept(s, CopierMove(x, move), y, first);
    StaysClosedUpTo(s, CopierMove(x, move), side, Progress(LaneFrom(s, y), first));
  }

  /** A copier's move leaves no copier with an empty chunk or beyond its three closes. */
  lemma MoveKeepsShape(l: Lane, source: bool, sink: bool, move: Move)
    requires CanMove(l, source, sink, move)
    ensures var m := Moved(l, source, sink, move);
      && (m.first.FirstClosing? ==> m.first == l.first || m.first.closed == 0)
      && (m.second.SecondClosing? ==> m.second == l.second || m.second.closed == 0)
      && (m.second.Writing? ==> m.second == l.second || m.second.rest != [])
  {
  }

  lemma MoveKeepsOk(s: State, x: Side, move: Move, side: Side)
    requires SideOk(s, side) && Enabled(s, CopierMove(x, move)) && IsStepOf(CopierMove(x, move), side)
    ensures SideOk(Apply(s, CopierMove(x, move)), side)
  {
    MoveKeepsClosed(s, x, move, side, side, true);
    MoveKeepsClosed(s, x, move, side, Opposite(side), false);
    MoveKeepsShape(LaneFrom(s, x), ConnClosed(s, x), ConnClosed(s, Opposite(x)), move);
    MoveFrame(s, x, move, side);
    MoveFrame(s, x, move, Opposite(side));
  }

  lemma CloseKeepsOk(s: State, x: Side, first: bool, side: Side)
    requires SideOk(s, side) && Enabled(s, CopierClose(x, first)) && IsStepOf(CopierClose(x, first), side)
    ensures SideOk(Apply(s, CopierClose(x, first)), side)
  {
    var step := CopierClose(x, first);
    OwnClose(s, x, first);
    ProgressKept(s, step, Opposite(x), !first);
    StaysClosedUpTo(s, step, side, Progress(LaneFrom(s, Opposite(x)), !first));
    CloseFrame(s, x, first, side);
    CloseFrame(s, x, first, Opposite(side));
  }

  lemma PeerKeepsOk(s: State, step: Step, side: Side)
    requires SideOk(s, side) && Enabled(s, step) && IsPeerStep(step, side)
    ensures SideOk(Apply(s, step), side)
  {
  }

  lemma OutsideKeepsOk(s: State, t: State, side: Side)
    requires SideOk(s, side) && Outside(s, t, side)
    ensures SideOk(t, side)
  {
  }

  lemma EventKeepsOk(s: State, e: Event, side: Side)
    requires SideOk(s, side) && Happens(s, e, side)
    ensures SideOk(Result(s, e, side), side)
  {
    match e {
      case Own(CopierMove(x, move)) => MoveKeepsOk(s, x, move, side);
      case Own(CopierClose(x, first)) => CloseKeepsOk(s, x, first, side);
      case FromPeer(step) => PeerKeepsOk(s, step, side);
      case Other(next) => OutsideKeepsOk(s, next, side);
    }
  }

  lemma EventKeepsWinding(s: State, e: Event, side: Side)
    requires Happens(s, e, side) && Winding(s, side)
    ensures Winding(Result(s, e, side), side)
  {
    if !e.Other? {
      StaysWinding(s, e.step, side);
    }
  }

  lemma EventMeasure(s: State, e: Event, side: Side)
    requires SideOk(s, side) && Happens(s, e, side) && Winding(s, side)
    ensures e.Own? ==> SideMeasure(Result(s, e, side), side) < SideMeasure(s, side)
    ensures !e.Own? ==> SideMeasure(Result(s, e, side), side) == SideMeasure(s, side) + 6 * BytesOf(e)
  {
    match e {
      case Own(CopierMove(x, move)) => WindingMoveStep(s, x, move, side);
      case Own(CopierClose(x, first)) => WindingCloseStep(s, x, first, side);
      case FromPeer(step) => WindingOtherStep(s, step, side);
      case Other(_) =>
    }
  }

  // ----- any number of events -----

  lemma {:induction false} EventsKeepOk(s: State, events: seq<Event>, side: Side)
    requires SideOk(s, side) && CanHappen(s, events, side)
    ensures SideOk(Outcome(s, events, side), side)
    decreases |events|
  {
    if events != [] {
      EventKeepsOk(s, events[0], side);
      EventsKeepOk(Result(s, events[0], side), events[1..], side);
    }
  }

  lemma {:induction false} EventsAreBounded(s: State, events: seq<Event>, side: Side)
    requires SideOk(s, side) && Winding(s, side) && CanHappen(s, events, side)
    ensures var t := Outcome(s, events, side);
      && Winding(t, side)
      && OwnCount(events) + SideMeasure(t, side) <= SideMeasure(s, side) + 6 * SentIn(events)
    decreases |events|
  {
    if events != [] {
      EventKeepsOk(s, events[0], side);
      EventKeepsWinding(s, events[0], side);
      EventMeasure(s, events[0], side);
      EventsAreBounded(Result(s, events[0], side), events[1..], side);
    }
  }

  /**
   Once the pipe a TCP side reads from is closed, whatever is on the other side and whatever it goes on
   to do: the side's two copiers take at most so many further steps, and until both are done one of them
   can take one. So `Wait` returns.
   */
  lemma SideEnds(before: seq<Event>, after: seq<Event>, side: Side) returns (next: Option<Step>)
    requires CanHappen(Init(), before, side) && Winding(Outcome(Init(), before, side), side)
    requires CanHappen(Outcome(Init(), before, side), after, side)
    ensures var s := Outcome(Init(), before, side);
      OwnCount(after) <= SideMeasure(s, side) + 6 * SentIn(after)
    ensures var t := Outcome(Outcome(Init(), before, side), after, side);
      && (next.None? ==> SideDone(t, side) && ConnClosed(t, side))
      && (next.Some? ==> Enabled(t, next.value) && IsStepOf(next.value, side) && IsOwnProgress(next.value))
  {
    var s := Outcome(Init(), before, side);
    EventsKeepOk(Init(), before, side);
    EventsKeepOk(s, after, side);
    EventsAreBounded(s, after, side);
    next := NextOfWinding(Outcome(s, after, side), side);
  }

  /**
   When `Connect` has returned, whatever it is and whatever it did before, `connectWriter` is closed, and
   that alone ends the listen side. Nothing is asked of the other pipe, which may hold bytes nobody will
   ever read, its reader left open.
   */
  lemma ConnectReturnEndsListenSide(before: seq<Event>, after: seq<Event>) returns (next: Option<Step>)
    requires CanHappen(Init(), before, ListenSide) && Outcome(Init(), before, ListenSide).fromConnect.writerClosed
    requires CanHappen(Outcome(Init(), before, ListenSide), after, ListenSide)
    ensures var s := Outcome(Init(), before, ListenSide);
      OwnCount(after) <= SideMeasure(s, ListenSide) + 6 * SentIn(after)
    ensures var t := Outcome(Outcome(Init(), before, ListenSide), after, ListenSide);
      && (next.None? ==> SideDone(t, ListenSide) && t.listenClosed)
      && (next.Some? ==> Enabled(t, next.value) && IsStepOf(next.value, ListenSide) && IsOwnProgress(next.value))
  {
    next := SideEnds(before, after, ListenSide);
  }

  // ----- TCP on both sides -----

  /** What a step of the proxy with TCP on both sides is to one of the sides. */
  function EventOf(s: State, step: Step, side: Side): Event
    requires Enabled(s, step)
  {
    if IsStepOf(step, side) then Own(step)
    else if IsPeerStep(step, side) then FromPeer(step)
    else Other(Apply(s, step))
  }

  function EventsOf(s: State, steps: seq<Step>, side: Side): seq<Event>
    requires CanRun(s, steps)
    decreases |steps|
  {
    if steps == [] then []
    else [EventOf(s, steps[0], side)] + EventsOf(Apply(s, steps[0]), steps[1..], side)
  }

  lemma OtherMoveIsOutside(s: State, x: Side, move: Move, side: Side)
    requires Enabled(s, CopierMove(x, move)) && !IsStepOf(CopierMove(x, move), side)
    ensures Outside(s, Apply(s, CopierMove(x, move)), side)
  {
    MoveFrame(s, x, move, side);
    MoveFrame(s, x, move, Opposite(side));
    if x == side {
      SecondMoveKeepsInput(LaneFrom(s, x), ConnClosed(s, x), ConnClosed(s, Opposite(x)), move);
    }
  }

  lemma OtherCloseIsOutside(s: State, x: Side, first: bool, side: Side)
    requires Enabled(s, CopierClose(x, first)) && !IsStepOf(CopierClose(x, first), side)
    ensures Outside(s, Apply(s, CopierClose(x, first)), side)
  {
    CloseFrame(s, x, first, side);
    CloseFrame(s, x, first, Opposite(side));
  }

  /** The other TCP side is one of the things that can be there. */
  lemma StepHappens(s: State, step: Step, side: Side)
    requires Enabled(s, step)
    ensures Happens(s, EventOf(s, step, side), side) && Result(s, EventOf(s, step, side), side) == Apply(s, step)
  {
    if !IsStepOf(step, side) && !IsPeerStep(step, side) {
      match step {
        case CopierMove(x, move) => OtherMoveIsOutside(s, x, move, side);
        case CopierClose(x, first) => OtherCloseIsOutside(s, x, first, side);
        case _ =>
      }
    }
  }

  lemma {:induction false} RunHappens(s: State, steps: seq<Step>, side: Side)
    requires CanRun(s, steps)
    ensures CanHappen(s, EventsOf(s, steps, side), side)
    ensures Outcome(s, EventsOf(s, steps, side), side) == After(s, steps)
    ensures OwnCount(EventsOf(s, steps, side)) == OwnSteps(steps, side)
    ensures SentIn(EventsOf(s, steps, side)) == SentBy(steps, side)
    decreases |steps|
  {
    if steps != [] {
      var rest := EventsOf(Apply(s, steps[0]), steps[1..], side);
      StepHappens(s, steps[0], side);
      RunHappens(Apply(s, steps[0]), steps[1..], side);
      assert ([EventOf(s, steps[0], side)] + rest)[1..] == rest;
    }
  }

  lemma {:induction false} OneMore(s: State, events: seq<Event>, last: Event, side: Side)
    requires CanHappen(s, events, side) && Happens(Outcome(s, events, side), last, side)
    ensures CanHappen(s, events + [last], side)
    ensures Outcome(s, events + [last], side) == Result(Outcome(s, events, side), last, side)
    decreases |events|
  {
    if events == [] {
      assert [last][1..] == [];
    } else {
      assert (events + [last])[0] == events[0] && (events + [last])[1..] == events[1..] + [last];
      OneMore(Result(s, events[0], side), events[1..], last, side);
    }
  }

  /**
   `ConnectReturnEndsListenSide` is needed with the other copier blocked: a `Connect` that reads part of a
   request and returns with its reader open leaves the rest in the pipe and the copier inside its write.
   */
  lemma ConnectCanLeaveCopierBlocked(request: Bytes) returns (events: seq<Event>)
    requires |request| > 1
    ensures CanHappen(Init(), events, ListenSide)
    ensures var s := Outcome(Init(), events, ListenSide);
      && s.fromConnect.writerClosed && !PipeClosed(s.fromListen)
      && s.fromListen.first.Waiting? && s.fromListen.pending == request[1..]
      && !Enabled(s, CopierMove(ListenSide, WriteDone)) && !Enabled(s, CopierMove(ListenSide, WriteFail))
  {
    var steps := ProxyLoss.RequestOffered(request);
    RunHappens(Init(), steps, ListenSide);
    var s := After(Init(), steps);
    var t := s.(fromListen := s.fromListen.(pending := request[1..]),
                fromConnect := s.fromConnect.(writerClosed := true));
    OneMore(Init(), EventsOf(Init(), steps, ListenSide), Other(t), ListenSide);
    events := EventsOf(Init(), steps, ListenSide) + [Other(t)];
  }

  /** `Connect` of the TCP scheme has returned, with an error or after both its copiers. */
  predicate TcpReturned(s: State) {
    s.phase.DialFailed? || SideDone(s, ConnectSide)
  }

  lemma TcpReturnCloses(s: State)
    requires Inv(s) && TcpReturned(s)
    ensures s.fromConnect.writerClosed
  {
    if !s.phase.DialFailed? {
      EndedSideWinds(s, ConnectSide);
    }
  }

  /** The case of TCP on both sides. */
  lemma TcpReturnEndsListenSide(before: seq<Step>, after: seq<Step>) returns (next: Option<Step>)
    requires CanRun(Init(), before) && TcpReturned(After(Init(), before))
    requires CanRun(After(Init(), before), after)
    ensures var s := After(Init(), before);
      && s.fromConnect.writerClosed
      && OwnSteps(after, ListenSide) <= SideMeasure(s, ListenSide) + 6 * SentBy(after, ListenSide)
    ensures var t := After(After(Init(), before), after);
      && (next.None? ==> SideDone(t, ListenSide) && t.listenClosed)
      && (next.Some? ==> Enabled(t, next.value) && IsStepOf(next.value, ListenSide) && IsOwnProgress(next.value))
  {
    var s := After(Init(), before);
    RunInv(Init(), before);
    TcpReturnCloses(s);
    RunHappens(Init(), before, ListenSide);
    RunHappens(s, after, ListenSide);
    next := ConnectReturnEndsListenSide(EventsOf(Init(), before, ListenSide), EventsOf(s, after, ListenSide));
  }
}
