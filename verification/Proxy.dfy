/**
 Proxying TCP to TCP: two connections, two crossed pipes and four copiers.

 A `Lane` is one direction: the connection it reads from, the copier in front of the pipe, the pipe,
 the copier behind it, and what that copier has delivered to the other connection. The proxy has a
 lane from client to server and one from server to client; `bidirectionalCopy` on the listen side
 runs the first copier of the one and the second copier of the other, and on the connect side the
 remaining two. A copier that ends runs its deferred closes one at a time: its stream's reader, its
 stream's writer, its connection.

 Library behaviour taken as given: `io.Copy` alternates reads and writes; an `io.Pipe` write lasts
 until its last byte is read or either end is closed; closing either end makes later reads and
 writes on both ends return; a connection may fail any read or write, and fails them all once closed.
 */
module ProxySystem {
  import opened Bytes

  datatype Side = ListenSide | ConnectSide

  /** A lane is named after the side it reads from. */
  function Opposite(side: Side): Side {
    if side.ListenSide? then ConnectSide else ListenSide
  }

  /** The copier in front of the pipe: `io.Copy(stream.Writer, conn)`. */
  datatype First =
    | FirstReading
    | Offering(chunk: Bytes)     // has read a chunk, about to write it to the pipe
    | Waiting                    // inside the pipe write
    | FirstClosing(closed: nat)  // has run that many of its three closes
    | FirstDone

  /** The copier behind the pipe: `io.Copy(conn, stream.Reader)`. */
  datatype Second =
    | SecondReading
    | Writing(rest: Bytes)       // the part of its chunk not yet written to the connection
    | SecondClosing(closed: nat)
    | SecondDone

  datatype Lane = Lane(
    input: Bytes,         // sent by the peer, not yet read
    ended: bool,          // the peer has closed its sending direction
    consumed: Bytes,      // history: everything read from the connection
    first: First,
    pending: Bytes,       // bytes of the write in progress not yet read from the pipe
    writerClosed: bool,
    readerClosed: bool,
    second: Second,
    delivered: Bytes,     // everything written to the other connection
    failed: bool)         // history: some Write of this lane has returned an error

  /** `Connect` has not dialled yet, is running its copiers, or has returned with an error. */
  datatype Phase = Dialling | Connected | DialFailed

  datatype State = State(
    fromListen: Lane,
    fromConnect: Lane,
    listenClosed: bool,   // the client's connection
    connectClosed: bool,  // the server's connection
    phase: Phase)

  /** What the two copiers of a lane do, apart from closing. */
  datatype Move =
    // the first copier
    | ReadConn(n: nat) | ReadConnEnd | ReadConnError
    | Offer | OfferFail | WriteDone | WriteFail
    // the second copier
    | ReadPipe(n: nat) | ReadPipeEnd
    | WriteConn(n: nat) | WriteConnFail | WriteConnError

  /** `side` names a lane; its first copier runs on that side and its second on the other. */
  datatype Step =
    | DialOk | DialError
    | CopierMove(side: Side, move: Move)
    | CopierClose(side: Side, first: bool)
    | PeerSend(side: Side, data: Bytes) | PeerEnd(side: Side)

  function NewLane(): Lane {
    Lane([], false, [], FirstReading, [], false, false, SecondReading, [], false)
  }

  function Init(): State {
    State(NewLane(), NewLane(), false, false, Dialling)
  }

  function LaneFrom(s: State, side: Side): Lane {
    if side.ListenSide? then s.fromListen else s.fromConnect
  }

  function WithLane(s: State, side: Side, lane: Lane): State {
    if side.ListenSide? then s.(fromListen := lane) else s.(fromConnect := lane)
  }

  predicate ConnClosed(s: State, side: Side) {
    if side.ListenSide? then s.listenClosed else s.connectClosed
  }

  /** Whether `bidirectionalCopy` has been entered on this side. */
  predicate Copying(s: State, side: Side) {
    side.ListenSide? || s.phase.Connected?
  }

  predicate PipeClosed(lane: Lane) {
    lane.writerClosed || lane.readerClosed
  }

  predicate OfFirst(move: Move) {
    !(move.ReadPipe? || move.ReadPipeEnd? || move.WriteConn? || move.WriteConnFail? || move.WriteConnError?)
  }

  /** `source` and `sink` say whether the connections the lane reads from and writes to are closed. */
  predicate CanMove(l: Lane, source: bool, sink: bool, move: Move) {
    match move
    case ReadConn(n) => l.first.FirstReading? && !source && 1 <= n <= |l.input|
    case ReadConnEnd => l.first.FirstReading? && (source || (l.ended && l.input == []))
    case ReadConnError => l.first.FirstReading?
    case Offer => l.first.Offering? && !PipeClosed(l) && l.pending == []
    case OfferFail => l.first.Offering? && PipeClosed(l)
    case WriteDone => l.first.Waiting? && l.pending == []
    case WriteFail => l.first.Waiting? && l.pending != [] && PipeClosed(l)
    case ReadPipe(n) => l.second.SecondReading? && !PipeClosed(l) && 1 <= n <= |l.pending|
    case ReadPipeEnd => l.second.SecondReading? && PipeClosed(l)
    case WriteConn(n) => l.second.Writing? && !sink && 1 <= n <= |l.second.rest|
    case WriteConnFail => l.second.Writing? && sink
    case WriteConnError => l.second.Writing?
  }

  function Moved(l: Lane, source: bool, sink: bool, move: Move): Lane
    requires CanMove(l, source, sink, move)
  {
    match move
    case ReadConn(n) =>
      l.(input := l.input[n..], consumed := l.consumed + l.input[..n], first := Offering(l.input[..n]))
    case ReadConnEnd => l.(first := FirstClosing(0))
    case ReadConnError => l.(first := FirstClosing(0))
    case Offer => l.(first := Waiting, pending := l.first.chunk)
    case OfferFail => l.(first := FirstClosing(0), failed := true)
    case WriteDone => l.(first := FirstReading)
    case WriteFail => l.(first := FirstClosing(0), pending := [], failed := true)
    case ReadPipe(n) => l.(pending := l.pending[n..], second := Writing(l.pending[..n]))
    case ReadPipeEnd => l.(second := SecondClosing(0))
    case WriteConn(n) =>
      var rest := l.second.rest[n..];
      l.(delivered := l.delivered + l.second.rest[..n], second := if rest == [] then SecondReading else Writing(rest))
    case WriteConnFail => l.(second := SecondClosing(0), failed := true)
    case WriteConnError => l.(second := SecondClosing(0), failed := true)
  }

  /** The `k`-th deferred close of a copier on `side`: stream reader, stream writer, connection. */
  function CloseNext(s: State, side: Side, k: nat): State {
    if k == 0 then WithLane(s, Opposite(side), LaneFrom(s, Opposite(side)).(readerClosed := true))
    else if k == 1 then WithLane(s, side, LaneFrom(s, side).(writerClosed := true))
    else if side.ListenSide? then s.(listenClosed := true)
    else s.(connectClosed := true)
  }

  predicate IsClosing(l: Lane, first: bool) {
    if first then l.first.FirstClosing? else l.second.SecondClosing?
  }

  /** The side on which the first or second copier of the lane from `side` runs. */
  function RunsOn(side: Side, first: bool): Side {
    if first then side else Opposite(side)
  }

  predicate Enabled(s: State, step: Step) {
    match step
    case DialOk => s.phase.Dialling?
    case DialError => s.phase.Dialling?
    case CopierMove(side, move) =>
      && Copying(s, RunsOn(side, OfFirst(move)))
      && CanMove(LaneFrom(s, side), ConnClosed(s, side), ConnClosed(s, Opposite(side)), move)
    case CopierClose(side, first) => IsClosing(LaneFrom(s, side), first)
    case PeerSend(side, data) => Copying(s, side) && !ConnClosed(s, side) && !LaneFrom(s, side).ended && data != []
    case PeerEnd(side) => Copying(s, side) && !ConnClosed(s, side) && !LaneFrom(s, side).ended
  }

  function AfterFirstClose(first: First): First
    requires first.FirstClosing?
  {
    if first.closed < 2 then FirstClosing(first.closed + 1) else FirstDone
  }

  function AfterSecondClose(second: Second): Second
    requires second.SecondClosing?
  {
    if second.closed < 2 then SecondClosing(second.closed + 1) else SecondDone
  }

  /** The lane after its first or second copier has run one more of its closes. */
  function OneMoreClosed(l: Lane, first: bool): Lane
    requires IsClosing(l, first)
  {
    if first then l.(first := AfterFirstClose(l.first)) else l.(second := AfterSecondClose(l.second))
  }

  function ClosesRun(l: Lane, first: bool): nat
    requires IsClosing(l, first)
  {
    if first then l.first.closed else l.second.closed
  }

  function Apply(s: State, step: Step): State
    requires Enabled(s, step)
  {
    match step
    case DialOk => s.(phase := Connected)
    case DialError => s.(phase := DialFailed, fromConnect := s.fromConnect.(writerClosed := true))
    case CopierMove(side, move) =>
      WithLane(s, side, Moved(LaneFrom(s, side), ConnClosed(s, side), ConnClosed(s, Opposite(side)), move))
    case CopierClose(side, first) =>
      var l := LaneFrom(s, side);
      CloseNext(WithLane(s, side, OneMoreClosed(l, first)), RunsOn(side, first), ClosesRun(l, first))
    case PeerSend(side, data) => WithLane(s, side, LaneFrom(s, side).(input := LaneFrom(s, side).input + data))
    case PeerEnd(side) => WithLane(s, side, LaneFrom(s, side).(ended := true))
  }

  predicate CanRun(s: State, steps: seq<Step>)
    decreases |steps|
  {
    steps == [] || (Enabled(s, steps[0]) && CanRun(Apply(s, steps[0]), steps[1..]))
  }

  function After(s: State, steps: seq<Step>): State
    requires CanRun(s, steps)
    decreases |steps|
  {
    if steps == [] then s else After(Apply(s, steps[0]), steps[1..])
  }

  // ----- conservation -----

  /** What the second copier has read from the pipe and not yet written. */
  function InFlight(lane: Lane): Bytes {
    if lane.second.Writing? then lane.second.rest else []
  }

  /** What the first copier has read from its connection and not yet offered to the pipe. */
  function Unoffered(lane: Lane): Bytes {
    if lane.first.Offering? then lane.first.chunk else []
  }

  predicate SecondActive(lane: Lane) {
    lane.second.SecondReading? || lane.second.Writing?
  }

  predicate FirstActive(lane: Lane) {
    lane.first.FirstReading? || lane.first.Offering? || lane.first.Waiting?
  }

  /** The parts of a lane fit together; `everything` and its prefixes account for each byte read so far. */
  ghost predicate LaneInv(lane: Lane) {
    && lane.delivered <= lane.consumed
    && (SecondActive(lane) ==> lane.delivered + InFlight(lane) <= lane.consumed)
    && (SecondActive(lane) && !PipeClosed(lane) ==>
          lane.consumed == lane.delivered + InFlight(lane) + lane.pending + Unoffered(lane))
    && (!lane.failed ==>
          lane.consumed == lane.delivered + InFlight(lane) + lane.pending + Unoffered(lane))
    && |lane.delivered| + |InFlight(lane)| + |lane.pending| + |Unoffered(lane)| <= |lane.consumed|
    && (lane.failed ==> |lane.delivered| + |InFlight(lane)| + |lane.pending| + |Unoffered(lane)| < |lane.consumed|)
    && (lane.pending != [] ==> lane.first.Waiting?)
    && (lane.first.Offering? ==> lane.first.chunk != [])
    && (lane.second.Writing? ==> lane.second.rest != [])
    && (lane.first.FirstClosing? ==> lane.first.closed <= 2)
    && (lane.second.SecondClosing? ==> lane.second.closed <= 2)
  }
}
