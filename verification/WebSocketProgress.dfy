/** What the lane of a WebSocket proxy gets done: while its pipe is open, at an orderly end, and at any other. */
module WebSocketProgress {
  import opened Bytes
  import opened Scanning
  import opened WebSocketLines
  import opened WebSocketLane

  // ----- while the pipe is open -----

  /** The pipe is open, and neither goroutine has left its loop. */
  predicate Open(s: State) {
    !PipeClosed(s) && !s.reader.ReaderEnded? && !s.ended
  }

  /** A step of the lane that takes bytes on, or frees the reader to receive more. */
  predicate Carries(step: Step) {
    step.Offer? || step.WriteDone? || step.ReadPipe? || step.Send?
  }

  predicate AllFit(msgs: seq<Bytes>, limit: nat) {
    forall m :: m in msgs ==> |m| < limit
  }

  lemma InPart(lines: Bytes, part: Bytes)
    ensures forall k: nat :: |lines| <= k < |lines + part| ==> (lines + part)[k] in part
  {
  }

  /** A last line still without its newline is part of a message. */
  lemma {:induction false} PartFits(msgs: seq<Bytes>, lines: Bytes, part: Bytes, limit: nat)
    requires AllPlain(msgs) && AllFit(msgs, limit) && 0 < limit
    requires Complete(lines) && NEWLINE !in part && lines + part <= Encode(msgs)
    ensures |part| < limit
    decreases |msgs|
  {
    if lines + part != [] {
      var m, cut := msgs[0], lines + part;
      assert m in msgs && Plain(m);
      if |cut| <= |m| {
        MessageCut(msgs, cut);
        assert forall k :: 0 <= k < |lines| ==> cut[k] == lines[k];
      } else {
        SplitCut(msgs, cut);
        assert cut[|m|] == NEWLINE;
        InPart(lines, part);
        var rest := lines[|m| + 1..];
        assert cut[|m| + 1..] == rest + part;
        PartFits(msgs[1..], rest, part, limit);
      }
    }
  }

  lemma NoTokenNoNewline(buf: Bytes)
    requires ScanLines(buf, false).More?
    ensures NEWLINE !in buf
  {
    var i := FindNewline(buf, 0);
    assert forall j :: 0 <= j < |buf| ==> buf[j] != NEWLINE;
  }

  /** An open lane that holds anything can carry it on. */
  lemma OpenNeverStuck(limit: nat, s: State) returns (step: Step)
    requires Inv(s) && Open(s) && AllPlain(s.received) && AllFit(s.received, limit) && 0 < limit
    requires !s.reader.Receiving? || s.pending != [] || s.buf != []
    ensures Carries(step) && Enabled(limit, s, step)
  {
    if ScanLines(s.buf, false).Token? {
      step := Send;
    } else if s.pending != [] {
      NoTokenNoNewline(s.buf);
      PartFits(s.received, s.sentBytes, s.buf, limit);
      step := ReadPipe(1);
    } else if s.reader.Offering? {
      step := Offer;
    } else if s.reader.Writing? {
      step := WriteDone;
    } else {
      NoTokenNoNewline(s.buf);
      NothingInBuffer(s);
      assert false;
    }
  }

  lemma NothingInBuffer(s: State)
    requires Inv(s) && Open(s) && s.reader.Receiving? && s.pending == [] && NEWLINE !in s.buf
    ensures s.buf == []
  {
    EncodeIsComplete(s.received);
    assert s.sentBytes + s.buf + [] + [] == s.sentBytes + s.buf;
    NothingAfterLast(s.sentBytes, s.buf);
  }

  lemma NothingAfterLast(lines: Bytes, part: Bytes)
    requires Complete(lines + part) && NEWLINE !in part
    ensures part == []
  {
    InPart(lines, part);
  }

  lemma {:induction false} EncodeIsComplete(msgs: seq<Bytes>)
    ensures Complete(Encode(msgs))
  {
    if msgs != [] {
      EncodeIsComplete(msgs[1..]);
    }
  }

  /** An open lane that holds nothing has sent on every message it has received, whole and in order. */
  lemma EmptyHasSent(s: State)
    requires Inv(s) && Open(s) && AllPlain(s.received)
    requires s.reader.Receiving? && s.pending == [] && s.buf == []
    ensures s.sent == s.received
  {
    assert s.sentBytes + [] + [] + [] == s.sentBytes;
    RoundTripExact(s.received);
  }

  /**
   In any run, at any point at which the lane is open and can carry nothing on, it has sent on every
   message it has received, whole and in order. Messages must be plain and fit the scanner's buffer.
   */
  lemma IdleHasSent(limit: nat, steps: seq<Step>)
    requires CanRun(limit, Init(), steps) && Open(After(limit, Init(), steps)) && 0 < limit
    requires var s := After(limit, Init(), steps);
      && AllPlain(s.received) && AllFit(s.received, limit)
      && forall step :: Carries(step) ==> !Enabled(limit, s, step)
    ensures After(limit, Init(), steps).sent == After(limit, Init(), steps).received
  {
    RunInv(limit, Init(), steps);
    IdleIsDone(limit, After(limit, Init(), steps));
  }

  lemma IdleIsDone(limit: nat, s: State)
    requires Inv(s) && Open(s) && AllPlain(s.received) && AllFit(s.received, limit) && 0 < limit
    requires forall step :: Carries(step) ==> !Enabled(limit, s, step)
    ensures s.sent == s.received
  {
    if !s.reader.Receiving? || s.pending != [] || s.buf != [] {
      var step := OpenNeverStuck(limit, s);
    } else {
      EmptyHasSent(s);
    }
  }

  function ReaderWeight(reader: Reader): nat {
    match reader
    case Receiving => 1
    case Offering(data) => 3 + 2 * |data|
    case Writing => 2
    case ReaderEnded => 0
  }

  function Measure(s: State): nat {
    ReaderWeight(s.reader) + 2 * |s.pending| + |s.buf| + (if s.atEof then 0 else 1) + (if s.ended then 0 else 1)
  }

  /** Every step lowers the measure, except closes, which leave it alone, and receiving a message. */
  lemma StepMeasure(limit: nat, s: State, step: Step)
    requires Inv(s) && Enabled(limit, s, step)
    ensures step.CloseWriter? || step.CloseReader? ==> Measure(Apply(limit, s, step)) == Measure(s)
    ensures !(step.Receive? || step.CloseWriter? || step.CloseReader?) ==> Measure(Apply(limit, s, step)) < Measure(s)
  {
  }

  lemma CarryStep(limit: nat, s: State, step: Step)
    requires Inv(s) && Open(s) && Carries(step) && Enabled(limit, s, step)
    ensures var t := Apply(limit, s, step);
      Inv(t) && Open(t) && t.received == s.received && Measure(t) < Measure(s)
  {
    StepInv(limit, s, step);
    StepMeasure(limit, s, step);
  }

  /** So from any reachable point at which it is open, its own steps alone send on every message it has received. */
  lemma {:induction false} OpenDelivers(limit: nat, s: State) returns (steps: seq<Step>)
    requires Inv(s) && Open(s) && AllPlain(s.received) && AllFit(s.received, limit) && 0 < limit
    ensures forall step :: step in steps ==> Carries(step)
    ensures CanRun(limit, s, steps)
    ensures After(limit, s, steps).sent == s.received == After(limit, s, steps).received
    decreases Measure(s)
  {
    if s.reader.Receiving? && s.pending == [] && s.buf == [] {
      steps := [];
      EmptyHasSent(s);
    } else {
      var step := OpenNeverStuck(limit, s);
      CarryStep(limit, s, step);
      var rest := OpenDelivers(limit, Apply(limit, s, step));
      steps := [step] + rest;
      assert steps[1..] == rest;
    }
  }

  // ----- the end of a lane -----

  /** A sender leaves its loop with nothing in its buffer, unless a send failed or a line has filled the buffer. */
  ghost predicate EndedEmpty(limit: nat, s: State) {
    s.ended ==> (s.atEof && s.buf == []) || limit <= |s.buf|
  }

  lemma StepEndedEmpty(limit: nat, s: State, step: Step)
    requires EndedEmpty(limit, s) && Enabled(limit, s, step) && !step.SendError?
    ensures EndedEmpty(limit, Apply(limit, s, step))
  {
  }

  /**
   An orderly end so far: the pipe was closed only after the reading goroutine had ended, which it does
   when its connection ends, and no send has failed.
   */
  ghost predicate Orderly(limit: nat, s: State) {
    Accounted(s) && PipeOrderly(s) && EndedEmpty(limit, s)
  }

  ghost predicate Accounted(s: State) {
    Encode(s.received) == s.sentBytes + s.buf + s.pending + Unoffered(s)
  }

  ghost predicate PipeOrderly(s: State) {
    (PipeClosed(s) ==> s.reader.ReaderEnded?) && (s.reader.ReaderEnded? || s.reader.Receiving? ==> s.pending == [])
  }

  /** The step keeps the end orderly. */
  predicate IsOrderly(s: State, step: Step) {
    !step.SendError? && (step.CloseWriter? || step.CloseReader? ==> s.reader.ReaderEnded?)
  }

  predicate AllOrderly(limit: nat, s: State, steps: seq<Step>)
    requires CanRun(limit, s, steps)
    decreases |steps|
  {
    steps == [] || (IsOrderly(s, steps[0]) && AllOrderly(limit, Apply(limit, s, steps[0]), steps[1..]))
  }

  lemma StepPipe(limit: nat, s: State, step: Step)
    requires Inv(s) && PipeOrderly(s) && Enabled(limit, s, step) && IsOrderly(s, step)
    ensures PipeOrderly(Apply(limit, s, step))
  {
  }

  lemma ReceiveAccount(s: State, msg: Bytes)
    requires Inv(s) && Accounted(s) && s.reader.Receiving?
    ensures Accounted(s.(received := s.received + [msg], reader := Offering(msg + [NEWLINE])))
  {
    EncodeSnoc(s.received, msg);
  }

  lemma ReadPipeAccount(s: State, n: nat)
    requires Accounted(s) && n <= |s.pending|
    ensures Accounted(s.(buf := s.buf + s.pending[..n], pending := s.pending[n..]))
  {
    MoveOver(s.sentBytes, s.buf, s.pending, n, Unoffered(s));
  }

  lemma MoveOver(a: Bytes, b: Bytes, c: Bytes, n: nat, d: Bytes)
    requires n <= |c|
    ensures a + b + c + d == a + (b + c[..n]) + c[n..] + d
  {
    assert c == c[..n] + c[n..];
  }

  lemma SendAccount(s: State, a: nat, token: Bytes)
    requires Accounted(s) && a <= |s.buf|
    ensures Accounted(s.(buf := s.buf[a..], sent := s.sent + [token], sentBytes := s.sentBytes + s.buf[..a]))
  {
    assert s.buf == s.buf[..a] + s.buf[a..];
  }

  lemma OfferAccount(limit: nat, s: State)
    requires Accounted(s) && Enabled(limit, s, Offer)
    ensures Accounted(Apply(limit, s, Offer))
  {
    assert s.sentBytes + s.buf + [] + s.reader.data == s.sentBytes + s.buf + s.reader.data + [];
  }

  lemma StepAccount(limit: nat, s: State, step: Step)
    requires Inv(s) && Accounted(s) && PipeOrderly(s) && Enabled(limit, s, step) && IsOrderly(s, step)
    ensures Accounted(Apply(limit, s, step))
  {
    match step
    case Receive(msg) => ReceiveAccount(s, msg);
    case ReadPipe(n) => ReadPipeAccount(s, n);
    case Send => SendAccount(s, ScanLines(s.buf, s.atEof).advance, ScanLines(s.buf, s.atEof).token);
    case Offer => OfferAccount(limit, s);
    case _ =>
  }

  lemma StepOrderly(limit: nat, s: State, step: Step)
    requires Inv(s) && Orderly(limit, s) && Enabled(limit, s, step) && IsOrderly(s, step)
    ensures Orderly(limit, Apply(limit, s, step))
  {
    StepEndedEmpty(limit, s, step);
    StepAccount(limit, s, step);
    StepPipe(limit, s, step);
  }

  lemma {:induction false} RunOrderly(limit: nat, s: State, steps: seq<Step>)
    requires Inv(s) && Orderly(limit, s) && CanRun(limit, s, steps) && AllOrderly(limit, s, steps)
    ensures Inv(After(limit, s, steps)) && Orderly(limit, After(limit, s, steps))
    decreases |steps|
  {
    if steps != [] {
      StepInv(limit, s, steps[0]);
      StepOrderly(limit, s, steps[0]);
      RunOrderly(limit, Apply(limit, s, steps[0]), steps[1..]);
    }
  }

  /**
   At an orderly end nothing is lost: when the sender has ended, every message received was sent, whole and
   in order, unless a line outgrew the scanner's buffer.
   */
  lemma OrderlyEndSendsAll(limit: nat, steps: seq<Step>)
    requires CanRun(limit, Init(), steps) && AllOrderly(limit, Init(), steps)
    requires var s := After(limit, Init(), steps); AllPlain(s.received) && s.ended && |s.buf| < limit
    ensures After(limit, Init(), steps).sent == After(limit, Init(), steps).received
  {
    RunOrderly(limit, Init(), steps);
    var s := After(limit, Init(), steps);
    assert s.sentBytes + [] + [] + [] == s.sentBytes;
    RoundTripExact(s.received);
  }

  /**
   At any end: once the pipe is closed, a goroutine still in its loop has a step to take, but for one in
   `ReadMessage`; with `StepMeasure`, both end after that returns.
   */
  lemma ClosedNeverStuck(limit: nat, s: State) returns (step: Step)
    requires Inv(s) && PipeClosed(s) && !(s.ended && (s.reader.ReaderEnded? || s.reader.Receiving?))
    ensures Enabled(limit, s, step) && !step.CloseWriter? && !step.CloseReader? && !step.Receive?
    ensures !step.ReceiveError? && !step.SendError?
  {
    if !s.ended {
      if ScanLines(s.buf, s.atEof).Token? {
        step := Send;
      } else if s.atEof {
        step := ScanEnd;
      } else {
        step := if limit <= |s.buf| then TooLong else ReadEnd;
      }
    } else if s.reader.Offering? {
      step := OfferFail;
    } else {
      step := if s.pending == [] then WriteDone else WriteFail;
    }
  }

  // ----- runs -----

  /** A message is received and gets through the pipe. */
  lemma MessageArrives(limit: nat, msg: Bytes) returns (steps: seq<Step>)
    requires |msg| < limit
    ensures CanRun(limit, Init(), steps) && AllOrderly(limit, Init(), steps)
    ensures After(limit, Init(), steps) == Init().(received := [msg], buf := msg + [NEWLINE])
  {
    steps := [];
    OrderlySnoc(limit, Init(), steps, Receive(msg));
    steps := steps + [Receive(msg)];
    OrderlySnoc(limit, Init(), steps, Offer);
    steps := steps + [Offer];
    var data := msg + [NEWLINE];
    assert data[..|data|] == data && [] + data == data;
    OrderlySnoc(limit, Init(), steps, ReadPipe(|data|));
    steps := steps + [ReadPipe(|data|)];
    OrderlySnoc(limit, Init(), steps, WriteDone);
    steps := steps + [WriteDone];
  }

  lemma {:induction false} OrderlySnoc(limit: nat, s: State, steps: seq<Step>, last: Step)
    requires CanRun(limit, s, steps) && AllOrderly(limit, s, steps)
    requires Enabled(limit, After(limit, s, steps), last) && IsOrderly(After(limit, s, steps), last)
    ensures CanRun(limit, s, steps + [last]) && AllOrderly(limit, s, steps + [last])
    ensures After(limit, s, steps + [last]) == Apply(limit, After(limit, s, steps), last)
    decreases |steps|
  {
    if steps == [] {
      assert [last][1..] == [];
    } else {
      assert (steps + [last])[0] == steps[0] && (steps + [last])[1..] == steps[1..] + [last];
      OrderlySnoc(limit, Apply(limit, s, steps[0]), steps[1..], last);
    }
  }

  lemma MessageSent(limit: nat, msg: Bytes) returns (steps: seq<Step>)
    requires Plain(msg) && |msg| < limit
    ensures CanRun(limit, Init(), steps) && AllOrderly(limit, Init(), steps)
    ensures After(limit, Init(), steps) == Init().(received := [msg], sent := [msg], sentBytes := msg + [NEWLINE])
  {
    steps := MessageArrives(limit, msg);
    var data := msg + [NEWLINE];
    NewlineAt(data, |msg|);
    assert data[..|msg|] == msg && data[|msg| + 1..] == [] && data[..|msg| + 1] == data && [] + data == data;
    OrderlySnoc(limit, Init(), steps, Send);
    steps := steps + [Send];
  }

  /** A lane whose connection ends after a message: the end is orderly, and the message is sent. */
  lemma OrderlyRun(limit: nat, msg: Bytes) returns (steps: seq<Step>)
    requires Plain(msg) && |msg| < limit
    ensures CanRun(limit, Init(), steps) && AllOrderly(limit, Init(), steps)
    ensures var s := After(limit, Init(), steps); s.ended && s.reader.ReaderEnded? && s.received == s.sent == [msg]
  {
    steps := MessageSent(limit, msg);
    OrderlySnoc(limit, Init(), steps, ReceiveError);
    steps := steps + [ReceiveError];
    OrderlySnoc(limit, Init(), steps, CloseWriter);
    steps := steps + [CloseWriter];
    assert ScanLines([], false).More? && ScanLines([], true).More?;
    OrderlySnoc(limit, Init(), steps, ReadEnd);
    steps := steps + [ReadEnd];
    OrderlySnoc(limit, Init(), steps, ScanEnd);
    steps := steps + [ScanEnd];
  }

  /** A send that fails loses its message. */
  lemma FailedSendLosesMessage(limit: nat, msg: Bytes) returns (steps: seq<Step>)
    requires Plain(msg) && |msg| < limit
    ensures CanRun(limit, Init(), steps)
    ensures var s := After(limit, Init(), steps); s.ended && s.received == [msg] && s.sent == []
  {
    steps := MessageArrives(limit, msg);
    NewlineAt(msg + [NEWLINE], |msg|);
    RunSnoc(limit, Init(), steps, SendError);
    steps := steps + [SendError];
  }

  /**
   Of an open lane the reader waits only for its connection and for its data to leave the pipe, in
   whatever state the sender is; the sender only for data.
   */
  lemma WaitsExactly(limit: nat, s: State)
    requires Inv(s) && Open(s)
    ensures s.reader.Receiving? ==> forall msg :: Enabled(limit, s, Receive(msg))
    ensures Enabled(limit, s, Offer) || Enabled(limit, s, WriteDone) <==>
      s.reader.Offering? || (s.reader.Writing? && s.pending == [])
    ensures Enabled(limit, s, Send) || Enabled(limit, s, ReadPipe(1)) || Enabled(limit, s, TooLong) <==>
      ScanLines(s.buf, false).Token? || s.pending != [] || limit <= |s.buf|
  {
  }
}
