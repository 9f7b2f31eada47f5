/** WebSocket messages as lines of a byte stream, and back: the framing of `bidirectionalCopy`. */
module WebSocketLines {
  import opened Bytes
  import opened Scanning

  const NEWLINE: byte := 10
  const CR: byte := 13

  /** The least newline from position i on, or the length of the data if there is none. */
  function FindNewline(data: Bytes, i: nat): (r: nat)
    requires i <= |data|
    ensures i <= r <= |data|
    ensures forall j :: i <= j < r ==> data[j] != NEWLINE
    ensures r < |data| ==> data[r] == NEWLINE
    decreases |data| - i
  {
    if i == |data| || data[i] == NEWLINE then i else FindNewline(data, i + 1)
  }

  lemma NewlineAt(data: Bytes, i: nat)
    requires i <= |data| && (i < |data| ==> data[i] == NEWLINE)
    requires forall j :: 0 <= j < i ==> data[j] != NEWLINE
    ensures FindNewline(data, 0) == i
  {
  }

  function DropCr(line: Bytes): Bytes {
    if line != [] && line[|line| - 1] == CR then line[..|line| - 1] else line
  }

  /** `bufio.ScanLines`. */
  function ScanLines(data: Bytes, atEof: bool): SplitResult {
    var i := FindNewline(data, 0);
    if i < |data| then Token(i + 1, DropCr(data[..i]))
    else if atEof && data != [] then Token(|data|, DropCr(data))
    else More
  }

  lemma ScanLinesWellBehaved()
    ensures WellBehaved(ScanLines)
  {
    forall d: Bytes, more: Bytes ensures Stable(ScanLines, d, more) {
      var i, j := FindNewline(d, 0), FindNewline(d + more, 0);
      if i < |d| || j < |d| {
        assert (d + more)[..|d|] == d;
        assert i == j;
        assert (d + more)[..i] == d[..i];
      }
    }
  }

  function Lines(input: Bytes): seq<Bytes>
    decreases |input|
  {
    var i := FindNewline(input, 0);
    if i < |input| then [DropCr(input[..i])] + Lines(input[i + 1..])
    else if input == [] then [] else [DropCr(input)]
  }

  /** The scan of an input with the default split function. */
  ghost function Scanned(input: Bytes, limit: nat): Outcome {
    ScanLinesWellBehaved();
    Tokens(ScanLines, input, limit)
  }

  lemma TokensStep(input: Bytes, limit: nat)
    requires WellBehaved(ScanLines)
    ensures var i := FindNewline(input, 0);
      Tokens(ScanLines, input, limit) ==
        if i < |input| then
          if i < limit then Prepend(DropCr(input[..i]), Tokens(ScanLines, input[i + 1..], limit)) else Outcome([], true)
        else if limit <= |input| then Outcome([], true)
        else if input == [] then Outcome([], false)
        else Outcome([DropCr(input)], false)
  {
  }

  /** The lines of an input with their carriage returns, which take up room in the buffer. */
  function RawLines(input: Bytes): seq<Bytes>
    decreases |input|
  {
    var i := FindNewline(input, 0);
    if i < |input| then [input[..i]] + RawLines(input[i + 1..])
    else if input == [] then [] else [input]
  }

  function DropCrs(lines: seq<Bytes>): (r: seq<Bytes>)
    ensures |r| == |lines| && forall j :: 0 <= j < |lines| ==> r[j] == DropCr(lines[j])
  {
    seq(|lines|, j requires 0 <= j < |lines| => DropCr(lines[j]))
  }

  lemma DropCrsCons(line: Bytes, lines: seq<Bytes>)
    ensures DropCrs([line] + lines) == [DropCr(line)] + DropCrs(lines)
    ensures DropCrs([]) == []
  {
  }

  lemma {:induction false} LinesAreRaw(input: Bytes)
    ensures Lines(input) == DropCrs(RawLines(input))
    decreases |input|
  {
    var i := FindNewline(input, 0);
    DropCrsCons(input, []);
    assert [input] + [] == [input];
    if i < |input| {
      LinesAreRaw(input[i + 1..]);
      DropCrsCons(input[..i], RawLines(input[i + 1..]));
    }
  }

  lemma {:induction false} TokensAreRawLines(input: Bytes, limit: nat)
    requires 0 < limit
    ensures Scanned(input, limit) ==
      Outcome(DropCrs(FirstFitting(RawLines(input), limit)), !Fits(RawLines(input), limit))
    decreases |input|
  {
    ScanLinesWellBehaved();
    TokensStep(input, limit);
    DropCrsCons(input, []);
    var i := FindNewline(input, 0);
    if i < |input| {
      var line, rest := input[..i], RawLines(input[i + 1..]);
      TokensAreRawLines(input[i + 1..], limit);
      FirstFittingCons(line, rest, limit);
      DropCrsCons(line, FirstFitting(rest, limit));
    } else if input != [] {
      assert [input] + [] == [input];
      FirstFittingCons(input, [], limit);
    }
  }

  /**
   A scan yields the lines of its input up to the first that, with its carriage return, is as long as the
   buffer, and fails exactly if there is such a line.
   */
  lemma TokensAreLines(input: Bytes, limit: nat)
    ensures |RawLines(input)| == |Lines(input)|
    ensures limit == 0 ==> Scanned(input, limit) == Outcome([], true)
    ensures limit > 0 ==> var n := |FirstFitting(RawLines(input), limit)|;
      && n <= |Lines(input)|
      && Scanned(input, limit) == Outcome(Lines(input)[..n], n < |Lines(input)|)
      && Fits(RawLines(input)[..n], limit)
      && (n < |Lines(input)| ==> limit <= |RawLines(input)[n]|)
  {
    LinesAreRaw(input);
    FirstFittingIsAll(RawLines(input), limit);
    var fit := FirstFitting(RawLines(input), limit);
    if limit == 0 {
      ScanLinesWellBehaved();
      TokensStep(input, 0);
    } else {
      TokensAreRawLines(input, limit);
      assert fit == RawLines(input)[..|fit|];
      DropCrsPrefix(RawLines(input), |fit|);
    }
  }

  lemma DropCrsPrefix(lines: seq<Bytes>, n: nat)
    requires n <= |lines|
    ensures DropCrs(lines[..n]) == DropCrs(lines)[..n]
  {
  }

  // ----- encoding -----

  /** What `bidirectionalCopy` writes to the stream for the messages it receives. */
  function Encode(msgs: seq<Bytes>): Bytes {
    if msgs == [] then [] else msgs[0] + [NEWLINE] + Encode(msgs[1..])
  }

  lemma {:induction false} EncodeSnoc(msgs: seq<Bytes>, msg: Bytes)
    ensures Encode(msgs + [msg]) == Encode(msgs) + (msg + [NEWLINE])
  {
    if msgs == [] {
      assert (msgs + [msg])[1..] == [];
    } else {
      assert (msgs + [msg])[1..] == msgs[1..] + [msg];
      EncodeSnoc(msgs[1..], msg);
    }
  }

  predicate Plain(msg: Bytes) {
    NEWLINE !in msg && (msg == [] || msg[|msg| - 1] != CR)
  }

  predicate AllPlain(msgs: seq<Bytes>) {
    forall m :: m in msgs ==> Plain(m)
  }

  /** The lines of a message followed by anything. */
  lemma LinesOfMessage(msg: Bytes, rest: Bytes)
    requires NEWLINE !in msg
    ensures Lines(msg + [NEWLINE] + rest) == [DropCr(msg)] + Lines(rest)
  {
    var input := msg + [NEWLINE] + rest;
    assert input[..|msg|] == msg && input[|msg| + 1..] == rest;
    assert forall j :: 0 <= j < |msg| ==> input[j] == msg[j];
    NewlineAt(input, |msg|);
  }

  lemma {:induction false} LinesHaveNoNewline(input: Bytes)
    ensures forall l :: l in Lines(input) ==> NEWLINE !in l
    decreases |input|
  {
    var i := FindNewline(input, 0);
    if i < |input| {
      LinesHaveNoNewline(input[i + 1..]);
    }
  }

  /**
   Messages survive the trip through a stream exactly when none contains a newline or ends in a carriage
   return.
   */
  lemma RoundTripExact(msgs: seq<Bytes>)
    ensures Lines(Encode(msgs)) == msgs <==> AllPlain(msgs)
  {
    if Lines(Encode(msgs)) == msgs {
      LinesHaveNoNewline(Encode(msgs));
      forall m | m in msgs ensures NEWLINE !in m {
        assert m in Lines(Encode(msgs));
      }
      LinesDropCr(msgs);
    } else if AllPlain(msgs) {
      PlainRoundTrip(msgs);
    }
  }

  lemma {:induction false} LinesDropCr(msgs: seq<Bytes>)
    requires Lines(Encode(msgs)) == msgs
    requires forall m :: m in msgs ==> NEWLINE !in m
    ensures AllPlain(msgs)
  {
    if msgs != [] {
      LinesOfMessage(msgs[0], Encode(msgs[1..]));
      assert Lines(Encode(msgs))[1..] == msgs[1..];
      assert Lines(Encode(msgs))[1..] == Lines(Encode(msgs[1..]));
      LinesDropCr(msgs[1..]);
      assert DropCr(msgs[0]) == msgs[0];
      assert forall m :: m in msgs ==> m == msgs[0] || m in msgs[1..];
    }
  }

  lemma {:induction false} PlainRoundTrip(msgs: seq<Bytes>)
    requires AllPlain(msgs)
    ensures Lines(Encode(msgs)) == msgs
  {
    if msgs != [] {
      assert Plain(msgs[0]) by { assert msgs[0] in msgs; }
      LinesOfMessage(msgs[0], Encode(msgs[1..]));
      PlainRoundTrip(msgs[1..]);
    }
  }

  /** A line may end in a newline, or in a carriage return and a newline, and is the line without them. */
  lemma CrLfLine(m: Bytes)
    requires 10 !in m
    ensures Lines(m + [13, 10]) == [m]
  {
    var line := m + [13];
    assert line + [NEWLINE] == m + [13, 10];
    assert line[..|m|] == m && DropCr(line) == m;
    LineAlone(line);
  }

  lemma LfLine(m: Bytes)
    requires 10 !in m && (m == [] || m[|m| - 1] != 13)
    ensures Lines(m + [10]) == [m]
  {
    LineAlone(m);
  }

  lemma LineAlone(line: Bytes)
    requires NEWLINE !in line
    ensures Lines(line + [NEWLINE]) == [DropCr(line)]
  {
    LinesOfMessage(line, []);
    assert line + [NEWLINE] + [] == line + [NEWLINE];
  }

  // ----- a stream cut short -----

  /** `sent` is a prefix of `msgs`, except that its last element may be a prefix of its message. */
  predicate CutOf(msgs: seq<Bytes>, sent: seq<Bytes>) {
    && |sent| <= |msgs|
    && (forall i :: 0 <= i < |sent| - 1 ==> sent[i] == msgs[i])
    && (sent != [] ==> sent[|sent| - 1] <= msgs[|sent| - 1])
  }

  lemma SplitCut(msgs: seq<Bytes>, cut: Bytes)
    requires msgs != [] && cut <= Encode(msgs) && |msgs[0]| < |cut|
    ensures cut == msgs[0] + [NEWLINE] + cut[|msgs[0]| + 1..]
    ensures cut[|msgs[0]| + 1..] <= Encode(msgs[1..])
  {
  }

  lemma MessageCut(msgs: seq<Bytes>, cut: Bytes)
    requires msgs != [] && cut <= Encode(msgs) && |cut| <= |msgs[0]|
    ensures cut <= msgs[0] && forall j :: 0 <= j < |cut| ==> cut[j] in msgs[0]
  {
  }

  lemma CutOfCons(msgs: seq<Bytes>, sent: seq<Bytes>)
    requires msgs != [] && CutOf(msgs[1..], sent)
    ensures CutOf(msgs, [msgs[0]] + sent)
  {
  }

  lemma OneLine(data: Bytes, atEof: bool)
    requires ScanLines(data, atEof).Token?
    ensures var t := ScanLines(data, atEof); Lines(data[..t.advance]) == [t.token]
  {
    var i := FindNewline(data, 0);
    var line := data[..ScanLines(data, atEof).advance];
    NewlineAt(line, i);
    assert line[..i] == data[..i];
    if i < |data| {
      assert line[i + 1..] == [];
    } else {
      assert line == data;
    }
  }

  /** Wherever the stream of encoded messages is cut, decoding what arrived gives a cut of the messages. */
  lemma {:induction false} PrefixDecodes(msgs: seq<Bytes>, cut: Bytes)
    requires AllPlain(msgs) && cut <= Encode(msgs)
    ensures CutOf(msgs, Lines(cut))
    decreases |msgs|
  {
    if cut != [] {
      var m := msgs[0];
      assert Plain(m) by { assert m in msgs; }
      if |cut| <= |m| {
        MessageCut(msgs, cut);
        NewlineAt(cut, |cut|);
      } else {
        var rest := cut[|m| + 1..];
        assert cut == m + [NEWLINE] + rest && rest <= Encode(msgs[1..]) by { SplitCut(msgs, cut); }
        LinesOfMessage(m, rest);
        PrefixDecodes(msgs[1..], rest);
        CutOfCons(msgs, Lines(rest));
      }
    }
  }

  /** A run of complete lines. */
  predicate Complete(data: Bytes) {
    data == [] || data[|data| - 1] == NEWLINE
  }

  /** A stream cut after a newline has lost only whole messages. */
  lemma {:induction false} CompletePrefixDecodes(msgs: seq<Bytes>, cut: Bytes)
    requires AllPlain(msgs) && cut <= Encode(msgs) && Complete(cut)
    ensures Lines(cut) <= msgs
    decreases |msgs|
  {
    if cut != [] {
      var m := msgs[0];
      assert Plain(m) by { assert m in msgs; }
      if |cut| <= |m| {
        MessageCut(msgs, cut);
        assert false;
      } else {
        var rest := cut[|m| + 1..];
        assert cut == m + [NEWLINE] + rest && rest <= Encode(msgs[1..]) by { SplitCut(msgs, cut); }
        LinesOfMessage(m, rest);
        CompletePrefixDecodes(msgs[1..], rest);
      }
    }
  }

  /** A part of the first message is a line by itself, and is the message only if nothing is missing. */
  lemma PartOfFirst(msgs: seq<Bytes>, cut: Bytes)
    requires AllPlain(msgs) && msgs != [] && cut != [] && cut <= Encode(msgs) && |cut| <= |msgs[0]|
    ensures !Complete(cut)
    ensures Lines(cut) <= msgs <==> cut == msgs[0]
    ensures cut + [NEWLINE] <= Encode(msgs) <==> cut == msgs[0]
  {
    var m := msgs[0];
    assert Plain(m) by { assert m in msgs; }
    MessageCut(msgs, cut);
    NewlineAt(cut, |cut|);
    assert Lines(cut) == [DropCr(cut)];
    assert Encode(msgs)[|cut|] == if cut == m then NEWLINE else m[|cut|];
  }

  /**
   Exactly when only whole messages have been lost: if the stream was cut after a newline, or right before
   one, which is to say after the last byte of a message.
   */
  lemma {:induction false} WholeMessagesExactly(msgs: seq<Bytes>, cut: Bytes)
    requires AllPlain(msgs) && cut <= Encode(msgs)
    ensures Lines(cut) <= msgs <==> Complete(cut) || cut + [NEWLINE] <= Encode(msgs)
    decreases |msgs|
  {
    if cut != [] {
      var m := msgs[0];
      assert Plain(m) by { assert m in msgs; }
      if |cut| <= |m| {
        PartOfFirst(msgs, cut);
      } else {
        var rest := cut[|m| + 1..];
        assert cut == m + [NEWLINE] + rest && rest <= Encode(msgs[1..]) by { SplitCut(msgs, cut); }
        LinesOfMessage(m, rest);
        WholeMessagesExactly(msgs[1..], rest);
        ConsPrefix(m, Lines(rest), msgs);
        CutBeforeNewline(msgs, rest);
      }
    }
  }

  lemma ConsPrefix(m: Bytes, lines: seq<Bytes>, msgs: seq<Bytes>)
    requires msgs != [] && msgs[0] == m
    ensures [m] + lines <= msgs <==> lines <= msgs[1..]
  {
    assert msgs == [m] + msgs[1..];
    assert ([m] + lines)[1..] == lines;
  }

  lemma CutBeforeNewline(msgs: seq<Bytes>, rest: Bytes)
    requires msgs != []
    ensures msgs[0] + [NEWLINE] + rest + [NEWLINE] <= Encode(msgs) <==> rest + [NEWLINE] <= Encode(msgs[1..])
  {
    var head := msgs[0] + [NEWLINE];
    assert Encode(msgs) == head + Encode(msgs[1..]);
    assert head + rest + [NEWLINE] == head + (rest + [NEWLINE]);
    assert (head + (rest + [NEWLINE]))[|head|..] == rest + [NEWLINE];
    assert (head + Encode(msgs[1..]))[|head|..] == Encode(msgs[1..]);
  }

  /** The first line of complete lines is the first line of what they begin. */
  lemma FirstLineOf(x: Bytes, y: Bytes) returns (i: nat)
    requires x != [] && Complete(x)
    ensures i == FindNewline(x, 0) < |x| && FindNewline(x + y, 0) == i
    ensures (x + y)[..i] == x[..i] && (x + y)[i + 1..] == x[i + 1..] + y
  {
    i := FindNewline(x, 0);
    assert i < |x| by {
      assert x[|x| - 1] == NEWLINE;
    }
    forall j | 0 <= j < i ensures (x + y)[j] != NEWLINE {
      assert (x + y)[j] == x[j];
    }
    NewlineAt(x + y, i);
  }

  lemma FirstLineThenRest(input: Bytes, i: nat)
    requires i == FindNewline(input, 0) < |input|
    ensures Lines(input) == [DropCr(input[..i])] + Lines(input[i + 1..])
  {
  }

  lemma Regroup(whole: seq<Bytes>, a: seq<Bytes>, b: seq<Bytes>, c: seq<Bytes>)
    requires whole == a + (b + c)
    ensures whole == (a + b) + c
  {
  }

  lemma {:induction false} LinesAppend(x: Bytes, y: Bytes)
    requires Complete(x)
    ensures Lines(x + y) == Lines(x) + Lines(y)
    decreases |x|
  {
    if x == [] {
      assert x + y == y;
    } else {
      var i := FirstLineOf(x, y);
      FirstLineThenRest(x, i);
      FirstLineThenRest(x + y, i);
      LinesAppend(x[i + 1..], y);
      Regroup(Lines(x + y), [DropCr(x[..i])], Lines(x[i + 1..]), Lines(y));
    }
  }
}

/**
 One direction of a WebSocket to WebSocket proxy as a step system: messages received on one connection
 are written to a pipe as lines, and the lines scanned from the pipe are sent on the other connection.
 Either end of the pipe may be closed at any moment, as any of the four goroutines may do on ending.
 */
module WebSocketLane {
  import opened Bytes
  import opened Scanning
  import opened WebSocketLines

  datatype Reader =
    | Receiving                 // in ReadMessage
    | Offering(data: Bytes)     // about to write a message and its newline
    | Writing                   // inside the pipe write
    | ReaderEnded

  datatype State = State(
    received: seq<Bytes>,       // history: messages read
    reader: Reader,
    pending: Bytes,             // bytes of the write in progress not yet read from the pipe
    writerClosed: bool,
    readerClosed: bool,
    buf: Bytes,                 // the scanner's buffer
    atEof: bool,
    ended: bool,                // the sending goroutine has left its loop
    sent: seq<Bytes>,           // messages written
    sentBytes: Bytes)           // history: the stretch of the stream whose lines were sent

  datatype Step =
    | Receive(msg: Bytes) | ReceiveError | Offer | OfferFail | WriteDone | WriteFail
    | ReadPipe(n: nat) | ReadEnd | Send | SendError | ScanEnd | TooLong
    | CloseWriter | CloseReader

  function Init(): State {
    State([], Receiving, [], false, false, [], false, false, [], [])
  }

  predicate PipeClosed(s: State) {
    s.writerClosed || s.readerClosed
  }

  /** The scanner has nothing to return and must read. */
  predicate MustRead(s: State) {
    !s.ended && !s.atEof && ScanLines(s.buf, false).More?
  }

  predicate Enabled(limit: nat, s: State, step: Step) {
    match step
    case Receive(_) => s.reader.Receiving?
    case ReceiveError => s.reader.Receiving?
    case Offer => s.reader.Offering? && !PipeClosed(s) && s.pending == []
    case OfferFail => s.reader.Offering? && PipeClosed(s)
    case WriteDone => s.reader.Writing? && s.pending == []
    case WriteFail => s.reader.Writing? && s.pending != [] && PipeClosed(s)
    case ReadPipe(n) => MustRead(s) && !PipeClosed(s) && 1 <= n <= |s.pending| && |s.buf| + n <= limit
    case ReadEnd => MustRead(s) && |s.buf| < limit && PipeClosed(s)
    case TooLong => MustRead(s) && limit <= |s.buf|
    case Send => !s.ended && ScanLines(s.buf, s.atEof).Token?
    case SendError => !s.ended && ScanLines(s.buf, s.atEof).Token?
    case ScanEnd => !s.ended && s.atEof && ScanLines(s.buf, true).More?
    case CloseWriter => true
    case CloseReader => true
  }

  function Apply(limit: nat, s: State, step: Step): State
    requires Enabled(limit, s, step)
  {
    match step
    case Receive(msg) => s.(received := s.received + [msg], reader := Offering(msg + [NEWLINE]))
    case ReceiveError => s.(reader := ReaderEnded)
    case Offer => s.(pending := s.reader.data, reader := Writing)
    case OfferFail => s.(reader := ReaderEnded)
    case WriteDone => s.(reader := Receiving)
    case WriteFail => s.(reader := ReaderEnded, pending := [])
    case ReadPipe(n) => s.(buf := s.buf + s.pending[..n], pending := s.pending[n..])
    case ReadEnd => s.(atEof := true)
    case TooLong => s.(ended := true)
    case Send =>
      var token := ScanLines(s.buf, s.atEof);
      s.(buf := s.buf[token.advance..], sent := s.sent + [token.token],
         sentBytes := s.sentBytes + s.buf[..token.advance])
    case SendError => s.(ended := true)
    case ScanEnd => s.(ended := true)
    case CloseWriter => s.(writerClosed := true)
    case CloseReader => s.(readerClosed := true)
  }

  predicate CanRun(limit: nat, s: State, steps: seq<Step>)
    decreases |steps|
  {
    steps == [] || (Enabled(limit, s, steps[0]) && CanRun(limit, Apply(limit, s, steps[0]), steps[1..]))
  }

  function After(limit: nat, s: State, steps: seq<Step>): State
    requires CanRun(limit, s, steps)
    decreases |steps|
  {
    if steps == [] then s else After(limit, Apply(limit, s, steps[0]), steps[1..])
  }

  function Unoffered(s: State): Bytes {
    if s.reader.Offering? then s.reader.data else []
  }

  ghost predicate Inv(s: State) {
    && s.sent == Lines(s.sentBytes)
    && (s.atEof || Complete(s.sentBytes))
    && s.sentBytes + s.buf <= Encode(s.received)
    && (!PipeClosed(s) ==> Encode(s.received) == s.sentBytes + s.buf + s.pending + Unoffered(s))
    && (s.pending != [] ==> s.reader.Writing?)
    && (s.atEof ==> PipeClosed(s) && (Complete(s.sentBytes) || s.buf == []))
  }

  lemma ReceiveInv(s: State, msg: Bytes)
    requires Inv(s) && s.reader.Receiving?
    ensures Inv(s.(received := s.received + [msg], reader := Offering(msg + [NEWLINE])))
  {
    EncodeSnoc(s.received, msg);
    PrefixTrans(s.sentBytes + s.buf, Encode(s.received), Encode(s.received + [msg]));
  }

  lemma ReadPipeInv(s: State, n: nat)
    requires Inv(s) && !PipeClosed(s) && 1 <= n <= |s.pending|
    ensures Inv(s.(buf := s.buf + s.pending[..n], pending := s.pending[n..]))
  {
  }

  lemma SendInv(limit: nat, s: State)
    requires Inv(s) && Enabled(limit, s, Send)
    ensures Inv(Apply(limit, s, Send))
  {
    var a := ScanLines(s.buf, s.atEof).advance;
    var line, rest := s.buf[..a], s.buf[a..];
    assert s.buf == line + rest;
    assert (s.sentBytes + line) + rest == s.sentBytes + s.buf;
    OneLine(s.buf, s.atEof);
    LinesAppend(s.sentBytes, line);
  }

  lemma WriterInv(limit: nat, s: State, step: Step)
    requires Inv(s) && Enabled(limit, s, step)
    requires step.Offer? || step.OfferFail? || step.WriteDone? || step.WriteFail? || step.ReceiveError?
    ensures Inv(Apply(limit, s, step))
  {
    match step
    case Offer =>
    case OfferFail =>
    case WriteDone =>
    case WriteFail =>
    case ReceiveError =>
  }

  lemma StepInv(limit: nat, s: State, step: Step)
    requires Inv(s) && Enabled(limit, s, step)
    ensures Inv(Apply(limit, s, step))
  {
    match step
    case Receive(msg) => ReceiveInv(s, msg);
    case ReadPipe(n) => ReadPipeInv(s, n);
    case Send => SendInv(limit, s);
    case ReadEnd =>
    case SendError =>
    case ScanEnd =>
    case TooLong =>
    case CloseWriter =>
    case CloseReader =>
    case _ => WriterInv(limit, s, step);
  }

  lemma {:induction false} RunInv(limit: nat, s: State, steps: seq<Step>)
    requires Inv(s) && CanRun(limit, s, steps)
    ensures Inv(After(limit, s, steps))
    decreases |steps|
  {
    if steps != [] {
      StepInv(limit, s, steps[0]);
      RunInv(limit, Apply(limit, s, steps[0]), steps[1..]);
    }
  }

  /** Whatever the messages hold, what was sent is the lines of some first part of the encoded stream. */
  lemma SentIsDecodedPrefix(limit: nat, steps: seq<Step>) returns (cut: Bytes)
    requires CanRun(limit, Init(), steps)
    ensures var s := After(limit, Init(), steps);
      cut <= Encode(s.received) && s.sent == Lines(cut) && (!s.atEof ==> Complete(cut))
  {
    RunInv(limit, Init(), steps);
    var s := After(limit, Init(), steps);
    cut := s.sentBytes;
    PrefixTrans(cut, cut + s.buf, Encode(s.received));
  }

  /**
   At any point of any run, including every teardown, the payloads sent are a prefix of the payloads
   received, except that the last one sent may be a prefix of its message; and before the pipe's end
   has been seen there is no exception.
   */
  lemma SentIsCutOfReceived(limit: nat, steps: seq<Step>)
    requires CanRun(limit, Init(), steps)
    requires AllPlain(After(limit, Init(), steps).received)
    ensures var s := After(limit, Init(), steps);
      CutOf(s.received, s.sent) && (!s.atEof ==> s.sent <= s.received)
  {
    var cut := SentIsDecodedPrefix(limit, steps);
    var s := After(limit, Init(), steps);
    PrefixDecodes(s.received, cut);
    if !s.atEof {
      CompletePrefixDecodes(s.received, cut);
    }
  }

  /**
   Exactly when there is no exception: the stretch of the stream that was sent is empty or ends in a
   newline, or ends where a message ends.
   */
  lemma SentWholeExactly(limit: nat, steps: seq<Step>)
    requires CanRun(limit, Init(), steps)
    requires AllPlain(After(limit, Init(), steps).received)
    ensures var s := After(limit, Init(), steps);
      && s.sentBytes <= Encode(s.received) && s.sent == Lines(s.sentBytes)
      && (s.sent <= s.received <==> Complete(s.sentBytes) || s.sentBytes + [NEWLINE] <= Encode(s.received))
  {
    RunInv(limit, Init(), steps);
    var s := After(limit, Init(), steps);
    PrefixTrans(s.sentBytes, s.sentBytes + s.buf, Encode(s.received));
    WholeMessagesExactly(s.received, s.sentBytes);
  }

  lemma {:induction false} RunSnoc(limit: nat, s: State, steps: seq<Step>, last: Step)
    requires CanRun(limit, s, steps) && Enabled(limit, After(limit, s, steps), last)
    ensures CanRun(limit, s, steps + [last])
    ensures After(limit, s, steps + [last]) == Apply(limit, After(limit, s, steps), last)
    decreases |steps|
  {
    if steps == [] {
      assert [last][1..] == [];
    } else {
      assert (steps + [last])[0] == steps[0] && (steps + [last])[1..] == steps[1..] + [last];
      RunSnoc(limit, Apply(limit, s, steps[0]), steps[1..], last);
    }
  }

  /** A message is received, and its first n bytes get through the pipe. */
  lemma PartArrives(limit: nat, msg: Bytes, n: nat) returns (steps: seq<Step>)
    requires 0 < n < |msg| && n < limit
    ensures CanRun(limit, Init(), steps)
    ensures After(limit, Init(), steps) ==
      Init().(received := [msg], reader := Writing, pending := (msg + [NEWLINE])[n..], buf := msg[..n])
  {
    steps := [];
    RunSnoc(limit, Init(), steps, Receive(msg));
    steps := steps + [Receive(msg)];
    RunSnoc(limit, Init(), steps, Offer);
    steps := steps + [Offer];
    assert MustRead(Init());
    RunSnoc(limit, Init(), steps, ReadPipe(n));
    steps := steps + [ReadPipe(n)];
    assert [] + (msg + [NEWLINE])[..n] == msg[..n];
  }

  /**
   The exception is reached: any message can be sent on cut short at any byte, by a close of either end of
   the pipe at that moment.
   */
  lemma MessageCanBeCut(limit: nat, msg: Bytes, n: nat, close: Step) returns (steps: seq<Step>)
    requires Plain(msg) && 0 < n < |msg| && n < limit && (close.CloseWriter? || close.CloseReader?)
    ensures CanRun(limit, Init(), steps)
    ensures var s := After(limit, Init(), steps);
      s.received == [msg] && s.sent == [DropCr(msg[..n])] && !(s.sent <= s.received)
  {
    steps := PartArrives(limit, msg, n);
    var part := msg[..n];
    NewlineAt(part, n);
    RunSnoc(limit, Init(), steps, close);
    steps := steps + [close];
    RunSnoc(limit, Init(), steps, ReadEnd);
    steps := steps + [ReadEnd];
    assert ScanLines(part, true) == Token(n, DropCr(part));
    RunSnoc(limit, Init(), steps, Send);
    steps := steps + [Send];
    assert After(limit, Init(), steps).sent[0] != msg;
  }
}
