/** `streamWithLogging`: a stream whose two directions are copied to loggers on the way. */
module Logging {
  import opened Bytes

  /** The size of each logger's buffer. */
  const LOG_BUFFER: nat := 1024

  /** What the caller does, and what the underlying stream will do with it. */
  datatype Op =
    | Read(size: nat, ready: nat)         // ask for `size` bytes when `ready` have arrived
    | Write(data: Bytes, accepted: nat)   // the stream accepts that many bytes and fails if it is fewer than all
    | Close

  datatype Result = Result(data: Bytes, n: nat, ok: bool)

  /** The stream being wrapped. */
  class BareStream {
    var unread: Bytes
    var sink: Bytes
    var closed: bool

    constructor (input: Bytes)
      ensures unread == input && sink == [] && !closed
    {
      unread, sink, closed := input, [], false;
    }

    /** The smallest of what is asked for, what is ready and what is left. */
    static function Deliverable(unread: Bytes, size: nat, ready: nat): (n: nat)
      ensures n <= |unread| && n <= size && n <= ready
      ensures n == |unread| || n == size || n == ready
    {
      var m := if size <= ready then size else ready;
      if m <= |unread| then m else |unread|
    }

    method Read(size: nat, ready: nat) returns (data: Bytes, ok: bool)
      modifies this`unread
      ensures ok == !closed
      ensures data == if closed then [] else old(unread)[..Deliverable(old(unread), size, ready)]
      ensures old(unread) == data + unread && unread == old(unread)[|data|..]
    {
      if closed {
        return [], false;
      }
      var n := Deliverable(unread, size, ready);
      data, ok := unread[..n], true;
      unread := unread[n..];
    }

    method Write(p: Bytes, accepted: nat) returns (n: nat, ok: bool)
      modifies this`sink
      ensures ok == (!closed && |p| <= accepted)
      ensures n == if closed then 0 else if |p| <= accepted then |p| else accepted
      ensures n <= |p| && sink == old(sink) + p[..n]
    {
      if closed {
        return 0, false;
      }
      n := if |p| <= accepted then |p| else accepted;
      sink := sink + p[..n];
      ok := |p| <= accepted;
    }

    method Close()
      modifies this`closed
      ensures closed
    {
      closed := true;
    }
  }

  datatype Bare = Bare(unread: Bytes, sink: Bytes, closed: bool)

  /** What the stream alone would do. */
  function Step(s: Bare, op: Op): (Bare, Result) {
    match op
    case Read(size, ready) =>
      if s.closed then (s, Result([], 0, false))
      else
        var n := BareStream.Deliverable(s.unread, size, ready);
        (s.(unread := s.unread[n..]), Result(s.unread[..n], n, true))
    case Write(data, accepted) =>
      if s.closed then (s, Result([], 0, false))
      else
        var n := if |data| <= accepted then |data| else accepted;
        (s.(sink := s.sink + data[..n]), Result([], n, |data| <= accepted))
    case Close => (s.(closed := true), Result([], 0, true))
  }

  /**
   How a logger's loop divides one pipe write: full buffers and a remainder; an empty write is one empty
   read.
   */
  function Pieces(p: Bytes): (chunks: seq<Bytes>)
    ensures Concat(chunks) == p
    ensures forall c :: c in chunks ==> |c| <= 1024
    ensures forall i :: 0 <= i < |chunks| - 1 ==> |chunks[i]| == 1024
    decreases |p|
  {
    if |p| <= LOG_BUFFER then [p] else [p[..LOG_BUFFER]] + Pieces(p[LOG_BUFFER..])
  }

  class LoggedStream {
    const under: BareStream
    var sent: seq<Bytes>        // chunks passed to logSend: what was read
    var received: seq<Bytes>    // chunks passed to logRecv: what was written

    constructor (under: BareStream)
      ensures this.under == under && sent == [] && received == []
    {
      this.under := under;
      sent, received := [], [];
    }

    /** One synchronous write to a log pipe, read by the logger's loop. */
    static method Log(p: Bytes) returns (chunks: seq<Bytes>)
      ensures chunks == Pieces(p)
    {
      chunks := [];
      var rest := p;
      while LOG_BUFFER < |rest|
        invariant chunks + Pieces(rest) == Pieces(p)
      {
        assert chunks + Pieces(rest) == chunks + [rest[..LOG_BUFFER]] + Pieces(rest[LOG_BUFFER..]);
        chunks := chunks + [rest[..LOG_BUFFER]];
        rest := rest[LOG_BUFFER..];
      }
      chunks := chunks + [rest];
    }

    /** `io.TeeReader`: what was read is logged before it is returned. */
    method Read(size: nat, ready: nat) returns (data: Bytes, ok: bool)
      modifies this`sent, under`unread
      ensures ok == !under.closed
      ensures data ==
        if under.closed then [] else old(under.unread)[..BareStream.Deliverable(old(under.unread), size, ready)]
      ensures old(under.unread) == data + under.unread && under.unread == old(under.unread)[|data|..]
      ensures Concat(sent) == Concat(old(sent)) + data
    {
      data, ok := under.Read(size, ready);
      if |data| > 0 {
        var chunks := Log(data);
        ConcatAppend(sent, chunks);
        sent := sent + chunks;
      }
    }

    /** `io.MultiWriter`: the log comes second, and only if the stream took everything. */
    method Write(p: Bytes, accepted: nat) returns (n: nat, ok: bool)
      modifies this`received, under`sink
      ensures ok == (!under.closed && |p| <= accepted)
      ensures n == if under.closed then 0 else if |p| <= accepted then |p| else accepted
      ensures n <= |p| && under.sink == old(under.sink) + p[..n]
      ensures ok ==> Concat(received) == Concat(old(received)) + p
      ensures !ok ==> received == old(received)
    {
      n, ok := under.Write(p, accepted);
      if ok {
        var chunks := Log(p);
        ConcatAppend(received, chunks);
        received := received + chunks;
      }
    }

    ghost function View(): Bare
      reads this, under
    {
      Bare(under.unread, under.sink, under.closed)
    }

    method Do(op: Op) returns (r: Result)
      modifies this, under
      ensures (View(), r) == Step(old(View()), op)
      ensures Concat(sent) == Concat(old(sent)) + r.data
      ensures op.Write? && r.ok ==> Concat(received) == Concat(old(received)) + op.data
      ensures !(op.Write? && r.ok) ==> received == old(received)
    {
      match op {
        case Read(size, ready) =>
          var data, ok := Read(size, ready);
          r := Result(data, |data|, ok);
        case Write(data, accepted) =>
          var n, ok := Write(data, accepted);
          assert n == 0 ==> under.sink == old(under.sink);
          r := Result([], n, ok);
        case Close =>
          under.Close();
          r := Result([], 0, true);
      }
    }
  }

  // ----- transparency -----

  function Results(s: Bare, ops: seq<Op>): (Bare, seq<Result>) {
    if ops == [] then (s, [])
    else
      var (t, rs) := Results(s, ops[..|ops| - 1]);
      var (u, r) := Step(t, ops[|ops| - 1]);
      (u, rs + [r])
  }

  /** The bytes a list of results hands to the caller. */
  function BytesRead(rs: seq<Result>): Bytes {
    if rs == [] then [] else BytesRead(rs[..|rs| - 1]) + rs[|rs| - 1].data
  }

  /** The data of the writes that succeeded. */
  function Written(s: Bare, ops: seq<Op>): Bytes {
    if ops == [] then []
    else
      var init, op := ops[..|ops| - 1], ops[|ops| - 1];
      if op.Write? && Step(Results(s, init).0, op).1.ok then Written(s, init) + op.data else Written(s, init)
  }

  predicate AllWritesFit(ops: seq<Op>) {
    forall i :: 0 <= i < |ops| && ops[i].Write? ==> |ops[i].data| <= ops[i].accepted
  }

  /** If the stream takes what it is given, what succeeded is what it holds. */
  lemma {:induction false} WrittenIsSink(s: Bare, ops: seq<Op>)
    requires AllWritesFit(ops)
    ensures Results(s, ops).0.sink == s.sink + Written(s, ops)
  {
    if ops == [] {
      assert s.sink + [] == s.sink;
    } else {
      WrittenIsSink(s, ops[..|ops| - 1]);
      var t, op := Results(s, ops[..|ops| - 1]).0, ops[|ops| - 1];
      if op.Write? {
        assert op.data[..|op.data|] == op.data;
      }
    }
  }

  // ----- closing -----

  /** What the stream alone does while it is open: short of a close, nothing is refused that it can do. */
  lemma OpenStep(s: Bare, op: Op)
    requires !s.closed
    ensures var (t, r) := Step(s, op);
      && t.closed == op.Close?
      && (op.Read? ==> r.ok && r.n == |r.data| && t.sink == s.sink && s.unread == r.data + t.unread)
      && (op.Read? && op.size > 0 && op.ready > 0 && s.unread != [] ==> r.data != [])
      && (op.Write? ==> r.n <= |op.data| && t.sink == s.sink + op.data[..r.n] && t.unread == s.unread)
      && (op.Write? ==> (r.ok <==> r.n == |op.data|))
  {
  }

  /** A read or write that fails and moves no byte, or another close. */
  predicate Refused(r: Result, op: Op) {
    r.data == [] && r.n == 0 && (r.ok <==> op.Close?)
  }

  predicate AllRefused(rs: seq<Result>, ops: seq<Op>) {
    |rs| == |ops| && forall i :: 0 <= i < |ops| ==> Refused(rs[i], ops[i])
  }

  lemma ClosedStep(s: Bare, op: Op)
    requires s.closed
    ensures Step(s, op).0 == s && Refused(Step(s, op).1, op)
  {
  }

  lemma {:induction false} ClosedResults(s: Bare, ops: seq<Op>)
    requires s.closed
    ensures Results(s, ops).0 == s && AllRefused(Results(s, ops).1, ops)
  {
    if ops != [] {
      ClosedResults(s, ops[..|ops| - 1]);
      ResultsSnoc(s, ops);
      ClosedStep(s, ops[|ops| - 1]);
    }
  }

  lemma RegroupResults(a: seq<Result>, b: seq<Result>, c: seq<Result>)
    ensures a + (b + c) == (a + b) + c
  {
  }

  lemma {:induction false} ResultsAppend(s: Bare, x: seq<Op>, y: seq<Op>)
    ensures Results(s, x + y) ==
      (Results(Results(s, x).0, y).0, Results(s, x).1 + Results(Results(s, x).0, y).1)
  {
    if y == [] {
      assert x + y == x && Results(s, x).1 + [] == Results(s, x).1;
    } else {
      var init, op, t := y[..|y| - 1], y[|y| - 1], Results(s, x).0;
      assert (x + y)[..|x + y| - 1] == x + init && (x + y)[|x + y| - 1] == op;
      ResultsAppend(s, x, init);
      ResultsSnoc(s, x + y);
      ResultsSnoc(t, y);
      RegroupResults(Results(s, x).1, Results(t, init).1, [Step(Results(t, init).0, op).1]);
    }
  }

  /**
   Whatever came before, once the stream is closed every read and write fails, and nothing of what is
   unread or has been written changes.
   */
  lemma NothingAfterClose(s: Bare, before: seq<Op>, after: seq<Op>) returns (refused: seq<Result>)
    ensures AllRefused(refused, after)
    ensures Results(s, before + [Close] + after) ==
      (Results(s, before).0.(closed := true), Results(s, before).1 + [Result([], 0, true)] + refused)
  {
    var closed := before + [Close];
    assert closed[..|closed| - 1] == before;
    ResultsSnoc(s, closed);
    ResultsAppend(s, closed, after);
    var t := Results(s, closed).0;
    ClosedResults(t, after);
    refused := Results(t, after).1;
  }

  lemma StepAccounts(s: Bare, op: Op)
    ensures var (u, r) := Step(s, op); s.unread == r.data + u.unread
  {
  }

  lemma BytesReadSnoc(rs: seq<Result>, r: Result)
    ensures BytesRead(rs + [r]) == BytesRead(rs) + r.data
  {
  }

  lemma ResultsSnoc(s: Bare, ops: seq<Op>)
    requires ops != []
    ensures var before, op := Results(s, ops[..|ops| - 1]), ops[|ops| - 1];
      Results(s, ops) == (Step(before.0, op).0, before.1 + [Step(before.0, op).1])
  {
  }

  /** Whatever was read and whatever is left make up the input. */
  lemma {:induction false} NothingUnaccounted(s: Bare, ops: seq<Op>, final: (Bare, seq<Result>))
    requires final == Results(s, ops)
    ensures s.unread == BytesRead(final.1) + final.0.unread
  {
    if ops != [] {
      var op, before := ops[|ops| - 1], Results(s, ops[..|ops| - 1]);
      NothingUnaccounted(s, ops[..|ops| - 1], before);
      ResultsSnoc(s, ops);
      StepAccounts(before.0, op);
      BytesReadSnoc(before.1, Step(before.0, op).1);
      Regroup(BytesRead(before.1), Step(before.0, op).1.data, final.0.unread);
    }
  }

  lemma Regroup(a: Bytes, b: Bytes, c: Bytes)
    ensures a + (b + c) == (a + b) + c
  {
  }

  /**
   For any sequence of reads, writes and closes the wrapped stream gives the results of the bare one
   and leaves it in the same state; the chunks logged for reading concatenate to exactly the bytes
   read, and those logged for writing to exactly the data of the writes that succeeded.
   */
  method RunLogged(input: Bytes, ops: seq<Op>)
    returns (results: seq<Result>, sink: Bytes, sent: seq<Bytes>, received: seq<Bytes>)
    ensures results == Results(Bare(input, [], false), ops).1
    ensures sink == Results(Bare(input, [], false), ops).0.sink
    ensures Concat(sent) == BytesRead(results)
    ensures Concat(received) == Written(Bare(input, [], false), ops)
  {
    var under := new BareStream(input);
    var logged := new LoggedStream(under);
    ghost var start := Bare(input, [], false);
    results := [];
    for i := 0 to |ops|
      invariant fresh(under) && fresh(logged) && logged.under == under
      invariant Results(start, ops[..i]) == (logged.View(), results)
      invariant Concat(logged.sent) == BytesRead(results)
      invariant Concat(logged.received) == Written(start, ops[..i])
    {
      assert ops[..i + 1][..i] == ops[..i] && ops[..i + 1][i] == ops[i];
      var r := logged.Do(ops[i]);
      assert (results + [r])[..|results|] == results;
      results := results + [r];
    }
    assert ops[..|ops|] == ops;
    return results, under.sink, logged.sent, logged.received;
  }
}
