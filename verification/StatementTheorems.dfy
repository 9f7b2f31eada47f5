/** Whole inputs: the statements a scan yields, however the input arrives. */
module StatementTheorems {
  import opened Bytes
  import opened Scanning
  import opened Statements

  // ----- the statements of an input -----

  /** A statement that can be followed by its terminator: no terminator inside, and its end is at top level. */
  predicate Clean(stmt: Bytes) {
    NoTerminator(stmt) && TopLevel(stmt, |stmt|)
  }

  function Join(stmts: seq<Bytes>, tail: Bytes): Bytes {
    if stmts == [] then tail else stmts[0] + [SEMICOLON] + Join(stmts[1..], tail)
  }

  datatype Parts = Parts(stmts: seq<Bytes>, tail: Bytes)

  /** Cut at each terminator in turn. */
  function Parse(input: Bytes): Parts
    decreases |input|
  {
    var i := FindTerminator(input, 0);
    if i == |input| then Parts([], input)
    else
      var rest := Parse(input[i + 1..]);
      Parts([input[..i]] + rest.stmts, rest.tail)
  }

  /** What precedes the first terminator is clean. */
  lemma HeadIsClean(input: Bytes, i: nat)
    requires i == FindTerminator(input, 0) < |input|
    ensures Clean(input[..i]) && input == input[..i] + [SEMICOLON] + input[i + 1..]
  {
    var head, tail := input[..i], input[i..];
    assert input == head + tail;
    forall j | 0 <= j < i ensures !Terminator(head, j) {
      TerminatorLocal(head, tail, j);
    }
    BackslashesLocal(head, tail, i);
    QuotesLocal(head, tail, i);
  }

  /**
   Conservation: putting the terminators back restores the input, and the pieces have the shape of
   statements.
   */
  lemma {:induction false} JoinAfterParse(input: Bytes)
    ensures var p := Parse(input);
      && Join(p.stmts, p.tail) == input
      && (forall s :: s in p.stmts ==> Clean(s))
      && NoTerminator(p.tail)
    decreases |input|
  {
    var i := FindTerminator(input, 0);
    if i < |input| {
      JoinAfterParse(input[i + 1..]);
      HeadIsClean(input, i);
      var p := Parse(input);
      assert p.stmts[0] == input[..i] && p.stmts[1..] == Parse(input[i + 1..]).stmts;
      assert forall s :: s in p.stmts ==> s == input[..i] || s in p.stmts[1..];
    }
  }

  lemma CleanHead(stmt: Bytes, rest: Bytes)
    requires Clean(stmt)
    ensures FindTerminator(stmt + [SEMICOLON] + rest, 0) == |stmt|
  {
    var input := stmt + [SEMICOLON] + rest;
    assert input == stmt + ([SEMICOLON] + rest);
    BackslashesLocal(stmt, [SEMICOLON] + rest, |stmt|);
    QuotesLocal(stmt, [SEMICOLON] + rest, |stmt|);
    assert Terminator(input, |stmt|);
    var i := FindTerminator(input, 0);
    if i < |stmt| {
      TerminatorLocal(stmt, [SEMICOLON] + rest, i);
    }
  }

  /**
   Round trip: joined statements are parsed back exactly when each is clean and the tail has no terminator.
   */
  lemma {:induction false} ParseAfterJoin(stmts: seq<Bytes>, tail: Bytes)
    ensures Parse(Join(stmts, tail)) == Parts(stmts, tail) <==>
      (forall s :: s in stmts ==> Clean(s)) && NoTerminator(tail)
  {
    if (forall s :: s in stmts ==> Clean(s)) && NoTerminator(tail) {
      ParseJoinedClean(stmts, tail);
    }
    JoinAfterParse(Join(stmts, tail));
  }

  lemma {:induction false} ParseJoinedClean(stmts: seq<Bytes>, tail: Bytes)
    requires (forall s :: s in stmts ==> Clean(s)) && NoTerminator(tail)
    ensures Parse(Join(stmts, tail)) == Parts(stmts, tail)
  {
    if stmts != [] {
      CleanHead(stmts[0], Join(stmts[1..], tail));
      ParseJoinedClean(stmts[1..], tail);
      var input := Join(stmts, tail);
      assert input[..|stmts[0]|] == stmts[0];
      assert input[|stmts[0]| + 1..] == Join(stmts[1..], tail);
      assert stmts == [stmts[0]] + stmts[1..];
    }
  }

  // ----- what a scan yields -----

  /** The unterminated end of an input, if there is one. */
  function LastOf(tail: Bytes): seq<Bytes> {
    if tail == [] then [] else [tail]
  }

  /** The statements of an input, the unterminated one last unless it is empty. */
  function StatementsOf(input: Bytes): seq<Bytes>
    decreases |input|
  {
    var i := FindTerminator(input, 0);
    if i < |input| then [input[..i]] + StatementsOf(input[i + 1..]) else LastOf(input)
  }

  lemma ConsAppend(x: Bytes, xs: seq<Bytes>, ys: seq<Bytes>)
    ensures ([x] + xs) + ys == [x] + (xs + ys)
    ensures [] + ys == ys
  {
  }

  lemma {:induction false} StatementsAreParts(input: Bytes)
    ensures StatementsOf(input) == Parse(input).stmts + LastOf(Parse(input).tail)
    decreases |input|
  {
    var i := FindTerminator(input, 0);
    if i < |input| {
      var rest := Parse(input[i + 1..]);
      StatementsAreParts(input[i + 1..]);
      ConsAppend(input[..i], rest.stmts, LastOf(rest.tail));
    } else {
      ConsAppend([], [], LastOf(input));
    }
  }

  /** The scan of an input with `splitStatements`. */
  ghost function Scanned(input: Bytes, limit: nat): Outcome {
    SplitWellBehaved();
    Tokens(Split, input, limit)
  }

  /**
   The scan of an input yields its statements up to the first that is as long as the buffer, and fails
   exactly if there is such a statement.
   */
  lemma {:induction false} TokensAreStatements(input: Bytes, limit: nat)
    requires 0 < limit
    ensures Scanned(input, limit) ==
      Outcome(FirstFitting(StatementsOf(input), limit), !Fits(StatementsOf(input), limit))
    decreases |input|
  {
    SplitWellBehaved();
    var i := FindTerminator(input, 0);
    if i < |input| {
      TokensAreStatements(input[i + 1..], limit);
      FirstFittingCons(input[..i], StatementsOf(input[i + 1..]), limit);
    } else if input != [] {
      FirstFittingCons(input, [], limit);
    }
  }

  /**
   The scan loop of `Connect`. Whatever the sizes of the reads, the result is the same: the
   statements of the input, cut short only by a statement of at least `limit` bytes.
   */
  method ScanStatements(input: Bytes, limit: nat, sizes: nat -> nat) returns (tokens: seq<Bytes>, tooLong: bool)
    requires 0 < limit
    ensures tokens == FirstFitting(StatementsOf(input), limit)
    ensures tooLong == !Fits(StatementsOf(input), limit)
  {
    SplitWellBehaved();
    var o := ScanAll(Split, input, limit, sizes);
    TokensAreStatements(input, limit);
    return o.tokens, o.tooLong;
  }

  /** Every token but an unterminated last one used up a terminator, so there are no more tokens than bytes. */
  lemma {:induction false} FinitelyManyTokens(input: Bytes)
    ensures |StatementsOf(input)| <= |input|
    decreases |input|
  {
    var i := FindTerminator(input, 0);
    if i < |input| {
      FinitelyManyTokens(input[i + 1..]);
    }
  }

  // ----- the shortcut at end of input -----

  /** Taking the buffer whole at EOF gives its statements exactly when it holds no terminator. */
  lemma EofShortcutExact(data: Bytes)
    ensures var whole := match Split(data, true) { case More => [] case Token(_, token) => [token] };
      whole == StatementsOf(data) <==> NoTerminator(data)
  {
    var i := FindTerminator(data, 0);
    if i < |data| {
      assert StatementsOf(data)[0] == data[..i];
      assert |data[..i]| < |data|;
      assert data != [];
      assert [data][0] == data;
    }
  }

  /** One `Scan` of statements: the shortcut is never taken on a buffer that holds a terminator. */
  method ScanStatement(scanner: Scanner) returns (ok: bool, token: Bytes, ghost atEof: Option<Bytes>)
    requires scanner.split == Split && scanner.Valid() && !scanner.tooLong && (scanner.eof ==> scanner.buf == [])
    modifies scanner
    ensures atEof.Some? ==> NoTerminator(atEof.value)
  {
    ok, token, atEof := scanner.Scan();
  }

  /**
   It would lose a split if the last bytes came with the EOF: reading "a;b" and EOF at once gives one
   statement.
   */
  lemma DataWithEofLosesSplit()
    ensures Split([97, SEMICOLON, 98], true) == Token(3, [97, SEMICOLON, 98])
    ensures StatementsOf([97, SEMICOLON, 98]) == [[97], [98]]
  {
    var data: Bytes := [97, SEMICOLON, 98];
    assert Terminator(data, 1);
    assert FindTerminator(data, 0) == 1;
    assert data[..1] == [97] && data[2..] == [98];
    assert FindTerminator([98], 0) == 1;
    assert StatementsOf([98]) == [[98]];
  }

  /** The two statements of "\\;';';x", byte for byte: an escaped and a quoted semicolon do not end one. */
  lemma SplitBytes()
    ensures Split([92, 59, 39, 59, 39, 59, 120], false) == Token(6, [92, 59, 39, 59, 39])
  {
    var d: Bytes := [92, 59, 39, 59, 39, 59, 120];
    assert Backslashes(d, 0) == 0 && Backslashes(d, 1) == 1 && Backslashes(d, 2) == 0 && Backslashes(d, 3) == 0;
    assert Backslashes(d, 4) == 0 && Backslashes(d, 5) == 0;
    assert Quotes(d, 2) == 0 && Quotes(d, 3) == 1;
    assert Quotes(d, 4) == 1 && Quotes(d, 5) == 2;
    assert !Terminator(d, 1) && !Terminator(d, 3) && Terminator(d, 5);
    assert d[..5] == [92, 59, 39, 59, 39];
  }

  // ----- the single-pass automaton -----

  /** The state `splitStatements` would carry if it did not start again for every read. */
  datatype Automaton = Automaton(inEscape: bool, inString: bool, stmt: Bytes, out: seq<Bytes>)

  const START := Automaton(false, false, [], [])

  function Consume(a: Automaton, b: byte): Automaton {
    if a.inEscape then a.(inEscape := false, stmt := a.stmt + [b])
    else if b == BACKSLASH then a.(inEscape := true, stmt := a.stmt + [b])
    else if b == QUOTE then a.(inString := !a.inString, stmt := a.stmt + [b])
    else if b == SEMICOLON && !a.inString then a.(stmt := [], out := a.out + [a.stmt])
    else a.(stmt := a.stmt + [b])
  }

  function Run(a: Automaton, data: Bytes): Automaton {
    if data == [] then a else Consume(Run(a, data[..|data| - 1]), data[|data| - 1])
  }

  lemma {:induction false} RunAppend(a: Automaton, x: Bytes, y: Bytes)
    ensures Run(a, x + y) == Run(Run(a, x), y)
  {
    if y == [] {
      assert x + y == x;
    } else {
      var n := |y| - 1;
      assert (x + y)[..|x + y| - 1] == x + y[..n];
      RunAppend(a, x, y[..n]);
    }
  }

  /** The automaton, its state carried from read to read, over an input that arrives in chunks. */
  function RunChunks(a: Automaton, chunks: seq<Bytes>): Automaton
    decreases |chunks|
  {
    if chunks == [] then a else RunChunks(Run(a, chunks[0]), chunks[1..])
  }

  lemma {:induction false} RunChunksIsRun(a: Automaton, chunks: seq<Bytes>)
    ensures RunChunks(a, chunks) == Run(a, Concat(chunks))
    decreases |chunks|
  {
    if chunks != [] {
      RunAppend(a, chunks[0], Concat(chunks[1..]));
      RunChunksIsRun(Run(a, chunks[0]), chunks[1..]);
    }
  }

  /** Statements already output do not influence the rest. */
  lemma {:induction false} RunOnto(out: seq<Bytes>, data: Bytes)
    ensures Run(Automaton(false, false, [], out), data) == Run(START, data).(out := out + Run(START, data).out)
  {
    if data == [] {
      assert out + [] == out;
    } else {
      RunOnto(out, data[..|data| - 1]);
      var a := Run(START, data[..|data| - 1]);
      assert out + (a.out + [a.stmt]) == (out + a.out) + [a.stmt];
    }
  }

  /** Before the first terminator the automaton only gathers, and its two flags are the two parities. */
  lemma {:induction false} RunGathers(data: Bytes)
    requires NoTerminator(data)
    ensures Run(START, data) ==
      Automaton(Backslashes(data, |data|) % 2 == 1, Quotes(data, |data|) % 2 == 1, data, [])
  {
    if data != [] {
      var n := |data| - 1;
      var init := data[..n];
      assert data == init + [data[n]];
      forall j | 0 <= j < n ensures !Terminator(init, j) {
        TerminatorLocal(init, [data[n]], j);
      }
      RunGathers(init);
      BackslashesLocal(init, [data[n]], n);
      QuotesLocal(init, [data[n]], n);
      assert !Terminator(data, n);
      LastByte(data, n, Run(START, init));
    }
  }

  lemma Parity(x: nat)
    ensures ((1 + x) % 2 == 1) == (x % 2 == 0)
  {
  }

  lemma LastBackslash(data: Bytes, n: nat)
    requires n + 1 == |data|
    ensures (Backslashes(data, n + 1) % 2 == 1) == (data[n] == BACKSLASH && Backslashes(data, n) % 2 == 0)
  {
    Parity(Backslashes(data, n));
  }

  lemma LastQuote(data: Bytes, n: nat)
    requires n + 1 == |data|
    ensures (Quotes(data, n + 1) % 2 == 1) ==
      ((Quotes(data, n) % 2 == 1) != (data[n] == QUOTE && Backslashes(data, n) % 2 == 0))
  {
    Parity(Quotes(data, n));
  }

  /** One more byte keeps the two flags equal to the two parities. */
  lemma LastByte(data: Bytes, n: nat, a: Automaton)
    requires n + 1 == |data| && !Terminator(data, n) && a.stmt == data[..n] && a.out == []
    requires a.inEscape == (Backslashes(data, n) % 2 == 1)
    requires a.inString == (Quotes(data, n) % 2 == 1)
    ensures Consume(a, data[n]) ==
      Automaton(Backslashes(data, n + 1) % 2 == 1, Quotes(data, n + 1) % 2 == 1, data, [])
  {
    LastBackslash(data, n);
    LastQuote(data, n);
    ConsumeGathers(a, data[n], Backslashes(data, n) % 2, Quotes(data, n) % 2);
    assert data[..n] + [data[n]] == data;
  }

  lemma ConsumeGathers(a: Automaton, b: byte, backslashes: nat, quotes: nat)
    requires a.inEscape == (backslashes == 1) && a.inString == (quotes == 1) && backslashes <= 1 && quotes <= 1
    requires b != SEMICOLON || backslashes != 0 || quotes != 0
    ensures Consume(a, b) == Automaton(b == BACKSLASH && backslashes == 0,
      (quotes == 1) != (b == QUOTE && backslashes == 0), a.stmt + [b], a.out)
  {
  }

  lemma RunStatement(stmt: Bytes)
    requires Clean(stmt)
    ensures Run(START, stmt + [SEMICOLON]) == START.(out := [stmt])
  {
    RunGathers(stmt);
    assert (stmt + [SEMICOLON])[..|stmt|] == stmt;
  }

  lemma {:induction false} AutomatonParses(input: Bytes)
    ensures Run(START, input).out == Parse(input).stmts && Run(START, input).stmt == Parse(input).tail
    decreases |input|
  {
    var i := FindTerminator(input, 0);
    if i == |input| {
      RunGathers(input);
    } else {
      var head, rest := input[..i], input[i + 1..];
      JoinAfterParse(input);
      assert Parse(input).stmts[0] == head;
      RunStatement(head);
      RunAppend(START, head + [SEMICOLON], rest);
      assert input == head + [SEMICOLON] + rest;
      RunOnto([head], rest);
      AutomatonParses(rest);
    }
  }

  /**
   Chunk independence: rescanning the buffer after each read gives the statements of the automaton
   that never looks at a byte twice, for any division of the input into chunks.
   */
  lemma RescanEqualsSinglePass(chunks: seq<Bytes>, limit: nat)
    requires 0 < limit
    ensures var a := RunChunks(START, chunks);
      var all := a.out + LastOf(a.stmt);
      Scanned(Concat(chunks), limit) == Outcome(FirstFitting(all, limit), !Fits(all, limit))
  {
    RunChunksIsRun(START, chunks);
    AutomatonParses(Concat(chunks));
    StatementsAreParts(Concat(chunks));
    TokensAreStatements(Concat(chunks), limit);
  }

  /** With room for the whole input nothing is cut short. */
  lemma {:induction false} ShortInputFits(input: Bytes, limit: nat)
    requires |input| < limit
    ensures Fits(StatementsOf(input), limit) && FirstFitting(StatementsOf(input), limit) == StatementsOf(input)
    decreases |input|
  {
    var i := FindTerminator(input, 0);
    if i < |input| {
      ShortInputFits(input[i + 1..], limit);
      FirstFittingCons(input[..i], StatementsOf(input[i + 1..]), limit);
    } else if input != [] {
      FirstFittingCons(input, [], limit);
    }
  }
}
