/** The loop of the PostgreSQL `Connect`: statements in, rows out. */
module Postgres {
  import opened Bytes
  import opened Scanning
  import opened Statements
  import opened StatementTheorems
  import opened Csv

  /** What the server answers to a statement. */
  datatype Answer = QueryError | Rows(result: ResultSet)

  /**
   The server: its answer to each statement by position and text. As the statements before a position
   are those of the same session, the answer may depend on all of them.
   */
  type Server = (nat, Bytes) -> Answer

  /** What a statement contributes: nothing if it failed, otherwise its rows up to the first bad one. */
  function RowsOf(answer: Answer): seq<seq<Bytes>> {
    match answer
    case QueryError => []
    case Rows(result) => Good(result.rows)
  }

  /** An error is logged: of the query, or of one of its rows. */
  predicate Logged(answer: Answer) {
    answer.QueryError? || HasError(answer.result.rows)
  }

  /** The rows of all statements of a session. */
  function AllRows(stmts: seq<Bytes>, server: Server): seq<seq<Bytes>> {
    if stmts == [] then []
    else
      var n := |stmts| - 1;
      AllRows(stmts[..n], server) + RowsOf(server(n, stmts[n]))
  }

  lemma AllRowsSnoc(stmts: seq<Bytes>, stmt: Bytes, server: Server)
    ensures AllRows(stmts + [stmt], server) == AllRows(stmts, server) + RowsOf(server(|stmts|, stmt))
  {
    assert (stmts + [stmt])[..|stmts|] == stmts;
  }

  /** An error is logged for the k-th statement: of its query, or of one of its rows. */
  predicate IsLogged(stmts: seq<Bytes>, server: Server, k: nat) {
    k < |stmts| && match server(k, stmts[k])
      case QueryError => true
      case Rows(result) => exists i :: 0 <= i < |result.rows| && result.rows[i].RowError?
  }

  /** The session has output the rows of these statements, as far as the writer took them, and logged their errors. */
  ghost predicate Served(stmts: seq<Bytes>, server: Server, room: nat, out: Bytes, errors: seq<nat>) {
    && out == Taken(Encode(AllRows(stmts, server)), room)
    && forall k: nat :: k in errors <==> IsLogged(stmts, server, k)
  }

  lemma IsLoggedSnoc(stmts: seq<Bytes>, stmt: Bytes, server: Server, k: nat)
    ensures IsLogged(stmts + [stmt], server, k) ==
      if k == |stmts| then Logged(server(k, stmt)) else IsLogged(stmts, server, k)
  {
  }

  lemma ServedSnoc(stmts: seq<Bytes>, server: Server, room: nat, out: Bytes, errors: seq<nat>,
                   stmt: Bytes, newErrors: seq<nat>)
    requires Served(stmts, server, room, out, errors) && |out| <= room
    requires newErrors == if Logged(server(|stmts|, stmt)) then errors + [|stmts|] else errors
    ensures var csv := Taken(Encode(RowsOf(server(|stmts|, stmt))), room - |out|);
      Served(stmts + [stmt], server, room, out + csv, newErrors)
  {
    AllRowsSnoc(stmts, stmt, server);
    EncodeAppend(AllRows(stmts, server), RowsOf(server(|stmts|, stmt)));
    TakenSplit(Encode(AllRows(stmts, server)), Encode(RowsOf(server(|stmts|, stmt))), room);
    forall k: nat ensures k in newErrors <==> IsLogged(stmts + [stmt], server, k) {
      IsLoggedSnoc(stmts, stmt, server, k);
      assert k in errors <==> IsLogged(stmts, server, k);
    }
  }

  /** A table for each statement: that of the answer, whether or not it broke off, or of none if the query failed. */
  predicate Answers(stmts: seq<Bytes>, server: Server, tables: seq<seq<seq<Bytes>>>) {
    && |tables| == |stmts|
    && forall k :: 0 <= k < |stmts| ==> IsAnswer(server(k, stmts[k]), tables[k])
  }

  predicate IsAnswer(answer: Answer, table: seq<seq<Bytes>>) {
    if answer.QueryError? then table == [] else answer.result.rows == AsRows(table)
  }

  function Flatten(tables: seq<seq<seq<Bytes>>>): seq<seq<Bytes>> {
    if tables == [] then [] else tables[0] + Flatten(tables[1..])
  }

  lemma {:induction false} FlattenSnoc(tables: seq<seq<seq<Bytes>>>, table: seq<seq<Bytes>>)
    ensures Flatten(tables + [table]) == Flatten(tables) + table
  {
    if tables == [] {
      assert [table][1..] == [];
    } else {
      assert (tables + [table])[1..] == tables[1..] + [table];
      FlattenSnoc(tables[1..], table);
    }
  }

  /** The rows of a session are the tables of its statements, one after the other; a failed query adds nothing. */
  lemma {:induction false} AllRowsAreTables(stmts: seq<Bytes>, server: Server, tables: seq<seq<seq<Bytes>>>)
    requires Answers(stmts, server, tables)
    ensures AllRows(stmts, server) == Flatten(tables)
  {
    if stmts != [] {
      var n := |stmts| - 1;
      AllRowsAreTables(stmts[..n], server, tables[..n]);
      FlattenSnoc(tables[..n], tables[n]);
      assert tables == tables[..n] + [tables[n]];
      GoodOfRows(tables[n]);
      assert IsAnswer(server(n, stmts[n]), tables[n]);
    }
  }

  /** One round of the loop: the rows are appended to the output, and an error of query or row is logged. */
  method Execute(stmt: Bytes, server: Server, room: nat, out: Bytes, errors: seq<nat>, position: nat,
                 ghost stmts: seq<Bytes>)
    returns (newOut: Bytes, newErrors: seq<nat>)
    requires Served(stmts, server, room, out, errors) && position == |stmts|
    ensures Served(stmts + [stmt], server, room, newOut, newErrors)
    ensures server(position, stmt).QueryError? ==> newOut == out && newErrors == errors + [position]
  {
    TakenSplit(Encode(AllRows(stmts, server)), [], room);
    var csv, err := Query(server(position, stmt), room - |out|);
    newOut := out + csv;
    newErrors := if err then errors + [position] else errors;
    ServedSnoc(stmts, server, room, out, errors, stmt, newErrors);
  }

  method Query(answer: Answer, room: nat) returns (csv: Bytes, err: bool)
    ensures csv == Taken(Encode(RowsOf(answer)), room) && err == Logged(answer)
    ensures answer.QueryError? ==> csv == [] && err
  {
    match answer {
      case QueryError => return [], true;
      case Rows(result) => csv, err := RowsToCsv(result, room);
    }
  }

  /**
   A session without the JSON option, whose writer takes `room` bytes before it fails. However the input
   arrives and whichever statements fail: the output is the encoding of the rows of the statements that
   succeed, in order, as far as the writer takes it; it can be read back to exactly those rows if and only
   if the writer took all of it and each row has a field and none holds a comma or a newline; an error is
   logged for exactly the statements whose query or row failed, whatever became of the output; and every
   statement is executed if and only if none is as long as the scanner's buffer: the loop ends at such a
   statement as it does at the end of the input.
   */
  method Connect(input: Bytes, limit: nat, sizes: nat -> nat, server: Server, room: nat)
    returns (out: Bytes, errors: seq<nat>)
    requires 0 < limit
    ensures var stmts := FirstFitting(StatementsOf(input), limit);
      && Served(stmts, server, room, out, errors)
      && (Decode(out) == AllRows(stmts, server) <==>
            && |Encode(AllRows(stmts, server))| <= room
            && forall row :: row in AllRows(stmts, server) ==> Decodable(row))
      && (stmts == StatementsOf(input) <==> Fits(StatementsOf(input), limit))
      && (forall tables :: Answers(stmts, server, tables) ==> out == Taken(Encode(Flatten(tables)), room))
  {
    SplitWellBehaved();
    var scanner := new Scanner(Split, input, limit, sizes);
    var count := 0;
    ghost var stmts: seq<Bytes> := [];
    out, errors := [], [];
    var ok, stmt := true, [];
    assert scanner.buf + scanner.unread == input;
    while ok
      invariant scanner.Valid() && (scanner.eof ==> scanner.buf == []) && (ok ==> !scanner.tooLong)
      invariant scanner.split == Split && scanner.limit == limit && fresh(scanner)
      invariant ok ==> Tokens(Split, input, limit) == Onto(stmts, Tokens(Split, scanner.buf + scanner.unread, limit))
      invariant !ok ==> Tokens(Split, input, limit) == Outcome(stmts, scanner.tooLong)
      invariant count == |stmts| && Served(stmts, server, room, out, errors)
      decreases ok, |scanner.buf + scanner.unread|
    {
      ghost var atEof;
      ok, stmt, atEof := scanner.Scan();
      if !ok {
        assert Onto(stmts, Outcome([], scanner.tooLong)) == Outcome(stmts, scanner.tooLong);
      } else {
        OntoPrepend(stmts, stmt, Tokens(Split, scanner.buf + scanner.unread, limit));
        out, errors := Execute(stmt, server, room, out, errors, count, stmts);
        stmts, count := stmts + [stmt], count + 1;
      }
    }
    TokensAreStatements(input, limit);
    FirstFittingIsAll(StatementsOf(input), limit);
    RoundTripTaken(AllRows(stmts, server), room);
    forall tables | Answers(stmts, server, tables) ensures out == Taken(Encode(Flatten(tables)), room) {
      AllRowsAreTables(stmts, server, tables);
    }
  }

  // ----- what the log does not say -----

  /**
   A statement whose answer breaks off between rows contributes the rows it got to, fewer than it would
   have, and is not among the logged errors.
   */
  lemma BrokenAnswerIsNotLogged(sent: seq<seq<Bytes>>, missing: seq<seq<Bytes>>)
    requires missing != []
    ensures var broken, whole := Rows(ResultSet(AsRows(sent), true)), Rows(ResultSet(AsRows(sent + missing), false));
      !Logged(broken) && !Logged(whole) && RowsOf(broken) < RowsOf(whole)
  {
    GoodOfRows(sent);
    GoodOfRows(sent + missing);
  }

  lemma EmptyOrNot(xs: seq<nat>)
    ensures xs == [] || exists x :: x in xs
  {
    assert xs != [] ==> xs[0] in xs;
  }

  /**
   Nor does a failed writer end the session or get logged: whatever the statements and however little the
   writer takes, if no query or row fails, what is output is a strict prefix of the rows and the log is empty.
   */
  lemma FailedWriterIsNotLogged(stmts: seq<Bytes>, server: Server, room: nat, out: Bytes, errors: seq<nat>)
    requires Served(stmts, server, room, out, errors) && room < |Encode(AllRows(stmts, server))|
    requires forall k: nat :: !IsLogged(stmts, server, k)
    ensures out < Encode(AllRows(stmts, server)) && |out| == room && errors == []
  {
    EmptyOrNot(errors);
  }

  /**
   A statement that outgrows the scanner's buffer ends the session like the end of the input: neither it
   nor any statement after it is executed, so output and log are those of a session without them.
   */
  lemma {:induction false} OverlongStatementEndsSession(before: seq<Bytes>, long: Bytes, after: seq<Bytes>, limit: nat)
    requires Fits(before, limit) && limit <= |long|
    ensures FirstFitting(before + [long] + after, limit) == before == FirstFitting(before, limit)
  {
    if before != [] {
      assert before[0] in before;
      OverlongStatementEndsSession(before[1..], long, after, limit);
      assert (before + [long] + after)[1..] == before[1..] + [long] + after;
    }
  }
}
