/** Query results as comma-separated lines: `rowsToCSV`. Fields arrive already rendered. */
module Csv {
  import opened Bytes

  const COMMA: byte := 44
  const NEWLINE: byte := 10

  /** What the driver yields for a row: its rendered values, or an error. */
  datatype Row = Values(fields: seq<Bytes>) | RowError

  /**
   What `rows.Next` goes through before it returns false: all rows of the answer, or, if the set is
   broken, those before the statement or the connection failed. Only `rows.Err` would then tell.
   */
  datatype ResultSet = ResultSet(rows: seq<Row>, broken: bool)

  function JoinWith(sep: byte, pieces: seq<Bytes>): Bytes {
    if pieces == [] then []
    else if |pieces| == 1 then pieces[0]
    else pieces[0] + [sep] + JoinWith(sep, pieces[1..])
  }

  /** The pieces between separators; there is always at least one. */
  function Cut(sep: byte, data: Bytes): (pieces: seq<Bytes>)
    ensures pieces != []
  {
    if data == [] then [[]]
    else
      var rest := Cut(sep, data[1..]);
      if data[0] == sep then [[]] + rest else [[data[0]] + rest[0]] + rest[1..]
  }

  predicate Without(sep: byte, pieces: seq<Bytes>) {
    forall p :: p in pieces ==> sep !in p
  }

  lemma {:induction false} CutHasNoSeparator(sep: byte, data: Bytes)
    ensures Without(sep, Cut(sep, data))
  {
    if data != [] {
      CutHasNoSeparator(sep, data[1..]);
      var rest := Cut(sep, data[1..]);
      assert rest[0] in rest;
    }
  }

  lemma {:induction false} CutPiece(sep: byte, piece: Bytes, rest: Bytes)
    requires sep !in piece
    ensures Cut(sep, piece + [sep] + rest) == [piece] + Cut(sep, rest)
    ensures Cut(sep, piece) == [piece]
  {
    if piece == [] {
      assert piece + [sep] + rest == [sep] + rest;
    } else {
      assert (piece + [sep] + rest)[1..] == piece[1..] + [sep] + rest;
      CutPiece(sep, piece[1..], rest);
      assert [piece[0]] + piece[1..] == piece;
    }
  }

  /** Joining is undone by cutting exactly when there is a piece and no piece contains the separator. */
  lemma {:induction false} CutAfterJoin(sep: byte, pieces: seq<Bytes>)
    ensures Cut(sep, JoinWith(sep, pieces)) == pieces <==> pieces != [] && Without(sep, pieces)
  {
    CutHasNoSeparator(sep, JoinWith(sep, pieces));
    if pieces != [] && Without(sep, pieces) {
      CutCleanJoin(sep, pieces);
    }
  }

  lemma {:induction false} CutCleanJoin(sep: byte, pieces: seq<Bytes>)
    requires pieces != [] && Without(sep, pieces)
    ensures Cut(sep, JoinWith(sep, pieces)) == pieces
  {
    assert pieces[0] in pieces;
    CutPiece(sep, pieces[0], JoinWith(sep, pieces[1..]));
    if |pieces| > 1 {
      CutCleanJoin(sep, pieces[1..]);
      assert pieces == [pieces[0]] + pieces[1..];
    }
  }

  function EncodeRow(fields: seq<Bytes>): Bytes {
    JoinWith(COMMA, fields) + [NEWLINE]
  }

  function Encode(rows: seq<seq<Bytes>>): Bytes {
    if rows == [] then [] else EncodeRow(rows[0]) + Encode(rows[1..])
  }

  function DecodeLines(lines: seq<Bytes>): (rows: seq<seq<Bytes>>)
    ensures |rows| == |lines|
  {
    if lines == [] then [] else [Cut(COMMA, lines[0])] + DecodeLines(lines[1..])
  }

  /** Lines end in a newline, so what follows the last newline is not a row. */
  function Decode(data: Bytes): seq<seq<Bytes>> {
    var lines := Cut(NEWLINE, data);
    DecodeLines(lines[..|lines| - 1])
  }

  /** The rows before the first error. */
  function Good(rows: seq<Row>): seq<seq<Bytes>> {
    if rows == [] || rows[0].RowError? then [] else [rows[0].fields] + Good(rows[1..])
  }

  lemma {:induction false} EncodeSnoc(rows: seq<seq<Bytes>>, row: seq<Bytes>)
    ensures Encode(rows + [row]) == Encode(rows) + EncodeRow(row)
  {
    if rows == [] {
      assert (rows + [row])[1..] == [];
    } else {
      assert (rows + [row])[1..] == rows[1..] + [row];
      EncodeSnoc(rows[1..], row);
    }
  }

  lemma {:induction false} JoinSnoc(sep: byte, pieces: seq<Bytes>, piece: Bytes)
    requires pieces != []
    ensures JoinWith(sep, pieces + [piece]) == JoinWith(sep, pieces) + [sep] + piece
  {
    assert (pieces + [piece])[1..] == pieces[1..] + [piece];
    if |pieces| > 1 {
      JoinSnoc(sep, pieces[1..], piece);
    }
  }

  lemma {:induction false} GoodPrefix(rows: seq<Row>, n: nat)
    requires n <= |rows| && forall i :: 0 <= i < n ==> rows[i].Values?
    ensures Good(rows[..n]) + Good(rows[n..]) == Good(rows)
  {
    if n > 0 {
      assert rows[1..][..n - 1] == rows[..n][1..] && rows[1..][n - 1..] == rows[n..];
      GoodPrefix(rows[1..], n - 1);
    }
  }

  lemma {:induction false} GoodSnoc(rows: seq<Row>, row: Row)
    requires row.Values? && forall i :: 0 <= i < |rows| ==> rows[i].Values?
    ensures Good(rows + [row]) == Good(rows) + [row.fields]
  {
    if rows == [] {
      assert (rows + [row])[1..] == [];
    } else {
      assert (rows + [row])[1..] == rows[1..] + [row];
      GoodSnoc(rows[1..], row);
    }
  }

  // ----- the writer -----

  /** What a writer takes of `p` that has room for that many bytes before it fails for good. */
  function Taken(p: Bytes, room: nat): Bytes {
    if |p| <= room then p else p[..room]
  }

  lemma TakenSplit(p: Bytes, q: Bytes, room: nat)
    ensures |Taken(p, room)| <= room
    ensures Taken(p + q, room) == Taken(p, room) + Taken(q, room - |Taken(p, room)|)
  {
  }

  /** One `fmt.Fprintf`, its result discarded: as much of `p` as there is room for. */
  method Put(out: Bytes, ghost whole: Bytes, p: Bytes, room: nat) returns (r: Bytes)
    requires out == Taken(whole, room)
    ensures r == Taken(whole + p, room)
  {
    TakenSplit(whole, p, room);
    r := out + (if |p| <= room - |out| then p else p[..room - |out|]);
  }

  /** One row: the values with a comma before each but the first, and a newline, as far as the writer takes them. */
  method WriteRow(out: Bytes, ghost whole: Bytes, values: seq<Bytes>, room: nat) returns (r: Bytes)
    requires out == Taken(whole, room)
    ensures r == Taken(whole + EncodeRow(values), room)
  {
    r := out;
    ghost var written := whole;
    assert whole + [] == whole;
    for i := 0 to |values|
      invariant written == whole + JoinWith(COMMA, values[..i]) && r == Taken(written, room)
    {
      assert values[..i + 1] == values[..i] + [values[i]];
      if i > 0 {
        JoinSnoc(COMMA, values[..i], values[i]);
        r := Put(r, written, [COMMA], room);
        written := written + [COMMA];
      }
      r := Put(r, written, values[i], room);
      written := written + values[i];
    }
    assert values[..|values|] == values;
    r := Put(r, written, [NEWLINE], room);
    assert written + [NEWLINE] == whole + EncodeRow(values);
  }

  lemma NextGood(rows: seq<Row>, r: nat)
    requires r < |rows| && forall i :: 0 <= i <= r ==> rows[i].Values?
    ensures Encode(Good(rows[..r + 1])) == Encode(Good(rows[..r])) + EncodeRow(rows[r].fields)
  {
    GoodSnoc(rows[..r], rows[r]);
    assert rows[..r + 1] == rows[..r] + [rows[r]];
    EncodeSnoc(Good(rows[..r]), rows[r].fields);
  }

  lemma StopsAt(rows: seq<Row>, r: nat)
    requires r < |rows| && rows[r].RowError? && forall i :: 0 <= i < r ==> rows[i].Values?
    ensures Good(rows) == Good(rows[..r])
  {
    GoodPrefix(rows, r);
    assert Good(rows[r..]) == [] && Good(rows[..r]) + [] == Good(rows[..r]);
  }

  predicate HasError(rows: seq<Row>) {
    exists i :: 0 <= i < |rows| && rows[i].RowError?
  }

  lemma {:induction false} GoodStops(rows: seq<Row>)
    ensures |Good(rows)| <= |rows|
    ensures |Good(rows)| < |rows| <==> HasError(rows)
  {
    if rows != [] && rows[0].Values? {
      GoodStops(rows[1..]);
      assert forall i :: 0 < i < |rows| ==> rows[i] == rows[1..][i - 1];
      if i :| 0 <= i < |rows[1..]| && rows[1..][i].RowError? {
        assert rows[i + 1].RowError?;
      }
    }
  }

  /** The output is the whole answer, to its last row. */
  predicate Complete(result: ResultSet, out: Bytes) {
    !result.broken && !HasError(result.rows) && out == Encode(Good(result.rows))
  }

  /**
   The rows before the first bad one go out as far as the writer takes them, and the call fails exactly
   if a row did. So the output falls short of the answer without an error in exactly two cases: the set
   broke off between rows, as the loop asks for `rows.Err` only after `rows.Next` has returned true; or
   the writer failed, as the results of the writes are discarded.
   */
  method RowsToCsv(result: ResultSet, room: nat) returns (out: Bytes, err: bool)
    ensures out == Taken(Encode(Good(result.rows)), room)
    ensures err <==> HasError(result.rows)
    ensures !err && !Complete(result, out) <==>
      !HasError(result.rows) && (result.broken || room < |Encode(Good(result.rows))|)
  {
    out := [];
    var rows := result.rows;
    for r := 0 to |rows|
      invariant forall i :: 0 <= i < r ==> rows[i].Values?
      invariant out == Taken(Encode(Good(rows[..r])), room)
    {
      if rows[r].RowError? {
        StopsAt(rows, r);
        return out, true;
      }
      NextGood(rows, r);
      out := WriteRow(out, Encode(Good(rows[..r])), rows[r].fields, room);
    }
    assert rows[..|rows|] == rows;
    return out, false;
  }

  function AsRows(rows: seq<seq<Bytes>>): (r: seq<Row>)
    ensures |r| == |rows| && forall i :: 0 <= i < |rows| ==> r[i] == Values(rows[i])
  {
    seq(|rows|, i requires 0 <= i < |rows| => Values(rows[i]))
  }

  lemma {:induction false} GoodOfRows(rows: seq<seq<Bytes>>)
    ensures Good(AsRows(rows)) == rows
  {
    if rows != [] {
      assert AsRows(rows)[1..] == AsRows(rows[1..]);
      GoodOfRows(rows[1..]);
    }
  }

  /** Of an answer with a bad row exactly the rows before it count. */
  lemma {:induction false} GoodBeforeError(rows: seq<seq<Bytes>>, rest: seq<Row>)
    ensures Good(AsRows(rows) + [RowError] + rest) == rows
  {
    var all := AsRows(rows) + [RowError] + rest;
    if rows != [] {
      assert all[0] == Values(rows[0]);
      assert all[1..] == AsRows(rows[1..]) + [RowError] + rest;
      GoodBeforeError(rows[1..], rest);
    }
  }

  /** Two rows, "a,b" and "c", byte for byte. */
  lemma EncodedBytes()
    ensures Encode([[[97], [98]], [[99]]]) == [97, 44, 98, 10, 99, 10]
  {
    var rows: seq<seq<Bytes>> := [[[97], [98]], [[99]]];
    assert rows[0][1..] == [[98]] && rows[1..] == [[[99]]] && rows[1..][1..] == [];
    assert EncodeRow(rows[0]) == [97, 44, 98, 10] && EncodeRow(rows[1]) == [99, 10];
  }

  lemma {:induction false} EncodeAppend(x: seq<seq<Bytes>>, y: seq<seq<Bytes>>)
    ensures Encode(x + y) == Encode(x) + Encode(y)
  {
    if x == [] {
      assert x + y == y;
    } else {
      assert (x + y)[0] == x[0] && (x + y)[1..] == x[1..] + y;
      EncodeAppend(x[1..], y);
    }
  }

  /**
   Whatever rows were sent before an answer of more rows broke off: the output is a strict prefix of
   what it should have been, no row reports an error, and an answer of just those rows looks the same.
   */
  lemma BrokenSetIsSilent(sent: seq<seq<Bytes>>, missing: seq<seq<Bytes>>)
    requires missing != []
    ensures var result := ResultSet(AsRows(sent), true);
      && !HasError(result.rows) && !Complete(result, Encode(Good(result.rows)))
      && Encode(Good(result.rows)) == Encode(sent) < Encode(sent + missing)
      && Complete(ResultSet(result.rows, false), Encode(sent))
  {
    GoodOfRows(sent);
    EncodeAppend(sent, missing);
    assert Encode(missing) == EncodeRow(missing[0]) + Encode(missing[1..]);
  }

  /** Whatever the rows of an intact answer, a writer without room loses all of them, and no row reports an error. */
  lemma FailedWriterIsSilent(rows: seq<seq<Bytes>>)
    requires rows != []
    ensures var result := ResultSet(AsRows(rows), false);
      && !HasError(result.rows) && Complete(result, Encode(rows))
      && Taken(Encode(Good(result.rows)), 0) == [] < Encode(rows)
  {
    GoodOfRows(rows);
    assert Encode(rows) == EncodeRow(rows[0]) + Encode(rows[1..]);
  }

  /** A row that decoding can give back. */
  predicate Decodable(row: seq<Bytes>) {
    row != [] && Without(COMMA, row) && Without(NEWLINE, row)
  }

  lemma {:induction false} JoinWithoutNewline(row: seq<Bytes>)
    requires Without(NEWLINE, row)
    ensures NEWLINE !in JoinWith(COMMA, row)
  {
    if row != [] {
      assert row[0] in row;
      JoinWithoutNewline(row[1..]);
    }
  }

  /**
   The output can be decoded to the rows exactly when every row has a field and no field holds a comma or a
   newline.
   */
  lemma RoundTripExact(rows: seq<seq<Bytes>>)
    ensures Decode(Encode(rows)) == rows <==> forall row :: row in rows ==> Decodable(row)
  {
    if forall row :: row in rows ==> Decodable(row) {
      DecodableRoundTrip(rows);
    }
    DecodedIsDecodable(Encode(rows));
  }

  lemma {:induction false} DecodableRoundTrip(rows: seq<seq<Bytes>>)
    requires forall row :: row in rows ==> Decodable(row)
    ensures Decode(Encode(rows)) == rows
  {
    if rows != [] {
      assert rows[0] in rows;
      JoinWithoutNewline(rows[0]);
      CutPiece(NEWLINE, JoinWith(COMMA, rows[0]), Encode(rows[1..]));
      CutAfterJoin(COMMA, rows[0]);
      DecodableRoundTrip(rows[1..]);
      var lines, rest := Cut(NEWLINE, Encode(rows)), Cut(NEWLINE, Encode(rows[1..]));
      assert lines[..|lines| - 1] == [JoinWith(COMMA, rows[0])] + rest[..|rest| - 1];
    }
  }

  lemma {:induction false} DecodeLinesAt(lines: seq<Bytes>, i: nat)
    requires i < |lines|
    ensures DecodeLines(lines)[i] == Cut(COMMA, lines[i])
  {
    if i > 0 {
      DecodeLinesAt(lines[1..], i - 1);
    }
  }

  lemma {:induction false} CutKeepsOut(sep: byte, data: Bytes, b: byte)
    requires b !in data
    ensures Without(b, Cut(sep, data))
  {
    if data != [] {
      CutKeepsOut(sep, data[1..], b);
      assert Cut(sep, data[1..])[0] in Cut(sep, data[1..]);
    }
  }

  lemma DecodedIsDecodable(data: Bytes)
    ensures forall row :: row in Decode(data) ==> Decodable(row)
  {
    var lines := Cut(NEWLINE, data);
    CutHasNoSeparator(NEWLINE, data);
    forall row | row in Decode(data) ensures Decodable(row) {
      var i :| 0 <= i < |Decode(data)| && Decode(data)[i] == row;
      DecodeLinesAt(lines[..|lines| - 1], i);
      assert lines[i] in lines;
      CutHasNoSeparator(COMMA, lines[i]);
      CutKeepsOut(COMMA, lines[i], NEWLINE);
    }
  }

  // ----- encoding what was decoded -----

  lemma {:induction false} JoinAfterCut(sep: byte, data: Bytes)
    ensures JoinWith(sep, Cut(sep, data)) == data
  {
    if data != [] {
      JoinAfterCut(sep, data[1..]);
      var rest := Cut(sep, data[1..]);
      if data[0] == sep {
        assert ([[]] + rest)[1..] == rest;
      } else {
        assert ([[data[0]] + rest[0]] + rest[1..])[1..] == rest[1..];
      }
    }
  }

  lemma {:induction false} EncodeLines(lines: seq<Bytes>)
    requires lines != []
    ensures Encode(DecodeLines(lines[..|lines| - 1])) + lines[|lines| - 1] == JoinWith(NEWLINE, lines)
  {
    if |lines| > 1 {
      var rest := lines[1..];
      EncodeLines(rest);
      JoinAfterCut(COMMA, lines[0]);
      assert lines[..|lines| - 1] == [lines[0]] + rest[..|rest| - 1];
      var rows := DecodeLines(lines[..|lines| - 1]);
      assert rows[0] == Cut(COMMA, lines[0]) && rows[1..] == DecodeLines(rest[..|rest| - 1]);
    }
  }

  /** Any bytes are the encoding of the rows they decode to, followed by a line without its newline. */
  lemma EncodeAfterDecode(data: Bytes) returns (tail: Bytes)
    ensures data == Encode(Decode(data)) + tail && NEWLINE !in tail
  {
    var lines := Cut(NEWLINE, data);
    tail := lines[|lines| - 1];
    JoinAfterCut(NEWLINE, data);
    EncodeLines(lines);
    CutHasNoSeparator(NEWLINE, data);
  }

  /** With a writer that may fail, the rows can be read back exactly if it took everything and all are decodable. */
  lemma RoundTripTaken(rows: seq<seq<Bytes>>, room: nat)
    ensures Decode(Taken(Encode(rows), room)) == rows <==>
      |Encode(rows)| <= room && forall row :: row in rows ==> Decodable(row)
  {
    RoundTripExact(rows);
    var tail := EncodeAfterDecode(Taken(Encode(rows), room));
  }
}
