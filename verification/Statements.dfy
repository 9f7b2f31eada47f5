/** Splitting SQL input into statements: `splitStatements`, against a specification that mentions no state. */
module Statements {
  import opened Bytes
  import opened Scanning

  const BACKSLASH: byte := 92
  const QUOTE: byte := 39
  const SEMICOLON: byte := 59

  /** The length of the run of backslashes immediately before position i. */
  function Backslashes(data: Bytes, i: nat): nat
    requires i <= |data|
  {
    if i == 0 || data[i - 1] != BACKSLASH then 0 else 1 + Backslashes(data, i - 1)
  }

  /** The number of unescaped single quotes before position i. */
  function Quotes(data: Bytes, i: nat): nat
    requires i <= |data|
  {
    if i == 0 then 0
    else Quotes(data, i - 1) + (if data[i - 1] == QUOTE && Backslashes(data, i - 1) % 2 == 0 then 1 else 0)
  }

  /** Position i is outside every string and not escaped. */
  predicate TopLevel(data: Bytes, i: nat)
    requires i <= |data|
  {
    Backslashes(data, i) % 2 == 0 && Quotes(data, i) % 2 == 0
  }

  predicate Terminator(data: Bytes, i: nat)
    requires i <= |data|
  {
    i < |data| && data[i] == SEMICOLON && TopLevel(data, i)
  }

  predicate NoTerminator(data: Bytes) {
    forall i :: 0 <= i < |data| ==> !Terminator(data, i)
  }

  /** The least terminator from position i on, or the length of the data if there is none. */
  function FindTerminator(data: Bytes, i: nat): (r: nat)
    requires i <= |data|
    ensures i <= r <= |data|
    ensures forall j :: i <= j < r ==> !Terminator(data, j)
    ensures r < |data| ==> Terminator(data, r)
    decreases |data| - i
  {
    if i == |data| || Terminator(data, i) then i else FindTerminator(data, i + 1)
  }

  function Split(data: Bytes, atEof: bool): SplitResult {
    if atEof then
      if data == [] then More else Token(|data|, data)
    else
      var i := FindTerminator(data, 0);
      if i == |data| then More else Token(i + 1, data[..i])
  }

  /**
   Off EOF: the least position holding a ';' with an even run of backslashes before it and an even
   number of unescaped quotes before it; more data is asked for exactly when there is no such position.
   */
  method SplitStatements(data: Bytes, atEof: bool) returns (advance: nat, token: Option<Bytes>)
    ensures atEof ==> advance == |data| && token == if data == [] then None else Some(data)
    ensures !atEof && token.None? ==> advance == 0 && NoTerminator(data)
    ensures !atEof && token.Some? ==>
      && 1 <= advance <= |data| && Terminator(data, advance - 1) && token.value == data[..advance - 1]
      && forall j :: 0 <= j < advance - 1 ==> !Terminator(data, j)
    ensures Split(data, atEof) == if token.None? then More else Token(advance, token.value)
  {
    if atEof {
      if |data| == 0 {
        return 0, None;
      }
      return |data|, Some(data);
    }
    var inEscape := false;
    var inString := false;
    for i := 0 to |data|
      invariant inEscape == (Backslashes(data, i) % 2 == 1)
      invariant inString == (Quotes(data, i) % 2 == 1)
      invariant forall j :: 0 <= j < i ==> !Terminator(data, j)
    {
      var b := data[i];
      if inEscape {
        inEscape := false;
        continue;
      }
      if b == BACKSLASH {
        inEscape := true;
      } else if b == QUOTE {
        inString := !inString;
      } else if b == SEMICOLON && !inString {
        return i + 1, Some(data[..i]);
      }
    }
    return 0, None;
  }

  // ----- more data changes nothing already decided -----

  lemma {:induction false} BackslashesLocal(data: Bytes, more: Bytes, i: nat)
    requires i <= |data|
    ensures Backslashes(data + more, i) == Backslashes(data, i)
  {
    if i > 0 {
      BackslashesLocal(data, more, i - 1);
    }
  }

  lemma {:induction false} QuotesLocal(data: Bytes, more: Bytes, i: nat)
    requires i <= |data|
    ensures Quotes(data + more, i) == Quotes(data, i)
  {
    if i > 0 {
      QuotesLocal(data, more, i - 1);
      BackslashesLocal(data, more, i - 1);
    }
  }

  lemma TerminatorLocal(data: Bytes, more: Bytes, i: nat)
    requires i < |data|
    ensures Terminator(data + more, i) == Terminator(data, i)
  {
    BackslashesLocal(data, more, i);
    QuotesLocal(data, more, i);
  }

  lemma SplitStable(data: Bytes, more: Bytes)
    ensures Stable(Split, data, more)
  {
    var i, j := FindTerminator(data, 0), FindTerminator(data + more, 0);
    if i < |data| {
      TerminatorLocal(data, more, i);
      if j < i {
        TerminatorLocal(data, more, j);
      }
      assert (data + more)[..i] == data[..i];
    }
    if j < |data| {
      TerminatorLocal(data, more, j);
    }
  }

  lemma SplitWellBehaved()
    ensures WellBehaved(Split)
  {
    forall d: Bytes, more: Bytes ensures Stable(Split, d, more) {
      SplitStable(d, more);
    }
  }
}
