/**
 The `bufio.Scanner` loop over an arbitrary split function.

 Library behaviour taken as given: the scanner calls split on its unread buffer, advances over a
 token, otherwise fails if the buffer has reached the limit, otherwise reads between one byte and
 as many as fit; end of input, or a reader closed under it, arrives as a read of no bytes, after
 which split is called with `atEOF` set.
 */
module Scanning {
  import opened Bytes

  datatype SplitResult = More | Token(advance: nat, token: Bytes)

  type SplitFunc = (Bytes, bool) -> SplitResult

  /** More data does not change a token already found, and a token needs no data beyond its advance. */
  ghost predicate Stable(split: SplitFunc, d: Bytes, more: Bytes) {
    && (split(d, false).Token? ==> split(d + more, false) == split(d, false))
    && (split(d + more, false).Token? && split(d + more, false).advance <= |d| ==>
          split(d, false) == split(d + more, false))
  }

  /** Off EOF every token advances, and more data changes nothing already decided. */
  ghost predicate Incremental(split: SplitFunc) {
    && (forall d :: split(d, false).Token? ==> 1 <= split(d, false).advance <= |d|)
    && (forall d, more :: Stable(split, d, more))
  }

  /** At EOF, data without a token is one last token, or nothing if there is none. */
  ghost predicate TakesRestAtEof(split: SplitFunc) {
    forall d :: split(d, false).More? ==>
      if d == [] then split(d, true).More? else split(d, true).Token? && split(d, true).advance == |d|
  }

  ghost predicate WellBehaved(split: SplitFunc) {
    Incremental(split) && TakesRestAtEof(split)
  }

  datatype Outcome = Outcome(tokens: seq<Bytes>, tooLong: bool)

  function Prepend(token: Bytes, o: Outcome): Outcome {
    Outcome([token] + o.tokens, o.tooLong)
  }

  /** What scanning yields, with no mention of how the input was divided into reads. */
  ghost function Tokens(split: SplitFunc, input: Bytes, limit: nat): Outcome
    requires WellBehaved(split)
    decreases |input|
  {
    match split(input, false)
    case Token(advance, token) =>
      if advance <= limit then Prepend(token, Tokens(split, input[advance..], limit)) else Outcome([], true)
    case More =>
      if limit <= |input| then Outcome([], true)
      else if input == [] then Outcome([], false)
      else Outcome([split(input, true).token], false)
  }

  // ----- tokens that fit the buffer -----

  predicate Fits(tokens: seq<Bytes>, limit: nat) {
    forall t :: t in tokens ==> |t| < limit
  }

  /** The tokens before the first that does not fit. */
  function FirstFitting(tokens: seq<Bytes>, limit: nat): seq<Bytes> {
    if tokens == [] || limit <= |tokens[0]| then [] else [tokens[0]] + FirstFitting(tokens[1..], limit)
  }

  lemma FirstFittingCons(token: Bytes, tokens: seq<Bytes>, limit: nat)
    ensures Fits([token] + tokens, limit) == (|token| < limit && Fits(tokens, limit))
    ensures FirstFitting([token] + tokens, limit) ==
      if limit <= |token| then [] else [token] + FirstFitting(tokens, limit)
  {
  }

  /** They are a first part of all tokens, followed by one that does not fit unless they are all. */
  lemma {:induction false} FirstFittingIsAll(tokens: seq<Bytes>, limit: nat)
    ensures FirstFitting(tokens, limit) == tokens <==> Fits(tokens, limit)
    ensures FirstFitting(tokens, limit) <= tokens && Fits(FirstFitting(tokens, limit), limit)
    ensures var n := |FirstFitting(tokens, limit)|; n < |tokens| ==> limit <= |tokens[n]|
  {
    if tokens != [] {
      FirstFittingIsAll(tokens[1..], limit);
      FirstFittingCons(tokens[0], tokens[1..], limit);
      assert tokens == [tokens[0]] + tokens[1..];
      if |tokens[0]| < limit {
        var rest := FirstFitting(tokens[1..], limit);
        FirstFittingCons(tokens[0], rest, limit);
        assert FirstFitting(tokens, limit)[1..] == rest;
      }
    }
  }

  // ----- the scanner -----

  /** A full buffer without a token can only end in `ErrTooLong`, whatever follows. */
  lemma FullBufferIsTooLong(split: SplitFunc, buf: Bytes, rest: Bytes, limit: nat)
    requires WellBehaved(split) && split(buf, false).More? && limit <= |buf|
    ensures Tokens(split, buf + rest, limit) == Outcome([], true)
  {
    assert Stable(split, buf, rest);
  }

  lemma NothingLeft(split: SplitFunc, limit: nat)
    requires WellBehaved(split) && 0 < limit
    ensures split([], false).More? && Tokens(split, [], limit) == Outcome([], false)
  {
  }

  /** A token found in the buffer is the next token of the input, whatever is still to be read. */
  lemma TokenFound(split: SplitFunc, buf: Bytes, unread: Bytes, eof: bool, limit: nat)
    requires WellBehaved(split) && |buf| <= limit && split(buf, eof).Token?
    requires eof ==> unread == [] && |buf| < limit && split(buf, false).More?
    ensures 1 <= split(buf, eof).advance <= |buf| && (eof ==> split(buf, eof).advance == |buf|)
    ensures Tokens(split, buf + unread, limit) ==
      Prepend(split(buf, eof).token, Tokens(split, buf[split(buf, eof).advance..] + unread, limit))
  {
    var advance := split(buf, eof).advance;
    if eof {
      assert buf + unread == buf && buf[advance..] + unread == [];
      NothingLeft(split, limit);
    } else {
      assert Stable(split, buf, unread);
      assert (buf + unread)[advance..] == buf[advance..] + unread;
    }
  }

  /** A smaller limit can only cut the scan short. */
  lemma {:induction false} LimitOnlyTruncates(split: SplitFunc, input: Bytes, limit: nat, larger: nat)
    requires WellBehaved(split) && limit <= larger
    ensures Tokens(split, input, limit).tokens <= Tokens(split, input, larger).tokens
    ensures !Tokens(split, input, limit).tooLong ==> Tokens(split, input, limit) == Tokens(split, input, larger)
    decreases |input|
  {
    if split(input, false).Token? {
      LimitOnlyTruncates(split, input[split(input, false).advance..], limit, larger);
    }
  }

  function Onto(tokens: seq<Bytes>, o: Outcome): Outcome {
    Outcome(tokens + o.tokens, o.tooLong)
  }

  lemma OntoPrepend(tokens: seq<Bytes>, token: Bytes, o: Outcome)
    ensures Onto(tokens, Prepend(token, o)) == Onto(tokens + [token], o)
  {
  }

  class Scanner {
    const split: SplitFunc
    const limit: nat
    const sizes: nat -> nat     // how much each read asks to deliver
    var unread: Bytes           // what the reader has yet to deliver
    var readCount: nat
    var buf: Bytes
    var eof: bool
    var tooLong: bool

    constructor (split: SplitFunc, input: Bytes, limit: nat, sizes: nat -> nat)
      ensures this.split == split && this.limit == limit && this.sizes == sizes
      ensures unread == input && buf == [] && !eof && !tooLong
    {
      this.split, this.limit, this.sizes := split, limit, sizes;
      unread, readCount, buf, eof, tooLong := input, 0, [], false, false;
    }

    ghost predicate Valid()
      reads this
    {
      WellBehaved(split) && |buf| <= limit && (eof ==> unread == [] && |buf| < limit)
    }

    /** One read: any number of bytes from one to what is left or fits, or EOF. */
    method Read()
      requires Valid() && !eof && |buf| < limit
      modifies this`unread, this`readCount, this`buf, this`eof
      ensures Valid() && buf + unread == old(buf + unread)
      ensures eof == (old(unread) == [])
      ensures !eof ==> |unread| < |old(unread)|
      ensures eof ==> buf == old(buf)
    {
      if |unread| == 0 {
        eof := true;
        return;
      }
      var room := if |unread| <= limit - |buf| then |unread| else limit - |buf|;
      var n := 1 + sizes(readCount) % room;
      readCount := readCount + 1;
      assert buf + unread == (buf + unread[..n]) + unread[n..];
      buf, unread := buf + unread[..n], unread[n..];
    }

    /**
     One `Scan`. Between calls the buffer and the reader together hold the input not yet consumed.
     `atEof` is the buffer of the last call of split with `atEOF` set, if there was one.
     */
    method Scan() returns (ok: bool, token: Bytes, ghost atEof: Option<Bytes>)
      requires Valid() && !tooLong && (eof ==> buf == [])
      modifies this
      ensures Valid() && (eof ==> buf == [])
      ensures ok ==> !tooLong
      ensures ok ==>
        Tokens(split, old(buf + unread), limit) == Prepend(token, Tokens(split, buf + unread, limit))
      ensures ok ==> |buf + unread| < |old(buf + unread)|
      ensures !ok ==> Tokens(split, old(buf + unread), limit) == Outcome([], tooLong)
      ensures atEof.Some? ==> split(atEof.value, false).More?
    {
      ghost var input := buf + unread;
      token, atEof := [], None;
      while true
        invariant Valid() && !tooLong && buf + unread == input
        invariant eof ==> split(buf, false).More?
        invariant atEof.Some? ==> split(atEof.value, false).More?
        decreases |unread|, !eof
      {
        if |buf| > 0 || eof {
          if eof {
            atEof := Some(buf);
          }
          match split(buf, eof)
          case Token(advance, t) =>
            TokenFound(split, buf, unread, eof, limit);
            buf := buf[advance..];
            return true, t, atEof;
          case More =>
        }
        if eof {
          assert buf == [] && unread == [];
          return false, [], atEof;
        }
        assert split(buf, false).More?;
        if limit <= |buf| {
          tooLong := true;
          FullBufferIsTooLong(split, buf, unread, limit);
          return false, [], atEof;
        }
        Read();
      }
    }
  }

  /** `for scanner.Scan()`: the tokens and whether the scan ended in `ErrTooLong`. */
  method ScanAll(split: SplitFunc, input: Bytes, limit: nat, sizes: nat -> nat) returns (o: Outcome)
    requires WellBehaved(split) && 0 < limit
    ensures o == Tokens(split, input, limit)
  {
    var scanner := new Scanner(split, input, limit, sizes);
    var tokens: seq<Bytes> := [];
    var ok, token := true, [];
    assert scanner.buf + scanner.unread == input;
    while ok
      invariant scanner.Valid() && (scanner.eof ==> scanner.buf == []) && (ok ==> !scanner.tooLong)
      invariant scanner.split == split && scanner.limit == limit && fresh(scanner)
      invariant ok ==> Tokens(split, input, limit) == Onto(tokens, Tokens(split, scanner.buf + scanner.unread, limit))
      invariant !ok ==> Tokens(split, input, limit) == Outcome(tokens, scanner.tooLong)
      decreases ok, |scanner.buf + scanner.unread|
    {
      ghost var before := scanner.buf + scanner.unread;
      ghost var atEof;
      ok, token, atEof := scanner.Scan();
      if ok {
        OntoPrepend(tokens, token, Tokens(split, scanner.buf + scanner.unread, limit));
        tokens := tokens + [token];
      } else {
        assert Onto(tokens, Outcome([], scanner.tooLong)) == Outcome(tokens, scanner.tooLong);
      }
    }
    return Outcome(tokens, scanner.tooLong);
  }
}
