/** The idempotent closers: `funcReadCloser.Close` and `funcWriteCloser.Close`. */
module Closers {

  /**
   A closer and the calls it makes. `attempts` is the history of its close function: one entry per
   invocation, true for success.
   */
  class FuncCloser {
    var closed: bool
    var attempts: seq<bool>

    constructor ()
      ensures !closed && attempts == [] && Valid()
    {
      closed, attempts := false, [];
    }

    /**
     The close function has failed every time but the last, and succeeded the last time exactly if the flag
     is set.
     */
    ghost predicate Valid()
      reads this
    {
      && (closed ==> attempts != [] && attempts[|attempts| - 1])
      && (forall i :: 0 <= i < |attempts| && attempts[i] ==> closed && i == |attempts| - 1)
    }

    /** `works` is what the close function will do if it is called: succeed, or return an error. */
    method Close(works: bool) returns (err: bool)
      requires Valid()
      modifies this
      ensures Valid()
      ensures closed == (old(closed) || works)
      ensures attempts == old(attempts) + (if old(closed) then [] else [works])
      ensures err == (!old(closed) && !works)
    {
      if closed {
        return false;
      }
      attempts := attempts + [works];
      if !works {
        return true;
      }
      closed := true;
      return false;
    }
  }

  /** The invocations of the close function over a list of calls: up to and including the first that works. */
  function UpToFirstSuccess(works: seq<bool>): seq<bool> {
    if works == [] || works[0] then works[..if works == [] then 0 else 1] else [false] + UpToFirstSuccess(works[1..])
  }

  lemma {:induction false} UpToFirstSuccessSnoc(works: seq<bool>, w: bool)
    ensures UpToFirstSuccess(works + [w]) ==
      if true in works then UpToFirstSuccess(works) else UpToFirstSuccess(works) + [w]
  {
    if works == [] {
      assert works + [w] == [w];
      assert [w][1..] == [];
    } else {
      assert (works + [w])[0] == works[0];
      assert (works + [w])[1..] == works[1..] + [w];
      UpToFirstSuccessSnoc(works[1..], w);
      assert works == [works[0]] + works[1..];
    }
  }

  /** What the list says, without recursion. */
  lemma {:induction false} UpToFirstSuccessIs(works: seq<bool>)
    ensures var r := UpToFirstSuccess(works);
      && r <= works
      && (forall i :: 0 <= i < |r| - 1 ==> !r[i])
      && ((r != [] && r[|r| - 1]) || (r == works && true !in works))
  {
    if works != [] && !works[0] {
      UpToFirstSuccessIs(works[1..]);
    }
  }

  /** Any number of `Close` calls runs the close function until it first succeeds and never again. */
  method CloseRepeatedly(works: seq<bool>) returns (attempts: seq<bool>, closed: bool)
    ensures attempts == UpToFirstSuccess(works)
    ensures closed == (true in works)
  {
    var c := new FuncCloser();
    for i := 0 to |works|
      invariant c.Valid() && fresh(c)
      invariant c.attempts == UpToFirstSuccess(works[..i])
      invariant c.closed == (true in works[..i])
    {
      assert works[..i + 1] == works[..i] + [works[i]];
      UpToFirstSuccessSnoc(works[..i], works[i]);
      var err := c.Close(works[i]);
    }
    assert works[..|works|] == works;
    return c.attempts, c.closed;
  }
}
