/**
 The fan-out as an object: the parts of `Write`, `Tee` and `Close` that run with the mutex held,
 with their loops. What other threads do while a call waits is passed in as parameters.
 */
module FanoutObject {
  import opened Bytes

  /** An `io.Pipe` as its writer sees it. */
  class Pipe {
    var received: Bytes
    var readerClosed: bool
    var writerClosed: bool

    constructor ()
      ensures received == [] && !readerClosed && !writerClosed
    {
      received, readerClosed, writerClosed := [], false, false;
    }

    predicate Accepts(p: Bytes, taken: nat)
      reads this
    {
      !readerClosed && !writerClosed && |p| <= taken
    }

    /** How much of `p` the pipe lets through. */
    function Took(p: Bytes, taken: nat): nat
      reads this
    {
      if readerClosed || writerClosed then 0 else if |p| <= taken then |p| else taken
    }

    /**
     The effect of offering `p` to a reader that takes `taken` bytes of it, or all of them if that is
     more than there are, and closes if it stops short. A pipe closed at either end takes nothing.
     */
    twostate predicate Offered(p: Bytes, taken: nat)
      reads this
    {
      && writerClosed == old(writerClosed)
      && (if old(readerClosed || writerClosed) then received == old(received) && readerClosed == old(readerClosed)
          else received == old(received) + (if |p| <= taken then p else p[..taken]) && readerClosed == (taken < |p|))
    }

    method Write(p: Bytes, taken: nat) returns (ok: bool)
      modifies this
      ensures ok == old(Accepts(p, taken))
      ensures Offered(p, taken)
    {
      if readerClosed || writerClosed {
        return false;
      }
      if taken < |p| {
        received := received + p[..taken];
        readerClosed := true;
        return false;
      }
      received := received + p;
      return true;
    }

    method Close()
      modifies this`writerClosed
      ensures writerClosed
    {
      writerClosed := true;
    }
  }

  class Fanout {
    var writers: seq<Pipe>
    var closed: bool

    constructor ()
      ensures writers == [] && !closed
    {
      writers, closed := [], false;
    }

    ghost predicate Valid()
      reads this
    {
      Distinct(writers)
    }

    /** Which of `ws` will take all of `p`. */
    static ghost function Accepting(ws: seq<Pipe>, p: Bytes, taken: seq<nat>): (keep: seq<bool>)
      requires |ws| == |taken|
      reads ws
      ensures |keep| == |ws|
      ensures forall j :: 0 <= j < |ws| ==> keep[j] == ws[j].Accepts(p, taken[j])
    {
      if ws == [] then []
      else
        var n := |ws| - 1;
        Accepting(ws[..n], p, taken[..n]) + [ws[n].Accepts(p, taken[n])]
    }

    /**
     `joined` are the pipes appended by `Tee` while an empty fan-out waits on its wake channel;
     `taken[j]` is what the reader of the j-th attached pipe takes of `p`.
     */
    method Write(p: Bytes, joined: seq<Pipe>, taken: seq<nat>) returns (n: nat, ok: bool)
      requires Valid() && Distinct(joined)
      requires |taken| == |if writers == [] then joined else writers|
      modifies this`writers, writers, joined
      ensures Valid() && ok == !closed
      ensures closed ==> n == 0 && writers == old(writers) && forall w :: w in old(writers) + joined ==> unchanged(w)
      ensures !closed ==> var ws := if old(writers) == [] then joined else old(writers);
        && n == |p|
        && writers == Survivors(ws, old(Accepting(ws, p, taken)))
        && (forall j :: 0 <= j < |ws| ==> ws[j].Offered(p, taken[j]))
        && (forall w :: w in joined && w !in ws ==> unchanged(w))
    {
      if closed {
        return 0, false;
      }
      var attached := if |writers| == 0 then joined else writers;
      SurvivorsInside(attached, Accepting(attached, p, taken));
      writers := Deliver(attached, p, taken);
      n, ok := |p|, true;
    }

    /** The rebuild loop of `Write`: offers `p` to each of `ws` in turn and collects those that took it. */
    static method Deliver(ws: seq<Pipe>, p: Bytes, taken: seq<nat>) returns (openWriters: seq<Pipe>)
      requires Distinct(ws) && |taken| == |ws|
      modifies ws
      ensures openWriters == Survivors(ws, old(Accepting(ws, p, taken)))
      ensures forall j :: 0 <= j < |ws| ==> ws[j].Offered(p, taken[j])
    {
      openWriters := [];
      var i := 0;
      ghost var keep := Accepting(ws, p, taken);
      while i < |ws|
        invariant 0 <= i <= |ws|
        invariant openWriters == Survivors(ws[..i], keep[..i])
        invariant forall j :: 0 <= j < i ==> ws[j].Offered(p, taken[j])
        invariant forall j :: i <= j < |ws| ==> unchanged(ws[j])
      {
        assert ws[..i + 1][..i] == ws[..i] && keep[..i + 1][..i] == keep[..i];
        var written := ws[i].Write(p, taken[i]);
        if written {
          openWriters := openWriters + [ws[i]];
        }
        i := i + 1;
      }
      assert ws[..i] == ws && keep[..i] == keep;
    }

    static ghost function Took(ws: seq<Pipe>, p: Bytes, taken: seq<nat>): (took: seq<nat>)
      requires |ws| == |taken|
      reads ws
      ensures |took| == |ws|
    {
      seq(|ws|, j requires 0 <= j < |ws| reads ws => ws[j].Took(p, taken[j]))
    }

    /**
     The outcome of `Write` in the terms of `FanoutTheorems.FinishPrunes`, which has it for the interleaved
     loop.
     */
    static twostate lemma WriteOutcome(ws: seq<Pipe>, p: Bytes, taken: seq<nat>)
      requires |ws| == |taken| && p != []
      requires forall j :: 0 <= j < |ws| ==> ws[j].Offered(p, taken[j])
      ensures old(Accepting(ws, p, taken)) == TookAll(old(Took(ws, p, taken)), |p|)
      ensures forall j :: 0 <= j < |ws| ==> var n := old(ws[j].Took(p, taken[j]));
        && n <= |p|
        && ws[j].received == old(ws[j].received) + p[..n]
        && (n < |p| ==> ws[j].readerClosed || ws[j].writerClosed)
    {
      forall j | 0 <= j < |ws| ensures ws[j].received == old(ws[j].received) + p[..old(ws[j].Took(p, taken[j]))] {
        assert ws[j].Offered(p, taken[j]);
        assert p[..|p|] == p && old(ws[j].received) + [] == old(ws[j].received);
      }
    }

    method Tee() returns (r: Pipe)
      requires Valid()
      modifies this`writers
      ensures Valid() && fresh(r) && writers == old(writers) + [r]
      ensures r.received == [] && !r.readerClosed && !r.writerClosed
    {
      r := new Pipe();
      writers := writers + [r];
    }

    method Close()
      modifies this`closed, writers
      ensures closed && writers == old(writers)
      ensures forall w :: w in writers ==>
        w.writerClosed && w.received == old(w.received) && w.readerClosed == old(w.readerClosed)
    {
      var i := 0;
      while i < |writers|
        invariant 0 <= i <= |writers| && writers == old(writers)
        invariant forall j :: 0 <= j < i ==> writers[j].writerClosed
        invariant forall w :: w in writers ==> w.received == old(w.received) && w.readerClosed == old(w.readerClosed)
      {
        writers[i].Close();
        i := i + 1;
      }
      closed := true;
    }
  }
}
