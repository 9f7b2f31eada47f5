/** Byte strings, and the few facts about sequences that more than one module needs. */
module Bytes {

  newtype byte = x: int | 0 <= x < 256

  type Bytes = seq<byte>

  datatype Option<+T> = None | Some(value: T)

  /** The bytes of a list of chunks, in order. */
  function Concat(chunks: seq<Bytes>): Bytes {
    if chunks == [] then [] else chunks[0] + Concat(chunks[1..])
  }

  lemma {:induction false} ConcatAppend(xs: seq<Bytes>, ys: seq<Bytes>)
    ensures Concat(xs + ys) == Concat(xs) + Concat(ys)
  {
    if xs == [] {
      assert xs + ys == ys;
    } else {
      assert (xs + ys)[1..] == xs[1..] + ys;
      ConcatAppend(xs[1..], ys);
    }
  }

  lemma ConcatSnoc(xs: seq<Bytes>, y: Bytes)
    ensures Concat(xs + [y]) == Concat(xs) + y
  {
    ConcatAppend(xs, [y]);
    assert Concat([y]) == y;
  }

  lemma PrefixTrans(a: Bytes, b: Bytes, c: Bytes)
    requires a <= b && b <= c
    ensures a <= c
  {
  }

  // ----- pruning a list -----

  /** The elements of `ws` whose flag is set, in order. */
  function Survivors<T>(ws: seq<T>, keep: seq<bool>): (r: seq<T>)
    requires |ws| == |keep|
  {
    if ws == [] then []
    else
      var n := |ws| - 1;
      Survivors(ws[..n], keep[..n]) + (if keep[n] then [ws[n]] else [])
  }

  /** Which of the offers of n bytes were taken whole. */
  function TookAll(took: seq<nat>, n: nat): (keep: seq<bool>)
    ensures |keep| == |took|
  {
    seq(|took|, j requires 0 <= j < |took| => took[j] == n)
  }

  predicate Distinct<T(==)>(xs: seq<T>) {
    forall i, j :: 0 <= i < j < |xs| ==> xs[i] != xs[j]
  }

  lemma {:induction false} SurvivorsInside<T>(ws: seq<T>, keep: seq<bool>)
    requires |ws| == |keep| && Distinct(ws)
    ensures Distinct(Survivors(ws, keep))
    ensures forall w :: w in Survivors(ws, keep) ==> w in ws
  {
    if ws != [] {
      var n := |ws| - 1;
      SurvivorsInside(ws[..n], keep[..n]);
      assert ws[n] !in ws[..n];
    }
  }

  /** Pruning keeps exactly the flagged elements. */
  lemma {:induction false} SurvivorsAreFlagged<T>(ws: seq<T>, keep: seq<bool>, j: nat)
    requires |ws| == |keep| && Distinct(ws) && j < |ws|
    ensures ws[j] in Survivors(ws, keep) <==> keep[j]
  {
    var n := |ws| - 1;
    SurvivorsInside(ws[..n], keep[..n]);
    if j < n {
      SurvivorsAreFlagged(ws[..n], keep[..n], j);
      assert ws[..n][j] == ws[j] && keep[..n][j] == keep[j];
      assert ws[j] != ws[n];
    } else {
      assert ws[n] !in ws[..n];
    }
  }
}
