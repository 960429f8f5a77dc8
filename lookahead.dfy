/**
 * The `lookahead` generator: every element of a non-empty sequence,
 * paired with whether more elements follow it.
 */
module Generators {
  import opened Wrappers

  /**
   * The RuntimeError a generator raises when its first `next` meets an
   * empty iterable (the StopIteration is converted on leaving the generator).
   */
  datatype LookaheadError = EmptyIterable

  /** The pairs `lookahead` yields: each element with whether another one follows it. */
  function Flagged<T>(xs: seq<T>): (pairs: seq<(T, bool)>)
    ensures |pairs| == |xs|
    decreases |xs|
  {
    if xs == [] then []
    else if |xs| == 1 then [(xs[0], false)]
    else [(xs[0], true)] + Flagged(xs[1..])
  }

  /** Same elements in the same order; the flag is false for the last element only. */
  lemma {:induction false} FlaggedAt<T>(xs: seq<T>, i: nat)
    requires i < |xs|
    ensures Flagged(xs)[i] == (xs[i], i < |xs| - 1)
    decreases |xs|
  {
    if |xs| > 1 && i > 0 {
      FlaggedAt(xs[1..], i - 1);
    }
  }

  /**
   * The generator run to exhaustion: it reports the element held back in
   * `last` as soon as another one arrives, and the held-back one at the end.
   */
  method Lookahead<T>(xs: seq<T>) returns (r: Result<seq<(T, bool)>, LookaheadError>)
    ensures xs == [] <==> r.Err?
    ensures r.Ok? ==> |r.value| == |xs|
    ensures r.Ok? ==> forall i :: 0 <= i < |xs| ==> r.value[i] == (xs[i], i < |xs| - 1)
    ensures r.Ok? ==> r.value == Flagged(xs)
  {
    if xs == [] {
      return Err(EmptyIterable);
    }
    var last := xs[0];
    var pairs := [];
    var i := 1;
    while i < |xs|
      invariant 1 <= i <= |xs|
      invariant last == xs[i - 1]
      invariant |pairs| == i - 1
      invariant forall j :: 0 <= j < i - 1 ==> pairs[j] == (xs[j], true)
    {
      pairs := pairs + [(last, true)];
      last := xs[i];
      i := i + 1;
    }
    pairs := pairs + [(last, false)];
    forall j | 0 <= j < |xs| ensures pairs[j] == Flagged(xs)[j] {
      FlaggedAt(xs, j);
    }
    r := Ok(pairs);
  }
}
