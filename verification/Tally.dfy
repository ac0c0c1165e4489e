/** Sums, bags and subsequences over sequences of thread states and histories. */
module Tally {

  function SumOf<T>(xs: seq<T>, weight: T -> nat): nat {
    if xs == [] then 0 else weight(xs[0]) + SumOf(xs[1..], weight)
  }

  lemma {:induction false} SumUpdate<T>(xs: seq<T>, i: nat, x: T, weight: T -> nat)
    requires i < |xs|
    ensures SumOf(xs[i := x], weight) + weight(xs[i]) == SumOf(xs, weight) + weight(x)
    decreases i
  {
    if i > 0 {
      assert xs[i := x][1..] == xs[1..][i - 1 := x];
      SumUpdate(xs[1..], i - 1, x, weight);
    } else {
      assert xs[i := x][1..] == xs[1..];
    }
  }

  lemma {:induction false} SumPointwise<T>(xs: seq<T>, ys: seq<T>, weight: T -> nat)
    requires |xs| == |ys|
    requires forall i :: 0 <= i < |xs| ==> weight(xs[i]) == weight(ys[i])
    ensures SumOf(xs, weight) == SumOf(ys, weight)
    decreases |xs|
  {
    if xs != [] {
      SumPointwise(xs[1..], ys[1..], weight);
    }
  }

  lemma {:induction false} SumBound<T>(xs: seq<T>, weight: T -> nat, bound: nat)
    requires forall i :: 0 <= i < |xs| ==> weight(xs[i]) <= bound
    ensures SumOf(xs, weight) <= bound * |xs|
    decreases |xs|
  {
    if xs != [] {
      SumBound(xs[1..], weight, bound);
    }
  }

  function BagOf<T, R>(xs: seq<T>, held: T -> multiset<R>): multiset<R> {
    if xs == [] then multiset{} else held(xs[0]) + BagOf(xs[1..], held)
  }

  lemma {:induction false} BagUpdate<T, R>(xs: seq<T>, i: nat, x: T, held: T -> multiset<R>)
    requires i < |xs|
    ensures BagOf(xs[i := x], held) + held(xs[i]) == BagOf(xs, held) + held(x)
    decreases i
  {
    if i > 0 {
      assert xs[i := x][1..] == xs[1..][i - 1 := x];
      BagUpdate(xs[1..], i - 1, x, held);
      var updated, rest, first := BagOf(xs[1..][i - 1 := x], held), BagOf(xs[1..], held), held(xs[0]);
      assert (first + updated) + held(xs[i]) == first + (updated + held(xs[i]));
      assert first + (rest + held(x)) == (first + rest) + held(x);
    } else {
      assert xs[i := x][1..] == xs[1..];
    }
  }

  lemma {:induction false} BagPointwise<T, R>(xs: seq<T>, ys: seq<T>, held: T -> multiset<R>)
    requires |xs| == |ys|
    requires forall i :: 0 <= i < |xs| ==> held(xs[i]) == held(ys[i])
    ensures BagOf(xs, held) == BagOf(ys, held)
    decreases |xs|
  {
    if xs != [] {
      BagPointwise(xs[1..], ys[1..], held);
    }
  }

  lemma {:induction false} BagEmpty<T, R>(xs: seq<T>, held: T -> multiset<R>)
    requires forall i :: 0 <= i < |xs| ==> held(xs[i]) == multiset{}
    ensures BagOf(xs, held) == multiset{}
    decreases |xs|
  {
    if xs != [] {
      BagEmpty(xs[1..], held);
    }
  }

  // ---------------------------------------------------------------- subsequences

  /** xs can be obtained from ys by deleting elements. */
  predicate Subsequence<T(==)>(xs: seq<T>, ys: seq<T>) {
    if xs == [] then true
    else if ys == [] then false
    else if xs[|xs| - 1] == ys[|ys| - 1] && Subsequence(xs[..|xs| - 1], ys[..|ys| - 1]) then true
    else Subsequence(xs, ys[..|ys| - 1])
  }

  lemma {:induction false} SubsequenceRefl<T>(xs: seq<T>)
    ensures Subsequence(xs, xs)
    decreases |xs|
  {
    if xs != [] {
      SubsequenceRefl(xs[..|xs| - 1]);
    }
  }

  lemma SubsequenceSkip<T>(xs: seq<T>, ys: seq<T>, y: T)
    requires Subsequence(xs, ys)
    ensures Subsequence(xs, ys + [y])
  {
    assert (ys + [y])[..|ys|] == ys;
  }

  lemma SubsequenceKeep<T>(xs: seq<T>, ys: seq<T>, z: T)
    requires Subsequence(xs, ys)
    ensures Subsequence(xs + [z], ys + [z])
  {
    assert (ys + [z])[..|ys|] == ys && (xs + [z])[..|xs|] == xs;
  }

  lemma {:induction false} SubsequenceTrans<T>(xs: seq<T>, ys: seq<T>, zs: seq<T>)
    requires Subsequence(xs, ys) && Subsequence(ys, zs)
    ensures Subsequence(xs, zs)
    decreases |ys| + |zs|
  {
    if xs != [] {
      var x0, y0, z0 := xs[..|xs| - 1], ys[..|ys| - 1], zs[..|zs| - 1];
      if ys[|ys| - 1] == zs[|zs| - 1] && Subsequence(y0, z0) {
        if xs[|xs| - 1] == ys[|ys| - 1] && Subsequence(x0, y0) {
          SubsequenceTrans(x0, y0, z0);
        } else {
          SubsequenceTrans(xs, y0, z0);
        }
      } else {
        SubsequenceTrans(xs, ys, z0);
      }
    }
  }

  /** Deleting one element from the middle. */
  lemma {:induction false} SubsequenceDelete<T>(before: seq<T>, x: T, after: seq<T>)
    ensures Subsequence(before + after, before + [x] + after)
    decreases |after|
  {
    if after == [] {
      SubsequenceRefl(before);
      SubsequenceSkip(before, before, x);
      assert before + after == before && before + [x] + after == before + [x];
    } else {
      var rest, last := after[..|after| - 1], after[|after| - 1];
      SubsequenceDelete(before, x, rest);
      SubsequenceKeep(before + rest, before + [x] + rest, last);
      assert before + rest + [last] == before + after;
      assert before + [x] + rest + [last] == before + [x] + after;
    }
  }

  lemma {:induction false} PrefixIsSubsequence<T>(xs: seq<T>, ys: seq<T>)
    requires xs <= ys
    ensures Subsequence(xs, ys)
    decreases |ys|
  {
    if |xs| == |ys| {
      assert xs == ys;
      SubsequenceRefl(xs);
    } else {
      PrefixIsSubsequence(xs, ys[..|ys| - 1]);
    }
  }
}
