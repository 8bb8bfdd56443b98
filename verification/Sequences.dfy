/** Flattening of nested sequences, shared by every component. */
module Sequences {

  function Concat<T>(parts: seq<seq<T>>): seq<T> {
    if parts == [] then [] else parts[0] + Concat(parts[1..])
  }

  lemma {:induction false} ConcatAdd<T>(a: seq<seq<T>>, b: seq<seq<T>>)
    ensures Concat(a + b) == Concat(a) + Concat(b)
  {
    if a == [] {
      assert a + b == b;
    } else {
      var rest := a[1..];
      assert (a + b)[0] == a[0] && (a + b)[1..] == rest + b;
      ConcatAdd(rest, b);
      Associative(a[0], Concat(rest), Concat(b));
    }
  }

  lemma Associative<T>(x: seq<T>, y: seq<T>, z: seq<T>)
    ensures x + (y + z) == (x + y) + z
  {
  }

  lemma ConcatSnoc<T>(a: seq<seq<T>>, x: seq<T>)
    ensures Concat(a + [x]) == Concat(a) + x
  {
    ConcatAdd(a, [x]);
    assert Concat([x]) == x + Concat<T>([]);
  }

  /** Taking one more part extends the flattened prefix by exactly that part. */
  lemma ConcatStep<T>(a: seq<seq<T>>, i: nat)
    requires i < |a|
    ensures Concat(a[..i + 1]) == Concat(a[..i]) + a[i]
    ensures Concat(a[i..]) == a[i] + Concat(a[i + 1..])
  {
    assert a[..i + 1] == a[..i] + [a[i]];
    ConcatSnoc(a[..i], a[i]);
    assert a[i..][1..] == a[i + 1..];
  }

  /** Runs a step machine over a sequence of inputs, oldest first. */
  function Fold<S, A>(f: (S, A) -> S, s: S, xs: seq<A>): S {
    if xs == [] then s else f(Fold(f, s, xs[..|xs| - 1]), xs[|xs| - 1])
  }

  lemma FoldSnoc<S, A>(f: (S, A) -> S, s: S, xs: seq<A>, x: A)
    ensures Fold(f, s, xs + [x]) == f(Fold(f, s, xs), x)
  {
    assert (xs + [x])[..|xs|] == xs;
  }

  /** A run can be cut anywhere: the second part starts where the first one ended. */
  lemma {:induction false} FoldSplit<S, A>(f: (S, A) -> S, s: S, first: seq<A>, second: seq<A>)
    ensures Fold(f, s, first + second) == Fold(f, Fold(f, s, first), second)
  {
    if second == [] {
      assert first + second == first;
    } else {
      var n := |second| - 1;
      FoldSplit(f, s, first, second[..n]);
      FoldSnoc(f, s, first + second[..n], second[n]);
      assert first + second[..n] + [second[n]] == first + second;
    }
  }
}
