/**
  The array combinators the script relies on (`map`, `reduce`, filtering while
  mapping), as functions on sequences, with the algebra the other modules use.
 */
module Seqs {
  import opened Wrappers

  /** `xs.map(f)`. */
  function Map<A, B>(xs: seq<A>, f: A -> B): (ys: seq<B>)
    ensures |ys| == |xs|
    ensures forall i :: 0 <= i < |xs| ==> ys[i] == f(xs[i])
  {
    if xs == [] then [] else [f(xs[0])] + Map(xs[1..], f)
  }

  lemma MapAppend<A, B>(a: seq<A>, b: seq<A>, f: A -> B)
    ensures Map(a + b, f) == Map(a, f) + Map(b, f)
  {
    assert forall i :: 0 <= i < |a + b| ==> Map(a + b, f)[i] == (Map(a, f) + Map(b, f))[i];
  }

  /** Keep the `Some` results of `f`, in order: a loop that pushes only accepted values. */
  function FilterMap<A, B>(xs: seq<A>, f: A -> Option<B>): (ys: seq<B>)
    ensures |ys| <= |xs|
  {
    if xs == [] then []
    else
      var rest := FilterMap(xs[1..], f);
      match f(xs[0])
      case Some(y) => [y] + rest
      case None => rest
  }

  /** Mapping a prefix one element longer. */
  lemma MapSnoc<A, B>(xs: seq<A>, i: nat, f: A -> B)
    requires i < |xs|
    ensures Map(xs[..i + 1], f) == Map(xs[..i], f) + [f(xs[i])]
  {
    assert xs[..i + 1] == xs[..i] + [xs[i]];
    MapAppend(xs[..i], [xs[i]], f);
  }

  lemma {:induction false} FilterMapAppend<A, B>(a: seq<A>, b: seq<A>, f: A -> Option<B>)
    ensures FilterMap(a + b, f) == FilterMap(a, f) + FilterMap(b, f)
  {
    if a == [] {
      assert a + b == b;
    } else {
      assert (a + b)[1..] == a[1..] + b;
      FilterMapAppend(a[1..], b, f);
    }
  }

  /** A filter that accepts every element unchanged is the identity. */
  lemma {:induction false} FilterMapAllSome<A>(xs: seq<A>, f: A -> Option<A>)
    requires forall x :: x in xs ==> f(x) == Some(x)
    ensures FilterMap(xs, f) == xs
  {
    if xs != [] {
      assert xs[0] in xs;
      FilterMapAllSome(xs[1..], f);
    }
  }

  lemma AppendAssoc<T>(a: seq<T>, b: seq<T>, c: seq<T>)
    ensures (a + b) + c == a + (b + c)
  {
  }

  /** A filter that accepts every element, as its image under `g`, is the map of `g`. */
  lemma {:induction false} FilterMapAllMapped<A, B>(xs: seq<A>, f: A -> Option<B>, g: A -> B)
    requires forall x :: x in xs ==> f(x) == Some(g(x))
    ensures FilterMap(xs, f) == Map(xs, g)
  {
    if xs != [] {
      assert xs[0] in xs;
      FilterMapAllMapped(xs[1..], f, g);
    }
  }

  /** A suffix of a concatenation that starts inside the first part. */
  lemma SliceOfAppend<T>(a: seq<T>, b: seq<T>, i: nat)
    requires i <= |a|
    ensures (a + b)[i..] == a[i..] + b
  {
  }

  /** A slice grown by one element at its end. */
  lemma SliceSnoc<T>(s: seq<T>, i: nat, j: nat)
    requires i <= j < |s|
    ensures s[i..j + 1] == s[i..j] + [s[j]]
  {
  }

  /** Filtering one more element: the loop step of a pushing loop. */
  lemma FilterMapSnoc<A, B>(xs: seq<A>, x: A, f: A -> Option<B>)
    ensures FilterMap(xs + [x], f) == FilterMap(xs, f) + (match f(x) case Some(y) => [y] case None => [])
  {
    FilterMapAppend(xs, [x], f);
    assert [x][1..] == [];
  }

  /** Filtering the images of `g` under `f` is filtering with the composite `h`. */
  lemma {:induction false} FilterMapOfMap<A, B, C>(xs: seq<A>, g: A -> B, f: B -> Option<C>, h: A -> Option<C>)
    requires forall x :: x in xs ==> f(g(x)) == h(x)
    ensures FilterMap(Map(xs, g), f) == FilterMap(xs, h)
  {
    if xs != [] {
      assert Map(xs, g)[1..] == Map(xs[1..], g);
      assert forall x :: x in xs[1..] ==> x in xs;
      FilterMapOfMap(xs[1..], g, f, h);
    }
  }

  /** When `f` rejects the image of every element, nothing is kept. */
  lemma {:induction false} FilterMapOfMapRejected<A, B, C>(xs: seq<A>, g: A -> B, f: B -> Option<C>)
    requires forall x :: x in xs ==> f(g(x)).None?
    ensures FilterMap(Map(xs, g), f) == []
  {
    if xs != [] {
      assert Map(xs, g)[1..] == Map(xs[1..], g);
      assert forall x :: x in xs[1..] ==> x in xs;
      FilterMapOfMapRejected(xs[1..], g, f);
    }
  }

  /** `xs.reduce((total, x) => total + f(x), 0)`: a left fold, as `reduce` runs. */
  function SumOf<T>(xs: seq<T>, f: T -> int): int
  {
    if xs == [] then 0 else SumOf(xs[..|xs| - 1], f) + f(xs[|xs| - 1])
  }

  lemma {:induction false} SumOfAppend<T>(a: seq<T>, b: seq<T>, f: T -> int)
    ensures SumOf(a + b, f) == SumOf(a, f) + SumOf(b, f)
  {
    if b == [] {
      assert a + b == a;
    } else {
      assert (a + b)[..|a + b| - 1] == a + b[..|b| - 1];
      SumOfAppend(a, b[..|b| - 1], f);
    }
  }

  lemma SumOfSingle<T>(x: T, f: T -> int)
    ensures SumOf([x], f) == f(x)
  {
    assert [x][..0] == [];
  }

  /** Dropping the middle part `x` of a sum takes its sum away. */
  lemma SumOfDrop<T>(a: seq<T>, x: seq<T>, b: seq<T>, f: T -> int)
    ensures SumOf(a + b, f) == SumOf(a + x + b, f) - SumOf(x, f)
  {
    SumOfAppend(a + x, b, f);
    SumOfAppend(a, x, f);
    SumOfAppend(a, b, f);
  }

  /** Swapping the middle part `x` of a sum for `y` changes the sum by their difference. */
  lemma SumOfSplice<T>(a: seq<T>, x: seq<T>, y: seq<T>, b: seq<T>, f: T -> int)
    ensures SumOf(a + y + b, f) == SumOf(a + x + b, f) - SumOf(x, f) + SumOf(y, f)
  {
    SumOfAppend(a + x, b, f);
    SumOfAppend(a, x, f);
    SumOfAppend(a + y, b, f);
    SumOfAppend(a, y, f);
  }

  /** Summing the pointwise difference of two summands is the difference of the sums. */
  lemma {:induction false} SumOfDifference<T>(xs: seq<T>, f: T -> int, g: T -> int, h: T -> int)
    requires forall x :: x in xs ==> h(x) == f(x) - g(x)
    ensures SumOf(xs, h) == SumOf(xs, f) - SumOf(xs, g)
  {
    if xs != [] {
      assert forall x :: x in xs[..|xs| - 1] ==> x in xs;
      SumOfDifference(xs[..|xs| - 1], f, g, h);
    }
  }

  /** `a` is obtained from `b` by deleting elements, keeping the rest in order. */
  predicate IsSubsequence<T(==)>(a: seq<T>, b: seq<T>)
    decreases |b|
  {
    a == [] || (b != [] && ((a[0] == b[0] && IsSubsequence(a[1..], b[1..])) || IsSubsequence(a, b[1..])))
  }
}
