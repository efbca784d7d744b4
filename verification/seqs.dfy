/** Concatenating the images of a sequence's elements. */
module Seqs {

  function FlatMap<A, B>(xs: seq<A>, f: A -> seq<B>): seq<B> {
    if xs == [] then [] else f(xs[0]) + FlatMap(xs[1..], f)
  }

  lemma FlatMapOne<A, B>(x: A, f: A -> seq<B>)
    ensures FlatMap([x], f) == f(x)
  {
    assert [x][1..] == [];
  }

  lemma {:induction false} FlatMapAppend<A, B>(xs: seq<A>, ys: seq<A>, f: A -> seq<B>)
    ensures FlatMap(xs + ys, f) == FlatMap(xs, f) + FlatMap(ys, f)
    decreases |xs|
  {
    if xs == [] {
      assert xs + ys == ys;
    } else {
      assert (xs + ys)[1..] == xs[1..] + ys;
      FlatMapAppend(xs[1..], ys, f);
    }
  }

  /** Projecting a flattened sequence is flattening the projections. */
  lemma {:induction false} FlatMapCompose<A, B, C>(xs: seq<A>, f: A -> seq<B>, g: B -> seq<C>, h: A -> seq<C>)
    requires forall x :: h(x) == FlatMap(f(x), g)
    ensures FlatMap(FlatMap(xs, f), g) == FlatMap(xs, h)
    decreases |xs|
  {
    if xs != [] {
      FlatMapAppend(f(xs[0]), FlatMap(xs[1..], f), g);
      FlatMapCompose(xs[1..], f, g, h);
    }
  }

  /** Flattening one-element images lists those elements. */
  lemma {:induction false} FlatMapSingletons<A, B>(xs: seq<A>, f: A -> seq<B>, ys: seq<B>)
    requires |ys| == |xs| && forall i :: 0 <= i < |xs| ==> f(xs[i]) == [ys[i]]
    ensures FlatMap(xs, f) == ys
    decreases |xs|
  {
    if xs != [] {
      FlatMapSingletons(xs[1..], f, ys[1..]);
    }
  }

  /** Two sequences whose elements have the same images, pairwise, flatten alike. */
  lemma {:induction false} FlatMapPointwise<A, B, C>(xs: seq<A>, f: A -> seq<C>, ys: seq<B>, g: B -> seq<C>)
    requires |ys| == |xs| && forall i :: 0 <= i < |xs| ==> f(xs[i]) == g(ys[i])
    ensures FlatMap(xs, f) == FlatMap(ys, g)
    decreases |xs|
  {
    if xs != [] {
      FlatMapPointwise(xs[1..], f, ys[1..], g);
    }
  }

}
