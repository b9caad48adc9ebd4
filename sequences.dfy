/** The two list-building loops of the converter, independent of what they build:
    numbering items from 1 (`enumerate(xs, 1)`) and extending a list part by part. */
module Sequences {

  /** `[f(x, n) for n, x in enumerate(xs, 1)]`. */
  function Numbered<T, U>(xs: seq<T>, f: (T, nat) -> U): seq<U> {
    if xs == [] then [] else Numbered(xs[..|xs| - 1], f) + [f(xs[|xs| - 1], |xs|)]
  }

  /** One result per item. */
  lemma {:induction false} NumberedLength<T, U>(xs: seq<T>, f: (T, nat) -> U)
    ensures |Numbered(xs, f)| == |xs|
  {
    if xs != [] {
      NumberedLength(xs[..|xs| - 1], f);
    }
  }

  /** The item at index `i` is given the number `i + 1`. */
  lemma {:induction false} NumberedAt<T, U>(xs: seq<T>, f: (T, nat) -> U, i: nat)
    requires i < |xs|
    ensures |Numbered(xs, f)| == |xs| && Numbered(xs, f)[i] == f(xs[i], i + 1)
  {
    var q := |xs| - 1;
    NumberedLength(xs[..q], f);
    if i < q {
      NumberedAt(xs[..q], f, i);
    }
  }

  /** Numbering one more item adds its result at the end. */
  lemma NumberedSnoc<T, U>(xs: seq<T>, f: (T, nat) -> U, i: nat)
    requires i < |xs|
    ensures Numbered(xs[..i + 1], f) == Numbered(xs[..i], f) + [f(xs[i], i + 1)]
  {
    assert xs[..i + 1][..i] == xs[..i];
  }

  /** The parts `f(x)` of the items, one after the other: a list extended item by item. */
  function Flatten<T, U>(xs: seq<T>, f: T -> seq<U>): seq<U> {
    if xs == [] then [] else Flatten(xs[..|xs| - 1], f) + f(xs[|xs| - 1])
  }

  /** No items give nothing, and one item gives its part. */
  lemma FlattenOne<T, U>(xs: seq<T>, f: T -> seq<U>)
    ensures xs == [] ==> Flatten(xs, f) == []
    ensures |xs| == 1 ==> Flatten(xs, f) == f(xs[0])
  {
    if |xs| == 1 {
      assert xs[..0] == [];
    }
  }

  /** Extending by one more item adds its part at the end. */
  lemma FlattenSnoc<T, U>(xs: seq<T>, f: T -> seq<U>, i: nat)
    requires i < |xs|
    ensures Flatten(xs[..i + 1], f) == Flatten(xs[..i], f) + f(xs[i])
  {
    assert xs[..i + 1][..i] == xs[..i];
  }

  /** The parts of a run of items are the parts of its pieces, in order. */
  lemma {:induction false} FlattenAppend<T, U>(xs: seq<T>, ys: seq<T>, f: T -> seq<U>)
    ensures Flatten(xs + ys, f) == Flatten(xs, f) + Flatten(ys, f)
  {
    if ys == [] {
      assert xs + ys == xs;
    } else {
      var q := |ys| - 1;
      assert (xs + ys)[..|xs + ys| - 1] == xs + ys[..q];
      assert (xs + ys)[|xs + ys| - 1] == ys[q];
      FlattenAppend(xs, ys[..q], f);
    }
  }

  /** Something is in the result exactly when it is in the part of some item. */
  lemma {:induction false} FlattenMember<T, U>(xs: seq<T>, f: T -> seq<U>, y: U)
    ensures y in Flatten(xs, f) <==> exists i :: 0 <= i < |xs| && y in f(xs[i])
  {
    if xs != [] {
      var q := |xs| - 1;
      FlattenMember(xs[..q], f, y);
      assert forall i :: 0 <= i < q ==> xs[..q][i] == xs[i];
    }
  }

  /** Concatenation is associative. */
  lemma Assoc<T>(a: seq<T>, b: seq<T>, c: seq<T>)
    ensures a + (b + c) == (a + b) + c
  {
  }

  /** The two parts of a concatenation. */
  lemma Ends<T>(u: seq<T>, v: seq<T>)
    ensures (u + v)[..|u|] == u && (u + v)[|u|..] == v
  {
  }
}
