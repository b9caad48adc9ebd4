/** Ordering the collected stories: `all_stories.sort(key=lambda s: (s.priority, s.id))`, a
    stable sort on the key (wave, then story ID as Python compares strings), and the
    renumbering `for i, story in enumerate(all_stories, 1): story.priority = i`. Both work in
    place on the list, so both are methods on an array. */
module StoryOrder {
  import opened Text
  import opened StorySynthesis

  /** The sort key. */
  function Key(s: UserStory): (int, string) {
    (s.priority, s.id)
  }

  /** Tuple order on the key: priority first, ties broken by `<` on the ID. */
  predicate KeyLess(a: UserStory, b: UserStory): (r: bool)
    ensures r ==> a.priority <= b.priority
  {
    a.priority < b.priority || (a.priority == b.priority && StrLess(a.id, b.id))
  }

  /** No story is placed after one with a smaller key. */
  predicate Sorted(s: seq<UserStory>) {
    forall i, j :: 0 <= i < j < |s| ==> !KeyLess(s[j], s[i])
  }

  /** `x` placed after every story whose key is not larger than its own. */
  function Insert(xs: seq<UserStory>, x: UserStory): (r: seq<UserStory>)
    ensures |r| == |xs| + 1
  {
    if xs == [] then [x]
    else if KeyLess(x, xs[|xs| - 1]) then Insert(xs[..|xs| - 1], x) + [xs[|xs| - 1]]
    else xs + [x]
  }

  /** The stable sort by key: each story in turn inserted into the sorted stories before it. */
  function SortStories(xs: seq<UserStory>): (r: seq<UserStory>)
    ensures |r| == |xs|
  {
    if xs == [] then [] else Insert(SortStories(xs[..|xs| - 1]), xs[|xs| - 1])
  }

  /** The stories of `xs` with key `k`, in their order. */
  function WithKey(xs: seq<UserStory>, k: (int, string)): seq<UserStory> {
    if xs == [] then []
    else WithKey(xs[..|xs| - 1], k) + (if Key(xs[|xs| - 1]) == k then [xs[|xs| - 1]] else [])
  }

  /** Each story numbered by its place, from 1. */
  function Renumbered(xs: seq<UserStory>): (r: seq<UserStory>)
    ensures |r| == |xs|
    ensures forall k :: 0 <= k < |xs| ==> r[k] == xs[k].(priority := k + 1)
  {
    seq(|xs|, k requires 0 <= k < |xs| => xs[k].(priority := k + 1))
  }

  // ---------------------------------------------------------------------------------------
  // The key order

  lemma KeyLessIrreflexive(a: UserStory)
    ensures !KeyLess(a, a)
  {
    StrLessIrreflexive(a.id);
  }

  lemma KeyLessAsymmetric(a: UserStory, b: UserStory)
    requires KeyLess(a, b)
    ensures !KeyLess(b, a)
  {
    if a.priority == b.priority {
      StrLessAsymmetric(a.id, b.id);
    }
  }

  lemma KeyLessTransitive(a: UserStory, b: UserStory, c: UserStory)
    requires KeyLess(a, b) && KeyLess(b, c)
    ensures KeyLess(a, c)
  {
    if a.priority == b.priority == c.priority {
      StrLessTransitive(a.id, b.id, c.id);
    }
  }

  /** Stories with different keys are ordered one way or the other. */
  lemma KeyLessTotal(a: UserStory, b: UserStory)
    requires Key(a) != Key(b)
    ensures KeyLess(a, b) || KeyLess(b, a)
  {
    if a.priority == b.priority {
      StrLessTotal(a.id, b.id);
    }
  }

  /** A story smaller than `a` is smaller than `b` or `b` is smaller than `a`. */
  lemma KeyLessSplits(a: UserStory, b: UserStory, c: UserStory)
    ensures KeyLess(c, a) ==> KeyLess(c, b) || KeyLess(b, a)
  {
    if KeyLess(c, a) && Key(b) != Key(c) && Key(b) != Key(a) {
      KeyLessTotal(a, b);
      if KeyLess(a, b) {
        KeyLessTransitive(c, a, b);
      }
    }
  }

  /** "Not after" is transitive too. */
  lemma NotLessTransitive(a: UserStory, b: UserStory, c: UserStory)
    requires !KeyLess(b, a) && !KeyLess(c, b)
    ensures !KeyLess(c, a)
  {
    KeyLessSplits(a, b, c);
  }

  // ---------------------------------------------------------------------------------------
  // The sort: a sorted permutation that keeps the order of equal keys

  lemma MultisetSnoc(xs: seq<UserStory>)
    requires xs != []
    ensures multiset(xs) == multiset(xs[..|xs| - 1]) + multiset{xs[|xs| - 1]}
  {
    assert xs == xs[..|xs| - 1] + [xs[|xs| - 1]];
  }

  /** Inserting adds exactly `x`. */
  lemma {:induction false} InsertPermutes(xs: seq<UserStory>, x: UserStory)
    ensures multiset(Insert(xs, x)) == multiset(xs) + multiset{x}
  {
    if xs != [] && KeyLess(x, xs[|xs| - 1]) {
      var q := |xs| - 1;
      InsertPermutes(xs[..q], x);
      MultisetSnoc(xs);
    }
  }

  /** Inserting into sorted stories keeps them sorted. */
  lemma {:induction false} InsertSorted(xs: seq<UserStory>, x: UserStory)
    requires Sorted(xs)
    ensures Sorted(Insert(xs, x))
  {
    if xs == [] {
    } else if KeyLess(x, xs[|xs| - 1]) {
      var q := |xs| - 1;
      var init := xs[..q];
      var last := xs[q];
      assert Sorted(init);
      InsertSorted(init, x);
      InsertPermutes(init, x);
      KeyLessAsymmetric(x, last);
      var r := Insert(init, x);
      forall e | e in r ensures !KeyLess(last, e) {
        assert e in multiset(r);
        if e != x {
          assert e in init;
        }
      }
      SortedSnoc(r, last);
    } else {
      forall i | 0 <= i < |xs| ensures !KeyLess(x, xs[i]) {
        if i < |xs| - 1 {
          NotLessTransitive(xs[i], xs[|xs| - 1], x);
        }
      }
      SortedSnoc(xs, x);
    }
  }

  /** Sorted stories followed by one that none of them comes after are sorted. */
  lemma SortedSnoc(r: seq<UserStory>, y: UserStory)
    requires Sorted(r)
    requires forall e :: e in r ==> !KeyLess(y, e)
    ensures Sorted(r + [y])
  {
    var t := r + [y];
    forall i, j | 0 <= i < j < |t| ensures !KeyLess(t[j], t[i]) {
      if j < |r| {
        assert t[i] == r[i] && t[j] == r[j];
      } else {
        assert t[i] == r[i] && r[i] in r;
      }
    }
  }

  /** The sort gives sorted stories. */
  lemma {:induction false} SortSorted(xs: seq<UserStory>)
    ensures Sorted(SortStories(xs))
  {
    if xs != [] {
      SortSorted(xs[..|xs| - 1]);
      InsertSorted(SortStories(xs[..|xs| - 1]), xs[|xs| - 1]);
    }
  }

  /** The sort gives the same stories, each as often. */
  lemma {:induction false} SortPermutes(xs: seq<UserStory>)
    ensures multiset(SortStories(xs)) == multiset(xs)
  {
    if xs != [] {
      var q := |xs| - 1;
      SortPermutes(xs[..q]);
      InsertPermutes(SortStories(xs[..q]), xs[q]);
      MultisetSnoc(xs);
    }
  }

  /** `WithKey` of stories followed by one more. */
  lemma WithKeySnoc(xs: seq<UserStory>, y: UserStory, k: (int, string))
    ensures WithKey(xs + [y], k) == WithKey(xs, k) + (if Key(y) == k then [y] else [])
  {
    assert (xs + [y])[..|xs + [y]| - 1] == xs;
  }

  /** Inserting puts `x` after every story with its key. */
  lemma {:induction false} InsertStable(xs: seq<UserStory>, x: UserStory, k: (int, string))
    ensures WithKey(Insert(xs, x), k) == WithKey(xs, k) + (if Key(x) == k then [x] else [])
  {
    if xs == [] {
      WithKeySnoc([], x, k);
    } else if KeyLess(x, xs[|xs| - 1]) {
      var q := |xs| - 1;
      var last := xs[q];
      InsertStable(xs[..q], x, k);
      WithKeySnoc(Insert(xs[..q], x), last, k);
      assert Key(x) == k ==> Key(last) != k by {
        KeyLessIrreflexive(x);
      }
    } else {
      WithKeySnoc(xs, x, k);
    }
  }

  /** The sort is stable: the stories with any one key keep their order. */
  lemma {:induction false} SortStable(xs: seq<UserStory>, k: (int, string))
    ensures WithKey(SortStories(xs), k) == WithKey(xs, k)
  {
    if xs != [] {
      var q := |xs| - 1;
      SortStable(xs[..q], k);
      InsertStable(SortStories(xs[..q]), xs[q], k);
    }
  }

  // ---------------------------------------------------------------------------------------
  // In place

  /** The sort as steps on the prefix: one more story inserted. */
  lemma SortPrefixStep(input: seq<UserStory>, i: nat)
    requires i < |input|
    ensures SortStories(input[..i + 1]) == Insert(SortStories(input[..i]), input[i])
  {
    assert input[..i + 1][..i] == input[..i];
  }

  /** One step of shifting a larger story to the right. */
  lemma InsertShift(sorted: seq<UserStory>, j: nat, x: UserStory)
    requires 0 < j <= |sorted| && KeyLess(x, sorted[j - 1])
    ensures Insert(sorted[..j], x) + sorted[j..] == Insert(sorted[..j - 1], x) + sorted[j - 1..]
  {
    assert sorted[..j][..j - 1] == sorted[..j - 1];
    assert sorted[j - 1..] == [sorted[j - 1]] + sorted[j..];
  }

  /** Where the shifting stops, `x` goes. */
  lemma InsertHere(sorted: seq<UserStory>, j: nat, x: UserStory)
    requires j <= |sorted| && (j == 0 || !KeyLess(x, sorted[j - 1]))
    ensures Insert(sorted[..j], x) == sorted[..j] + [x]
  {
  }

  /** Insertion sort in place on the list of stories. */
  method SortByKey(a: array<UserStory>)
    modifies a
    ensures a[..] == SortStories(old(a[..]))
  {
    ghost var input := a[..];
    for i := 0 to a.Length
      invariant a[..i] == SortStories(input[..i])
      invariant a[i..] == input[i..]
    {
      ghost var before := a[..];
      InsertInPlace(a, i);
      assert before[i] == input[i];
      SortPrefixStep(input, i);
      assert a[i + 1..] == before[i + 1..];
    }
    assert input[..a.Length] == input;
  }

  /** One pass of insertion sort: `a[i]` moved left past the larger stories before it. */
  method InsertInPlace(a: array<UserStory>, i: nat)
    requires i < a.Length
    modifies a
    ensures a[..i + 1] == Insert(old(a[..i]), old(a[i]))
    ensures a[i + 1..] == old(a[i + 1..])
  {
    ghost var sorted := a[..i];
    ghost var rest := a[i + 1..];
    var x := a[i];
    var j := i;
    while j > 0 && KeyLess(x, a[j - 1])
      invariant 0 <= j <= i
      invariant a[..j] == sorted[..j]
      invariant a[j + 1..i + 1] == sorted[j..]
      invariant a[i + 1..] == rest
      invariant Insert(sorted, x) == Insert(sorted[..j], x) + sorted[j..]
      decreases j
    {
      assert a[j - 1] == sorted[j - 1];
      InsertShift(sorted, j, x);
      a[j] := a[j - 1];
      j := j - 1;
    }
    InsertHere(sorted, j, x);
    a[j] := x;
    assert a[..i + 1][..j] == a[..j];
    assert a[..i + 1][j + 1..] == a[j + 1..i + 1];
    Assemble(a[..i + 1], sorted[..j], x, sorted[j..]);
  }

  /** A sequence is its part before index `|pre|`, the element there, and the rest. */
  lemma Assemble(t: seq<UserStory>, pre: seq<UserStory>, x: UserStory, post: seq<UserStory>)
    requires |t| == |pre| + 1 + |post|
    requires t[..|pre|] == pre && t[|pre|] == x && t[|pre| + 1..] == post
    ensures t == pre + [x] + post
  {
    assert t == t[..|pre|] + [t[|pre|]] + t[|pre| + 1..];
  }

  /** The renumbering loop. */
  method Renumber(a: array<UserStory>)
    modifies a
    ensures a[..] == Renumbered(old(a[..]))
  {
    for i := 0 to a.Length
      invariant forall k :: 0 <= k < i ==> a[k] == old(a[k]).(priority := k + 1)
      invariant forall k :: i <= k < a.Length ==> a[k] == old(a[k])
    {
      a[i] := a[i].(priority := i + 1);
    }
  }

  // ---------------------------------------------------------------------------------------
  // After renumbering

  /** Renumbering keeps the order and every field but the priority, and numbers 1, 2, ... */
  lemma RenumberedKeeps(xs: seq<UserStory>, k: nat)
    requires k < |xs|
    ensures Renumbered(xs)[k].priority == k + 1
    ensures Renumbered(xs)[k].(priority := xs[k].priority) == xs[k]
  {
  }

  /** After renumbering the priorities strictly increase, so the list is sorted by its new key
      whatever the IDs. */
  lemma RenumberedSorted(xs: seq<UserStory>)
    ensures Sorted(Renumbered(xs))
  {
  }
}
