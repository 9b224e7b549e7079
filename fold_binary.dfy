/**
 * `fold_binary`: reduce a sequence by repeatedly combining adjacent
 * pairs, giving a balanced tree of reducer applications.
 */
module FoldBinary {
  import opened Wrappers

  /** One pass: combine items 0 and 1, 2 and 3, ...; an odd last item passes through. */
  function PairUp<T>(s: seq<T>, f: (T, T) -> T): (r: seq<T>)
    ensures |r| == (|s| + 1) / 2
    ensures |s| >= 2 ==> |r| < |s|
  {
    if |s| < 2 then s else [f(s[0], s[1])] + PairUp(s[2..], f)
  }

  /** Repeated passes until one value is left. */
  function FoldTree<T>(s: seq<T>, f: (T, T) -> T): T
    requires |s| >= 1
    decreases |s|
  {
    if |s| == 1 then s[0] else FoldTree(PairUp(s, f), f)
  }

  /** The reference: a plain left fold. */
  function FoldLeft<T>(acc: T, s: seq<T>, f: (T, T) -> T): T
    decreases |s|
  {
    if s == [] then acc else FoldLeft(f(acc, s[0]), s[1..], f)
  }

  ghost predicate Associative<T(!new)>(f: (T, T) -> T)
  {
    forall a, b, c :: f(f(a, b), c) == f(a, f(b, c))
  }

  /** A pairing pass does not change a left fold when the reducer is associative. */
  lemma {:induction false} FoldLeftPairUp<T(!new)>(acc: T, s: seq<T>, f: (T, T) -> T)
    requires Associative(f)
    ensures FoldLeft(acc, PairUp(s, f), f) == FoldLeft(acc, s, f)
  {
    if |s| >= 2 {
      var rest := s[2..];
      assert PairUp(s, f) == [f(s[0], s[1])] + PairUp(rest, f);
      assert ([f(s[0], s[1])] + PairUp(rest, f))[1..] == PairUp(rest, f);
      FoldLeftPairUp(f(acc, f(s[0], s[1])), rest, f);
      assert f(f(acc, s[0]), s[1]) == f(acc, f(s[0], s[1]));
      assert s[1..][1..] == rest;
    }
  }

  /** With an associative reducer the tree reduction equals the left fold. */
  lemma {:induction false} FoldTreeIsFoldLeft<T(!new)>(s: seq<T>, f: (T, T) -> T)
    requires |s| >= 1 && Associative(f)
    ensures FoldTree(s, f) == FoldLeft(s[0], s[1..], f)
    decreases |s|
  {
    if |s| >= 2 {
      var p := PairUp(s, f);
      FoldTreeIsFoldLeft(p, f);
      assert p == [f(s[0], s[1])] + PairUp(s[2..], f);
      assert p[1..] == PairUp(s[2..], f);
      FoldLeftPairUp(f(s[0], s[1]), s[2..], f);
      assert s[1..][1..] == s[2..];
    }
  }

  /** Only adjacent items are combined, left before right: folding strings concatenates them in order. */
  lemma ConcatenationInOrder(s: seq<string>)
    requires |s| >= 1
    ensures FoldTree(s, (a: string, b: string) => a + b) == FoldLeft(s[0], s[1..], (a: string, b: string) => a + b)
  {
    var f := (a: string, b: string) => a + b;
    forall a: string, b: string, c: string
      ensures f(f(a, b), c) == f(a, f(b, c))
    {
      assert (a + b) + c == a + (b + c);
    }
    FoldTreeIsFoldLeft(s, f);
  }

  /** Append `PairUp(s[i..])` to `acc`, one pair at a time. */
  method PairRest<T>(acc: seq<T>, s: seq<T>, i: nat, f: (T, T) -> T) returns (out: seq<T>)
    requires i <= |s|
    ensures out == acc + PairUp(s[i..], f)
  {
    out := acc;
    var j := i;
    while j < |s|
      invariant i <= j <= |s|
      invariant out + PairUp(s[j..], f) == acc + PairUp(s[i..], f)
    {
      if j + 1 < |s| {
        assert s[j..][2..] == s[j + 2..];
        out := out + [f(s[j], s[j + 1])];
        j := j + 2;
      } else {
        assert s[j..] == [s[j]];
        out := out + [s[j]];
        j := j + 1;
      }
    }
    assert s[j..] == [];
  }

  /** `fold_binary`: None for no items, the item for one, else the tree reduction. */
  method Fold<T>(items: seq<T>, reducer: (T, T) -> T) returns (r: Option<T>)
    ensures items == [] ==> r == None
    ensures |items| == 1 ==> r == Some(items[0])
    ensures items != [] ==> r == Some(FoldTree(items, reducer))
  {
    if |items| == 0 {
      return None;
    }
    if |items| == 1 {
      return Some(items[0]);
    }
    var source := PairRest([reducer(items[0], items[1])], items, 2, reducer);
    while true
      invariant |source| >= 1
      invariant FoldTree(source, reducer) == FoldTree(items, reducer)
      decreases |source|
    {
      if |source| == 1 {
        return Some(source[0]);
      }
      var target := PairRest([reducer(source[0], source[1])], source, 2, reducer);
      source := target;
    }
  }
}
