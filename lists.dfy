/** Sequence operations the server applies to Python lists: `list.index`,
    `del xs[xs.index(x)]` / `list.remove`, and duplicate-freedom. */
module Lists {

  predicate NoDup<T(==)>(xs: seq<T>) {
    forall i, j | 0 <= i < j < |xs| :: xs[i] != xs[j]
  }

  /** Position of the first occurrence of `x`, or `|xs|` when there is none. */
  function IndexOf<T(==)>(xs: seq<T>, x: T): (i: nat)
    ensures i <= |xs|
    ensures i < |xs| ==> xs[i] == x
    ensures forall j | 0 <= j < i :: xs[j] != x
  {
    if xs == [] then 0
    else if xs[0] == x then 0
    else 1 + IndexOf(xs[1..], x)
  }

  /** Removes the first occurrence of `x`; Python raises when `x` is absent,
      so callers establish `x in xs` first. */
  function RemoveFirst<T(==, !new)>(xs: seq<T>, x: T): (r: seq<T>)
    requires x in xs
    ensures |r| == |xs| - 1
    ensures multiset(r) == multiset(xs) - multiset{x}
    ensures forall y | y != x :: y in r <==> y in xs
  {
    var i := IndexOf(xs, x);
    DropAt(xs, i, xs[..i] + xs[i + 1..]);
    xs[..i] + xs[i + 1..]
  }

  /** Only the first copy goes: the elements before it keep their positions
      and those after it move up by one. */
  lemma RemoveFirstKeepsOrder<T(!new)>(xs: seq<T>, x: T)
    requires x in xs
    ensures var r, i := RemoveFirst(xs, x), IndexOf(xs, x);
      forall k | 0 <= k < |r| :: r[k] == xs[if k < i then k else k + 1]
  {
    var i := IndexOf(xs, x);
    DropAt(xs, i, RemoveFirst(xs, x));
  }

  /** Cutting out the element at `i` gives `r`: one copy of it leaves the
      multiset, every other value stays, and the elements after `i` move up
      by one. */
  lemma DropAt<T(!new)>(xs: seq<T>, i: nat, r: seq<T>)
    requires i < |xs| && r == xs[..i] + xs[i + 1..]
    ensures multiset(r) == multiset(xs) - multiset{xs[i]}
    ensures forall y | y != xs[i] :: y in r <==> y in xs
    ensures forall k | 0 <= k < |r| :: r[k] == xs[if k < i then k else k + 1]
  {
    assert xs == xs[..i] + [xs[i]] + xs[i + 1..];
    assert multiset(xs) == multiset(r) + multiset{xs[i]};
    forall y | y != xs[i] ensures y in r <==> y in xs {
      assert y in r <==> y in multiset(r);
      assert y in xs <==> y in multiset(xs);
    }
  }

  /** Appending an element that is not yet present keeps a list duplicate-free. */
  lemma AppendKeepsNoDup<T>(xs: seq<T>, x: T)
    requires NoDup(xs) && x !in xs
    ensures NoDup(xs + [x])
  {
    var ys := xs + [x];
    forall i, j | 0 <= i < j < |ys| ensures ys[i] != ys[j] {
      if j == |xs| {
        assert ys[i] == xs[i];
      }
    }
  }

  /** Removing the first occurrence from a duplicate-free list removes the
      element altogether and keeps the rest duplicate-free. */
  lemma RemoveFirstKeepsNoDup<T(!new)>(xs: seq<T>, x: T)
    requires NoDup(xs) && x in xs
    ensures NoDup(RemoveFirst(xs, x))
    ensures x !in RemoveFirst(xs, x)
  {
    var i := IndexOf(xs, x);
    var r := RemoveFirst(xs, x);
    assert r == xs[..i] + xs[i + 1..];
    forall a, b | 0 <= a < b < |r| ensures r[a] != r[b] {
      var a' := if a < i then a else a + 1;
      var b' := if b < i then b else b + 1;
      assert r[a] == xs[a'] && r[b] == xs[b'] && a' < b';
    }
    forall k | 0 <= k < |r| ensures r[k] != x {
      var k' := if k < i then k else k + 1;
      assert r[k] == xs[k'] && k' != i;
    }
  }

  /** Appending an absent element and then removing its first occurrence
      gives back the original list. */
  lemma {:induction false} AppendThenRemoveFirst<T(!new)>(xs: seq<T>, x: T)
    requires x !in xs
    ensures RemoveFirst(xs + [x], x) == xs
  {
    var ys := xs + [x];
    var i := IndexOf(ys, x);
    assert ys[|xs|] == x;
    assert i == |xs|;
    assert ys[..i] == xs;
  }
}
