/** Sequence vocabulary shared by the model: the elements of a sequence,
    first index of an element, insertion at a position, keeping the elements
    of a set, and having no repeated element. */
module Seqs {

  function Elems<T>(xs: seq<T>): set<T> {
    set x | x in xs
  }

  lemma ElemsConcat<T>(a: seq<T>, b: seq<T>)
    ensures Elems(a + b) == Elems(a) + Elems(b)
  {
    assert forall y :: y in a + b <==> y in a || y in b;
  }

  lemma ElemsHead<T>(xs: seq<T>)
    requires |xs| > 0
    ensures xs[0] in Elems(xs)
  {
  }

  /** No element occurs twice. */
  predicate Distinct<T(==)>(xs: seq<T>) {
    forall a, b | 0 <= a < b < |xs| :: xs[a] != xs[b]
  }

  /** Python's `xs.index(x)`: the first position of `x`. */
  function IndexOf<T(==)>(xs: seq<T>, x: T): (i: nat)
    requires x in xs
    ensures i < |xs| && xs[i] == x && x !in xs[..i]
  {
    if xs[0] == x then 0
    else
      var k := IndexOf(xs[1..], x);
      assert xs[..k + 1] == [xs[0]] + xs[1..][..k];
      k + 1
  }

  /** Python's `xs.insert(j, x)` for a position inside the list. */
  function InsertAt<T>(xs: seq<T>, j: nat, x: T): (r: seq<T>)
    requires j <= |xs|
    ensures |r| == |xs| + 1 && r[j] == x
    ensures forall k | 0 <= k < j :: r[k] == xs[k]
    ensures forall k | j < k < |r| :: r[k] == xs[k - 1]
  {
    xs[..j] + [x] + xs[j..]
  }

  /** The elements of `xs` that lie in `keep`, in their order. */
  function FilterIn<T>(xs: seq<T>, keep: set<T>): (r: seq<T>)
    ensures |r| <= |xs|
    ensures forall k | 0 <= k < |r| :: r[k] in xs && r[k] in keep
    ensures forall k | 0 <= k < |xs| :: xs[k] in keep ==> xs[k] in r
    ensures |xs| == 1 ==> r == if xs[0] in keep then xs else []
  {
    if |xs| == 0 then []
    else if xs[0] in keep then [xs[0]] + FilterIn(xs[1..], keep)
    else FilterIn(xs[1..], keep)
  }

  lemma {:induction false} FilterInConcat<T>(a: seq<T>, b: seq<T>, keep: set<T>)
    ensures FilterIn(a + b, keep) == FilterIn(a, keep) + FilterIn(b, keep)
    decreases |a|
  {
    if |a| > 0 {
      assert (a + b)[1..] == a[1..] + b;
      FilterInConcat(a[1..], b, keep);
    } else {
      assert a + b == b;
    }
  }

  /** Filtering keeps the order: any split of `xs` filters piece by piece. */
  lemma FilterInSplits<T>(xs: seq<T>, keep: set<T>)
    ensures forall a, b | xs == a + b :: FilterIn(xs, keep) == FilterIn(a, keep) + FilterIn(b, keep)
  {
    forall a, b | xs == a + b ensures FilterIn(xs, keep) == FilterIn(a, keep) + FilterIn(b, keep) {
      FilterInConcat(a, b, keep);
    }
  }

  /** Keeping a superset of the elements changes nothing. */
  lemma {:induction false} FilterInAll<T>(xs: seq<T>, keep: set<T>)
    requires Elems(xs) <= keep
    ensures FilterIn(xs, keep) == xs
    decreases |xs|
  {
    if |xs| > 0 {
      assert xs[0] in Elems(xs);
      assert Elems(xs[1..]) <= Elems(xs);
      FilterInAll(xs[1..], keep);
    }
  }

  /** Filtering twice by the same set is filtering once. */
  lemma FilterInIdempotent<T>(xs: seq<T>, keep: set<T>)
    ensures FilterIn(FilterIn(xs, keep), keep) == FilterIn(xs, keep)
  {
    FilterInAll(FilterIn(xs, keep), keep);
  }

  /** Python's `xs.remove(x)` for an element that is there: the first occurrence goes. */
  function RemoveFirst<T(==)>(xs: seq<T>, x: T): (r: seq<T>)
    requires x in xs
    ensures multiset(r) + multiset{x} == multiset(xs)
  {
    var i := IndexOf(xs, x);
    assert xs == xs[..i] + [x] + xs[i + 1..];
    xs[..i] + xs[i + 1..]
  }

  /** A concatenation has no repeats iff neither part has and they share nothing. */
  lemma DistinctConcat<T>(a: seq<T>, b: seq<T>)
    ensures Distinct(a + b) <==> Distinct(a) && Distinct(b) && forall x | x in a :: x !in b
  {
    var ab := a + b;
    if Distinct(ab) {
      forall i, j | 0 <= i < j < |a| ensures a[i] != a[j] {
        assert a[i] == ab[i] && a[j] == ab[j];
      }
      forall i, j | 0 <= i < j < |b| ensures b[i] != b[j] {
        assert b[i] == ab[|a| + i] && b[j] == ab[|a| + j];
      }
      forall i, j | 0 <= i < |a| && 0 <= j < |b| ensures a[i] != b[j] {
        assert a[i] == ab[i] && b[j] == ab[|a| + j];
      }
    }
    if Distinct(a) && Distinct(b) && forall x | x in a :: x !in b {
      forall i, j | 0 <= i < j < |ab| ensures ab[i] != ab[j] {
        if j < |a| {
          assert ab[i] == a[i] && ab[j] == a[j];
        } else if i >= |a| {
          assert ab[i] == b[i - |a|] && ab[j] == b[j - |a|];
        } else {
          assert ab[i] == a[i] && ab[j] == b[j - |a|];
          assert a[i] in a;
        }
      }
    }
  }

  /** A sequence without repeats has as many elements as positions. */
  lemma {:induction false} DistinctCard<T>(xs: seq<T>)
    requires Distinct(xs)
    ensures |Elems(xs)| == |xs|
    decreases |xs|
  {
    if |xs| > 0 {
      var init := xs[..|xs| - 1];
      var last := xs[|xs| - 1];
      assert xs == init + [last];
      DistinctConcat(init, [last]);
      DistinctCard(init);
      ElemsConcat(init, [last]);
      assert Elems([last]) == {last};
      assert last !in Elems(init);
    }
  }
}
