/** Python's ordering of strings and the sorting the readers do with it.

    `sorted(d.items())` on a dictionary whose keys are strings orders the
    entries by key; keys are unique, so the result is the strictly ascending
    enumeration of the keys. */
module Order {
  import opened Seqs

  /** Python's `a < b` on strings: code-point lexicographic order, a proper prefix first. */
  predicate Less(a: string, b: string)
    decreases |a|
  {
    if |a| == 0 then |b| > 0
    else if |b| == 0 then false
    else if a[0] != b[0] then a[0] < b[0]
    else Less(a[1..], b[1..])
  }

  predicate LessEq(a: string, b: string) {
    a == b || Less(a, b)
  }

  lemma {:induction false} LessIrreflexive(a: string)
    ensures !Less(a, a)
    decreases |a|
  {
    if |a| > 0 {
      LessIrreflexive(a[1..]);
    }
  }

  lemma {:induction false} LessAsymmetric(a: string, b: string)
    ensures !(Less(a, b) && Less(b, a))
    decreases |a|
  {
    if |a| > 0 && |b| > 0 && a[0] == b[0] {
      LessAsymmetric(a[1..], b[1..]);
    }
  }

  lemma {:induction false} LessTransitive(a: string, b: string, c: string)
    requires Less(a, b) && Less(b, c)
    ensures Less(a, c)
    decreases |a|
  {
    if |a| > 0 && a[0] == b[0] && b[0] == c[0] {
      LessTransitive(a[1..], b[1..], c[1..]);
    }
  }

  lemma {:induction false} LessTotal(a: string, b: string)
    ensures a == b || Less(a, b) || Less(b, a)
    decreases |a|
  {
    if |a| > 0 && |b| > 0 && a[0] == b[0] {
      LessTotal(a[1..], b[1..]);
      if a[1..] == b[1..] {
        assert a == [a[0]] + a[1..] && b == [b[0]] + b[1..];
      }
    }
  }

  lemma LessEqTransitive(a: string, b: string, c: string)
    requires LessEq(a, b) && LessEq(b, c)
    ensures LessEq(a, c)
  {
    if a != b && b != c {
      LessTransitive(a, b, c);
    }
  }

  /** The first element of a strictly ascending sequence does not occur again. */
  lemma StrictlySortedHead(xs: seq<string>)
    requires StrictlySorted(xs) && |xs| > 0
    ensures Elems(xs[1..]) == Elems(xs) - {xs[0]}
  {
    assert xs == [xs[0]] + xs[1..];
    ElemsConcat([xs[0]], xs[1..]);
    forall y | y in xs[1..] ensures y != xs[0] {
      var j :| 0 <= j < |xs[1..]| && xs[1..][j] == y;
      assert Less(xs[0], xs[j + 1]);
      LessIrreflexive(xs[0]);
    }
  }

  /** Every element is smaller than every later one. */
  predicate StrictlySorted(xs: seq<string>) {
    forall i, j | 0 <= i < j < |xs| :: Less(xs[i], xs[j])
  }

  /** Every element is at most every later one. */
  predicate Sorted(xs: seq<string>) {
    forall i, j | 0 <= i < j < |xs| :: LessEq(xs[i], xs[j])
  }

  lemma StrictlySortedIsSorted(xs: seq<string>)
    requires StrictlySorted(xs)
    ensures Sorted(xs)
  {
  }

  lemma StrictlySortedDistinct(xs: seq<string>)
    requires StrictlySorted(xs)
    ensures Distinct(xs)
  {
    forall a, b | 0 <= a < b < |xs| ensures xs[a] != xs[b] {
      LessIrreflexive(xs[a]);
    }
  }

  /** Insert `x` into a strictly ascending sequence, unless it is already there. */
  function Insert(x: string, xs: seq<string>): (r: seq<string>)
    requires StrictlySorted(xs)
    ensures StrictlySorted(r)
    ensures Elems(r) == Elems(xs) + {x}
  {
    if |xs| == 0 then [x]
    else if x == xs[0] then xs
    else if Less(x, xs[0]) then
      assert forall j | 0 < j < |xs| :: Less(x, xs[j]) by {
        forall j | 0 < j < |xs| ensures Less(x, xs[j]) {
          LessTransitive(x, xs[0], xs[j]);
        }
      }
      [x] + xs
    else
      LessTotal(x, xs[0]);
      var rest := Insert(x, xs[1..]);
      forall y | y in rest ensures Less(xs[0], y) {
        assert y in Elems(rest);
        if y != x {
          var j :| 0 <= j < |xs[1..]| && xs[1..][j] == y;
          assert xs[j + 1] == y;
        }
      }
      var r := [xs[0]] + rest;
      ElemsConcat([xs[0]], rest);
      assert Elems(xs) == {xs[0]} + Elems(xs[1..]) by {
        assert xs == [xs[0]] + xs[1..];
        ElemsConcat([xs[0]], xs[1..]);
      }
      assert forall j | 0 < j < |r| :: r[j] == rest[j - 1];
      r
  }

  /** The strictly ascending enumeration of the distinct strings of `xs`. */
  function SortDistinct(xs: seq<string>): (r: seq<string>)
    ensures StrictlySorted(r)
    ensures Elems(r) == Elems(xs)
  {
    if |xs| == 0 then []
    else
      assert Elems(xs) == Elems(xs[..|xs| - 1]) + {xs[|xs| - 1]} by {
        assert xs == xs[..|xs| - 1] + [xs[|xs| - 1]];
      }
      Insert(xs[|xs| - 1], SortDistinct(xs[..|xs| - 1]))
  }

  /** A strictly ascending sequence is determined by its elements. */
  lemma {:induction false} StrictlySortedUnique(xs: seq<string>, ys: seq<string>)
    requires StrictlySorted(xs) && StrictlySorted(ys)
    requires Elems(xs) == Elems(ys)
    ensures xs == ys
    decreases |xs|
  {
    if |xs| > 0 && |ys| > 0 {
      assert xs[0] == ys[0] by {
        assert xs[0] in Elems(ys) && ys[0] in Elems(xs);
        if xs[0] != ys[0] {
          var i :| 0 <= i < |ys| && ys[i] == xs[0];
          var j :| 0 <= j < |xs| && xs[j] == ys[0];
          assert i > 0 && j > 0;
          LessAsymmetric(xs[0], ys[0]);
        }
      }
      StrictlySortedHead(xs);
      StrictlySortedHead(ys);
      StrictlySortedUnique(xs[1..], ys[1..]);
    } else if |xs| > 0 {
      ElemsHead(xs);
      assert false;
    } else if |ys| > 0 {
      ElemsHead(ys);
      assert false;
    }
  }
}
