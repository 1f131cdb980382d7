/** The order-preserving list merge `merge_lists` (src/pywriter/yw/yw7_file.py).

    It walks the source list with an insertion cursor: an element the target
    already holds moves the cursor to just after its first occurrence; a new
    element is inserted at the cursor, which then moves past it. The target
    keeps every element and their order; source elements land next to their
    source neighbours. */
module ListMerge {
  import opened Seqs

  /** The merge from source position `i` on, with the list `cur` and cursor `j` reached so far. */
  function MergeFrom(src: seq<string>, i: nat, cur: seq<string>, j: nat): seq<string>
    requires i <= |src| && j <= |cur|
    decreases |src| - i
  {
    if i == |src| then cur
    else if src[i] !in cur then MergeFrom(src, i + 1, InsertAt(cur, j, src[i]), j + 1)
    else MergeFrom(src, i + 1, cur, IndexOf(cur, src[i]) + 1)
  }

  function MergeLists(src: seq<string>, tgt: seq<string>): seq<string> {
    MergeFrom(src, 0, tgt, 0)
  }

  /** The loop as the original writes it, inserting into the target in place. */
  method MergeListsLoop(src: seq<string>, tgt: seq<string>) returns (r: seq<string>)
    ensures r == MergeLists(src, tgt)
  {
    r := tgt;
    var j: nat := 0;
    for i := 0 to |src|
      invariant j <= |r|
      invariant MergeFrom(src, i, r, j) == MergeLists(src, tgt)
    {
      if src[i] !in r {
        r := InsertAt(r, j, src[i]);
        j := j + 1;
      } else {
        j := IndexOf(r, src[i]) + 1;
      }
    }
  }

  /** Inserting an element the filter drops leaves the filtered list unchanged. */
  lemma InsertOutside(cur: seq<string>, j: nat, x: string, keep: set<string>)
    requires j <= |cur| && x !in keep
    ensures FilterIn(InsertAt(cur, j, x), keep) == FilterIn(cur, keep)
  {
    var a, b := cur[..j], cur[j..];
    assert cur == a + b;
    assert InsertAt(cur, j, x) == a + ([x] + b);
    FilterInConcat(a, [x] + b, keep);
    FilterInConcat([x], b, keep);
    assert FilterIn([x], keep) == [];
    assert [] + FilterIn(b, keep) == FilterIn(b, keep);
    FilterInConcat(a, b, keep);
  }

  lemma {:induction false} MergeFromKeeps(src: seq<string>, i: nat, cur: seq<string>, j: nat, tgt: seq<string>)
    requires i <= |src| && j <= |cur|
    requires FilterIn(cur, Elems(tgt)) == tgt
    requires Elems(tgt) <= Elems(cur)
    ensures FilterIn(MergeFrom(src, i, cur, j), Elems(tgt)) == tgt
    decreases |src| - i
  {
    if i < |src| {
      if src[i] !in cur {
        InsertOutside(cur, j, src[i], Elems(tgt));
        var next := InsertAt(cur, j, src[i]);
        InsertElems(cur, j, src[i]);
        MergeFromKeeps(src, i + 1, next, j + 1, tgt);
      } else {
        MergeFromKeeps(src, i + 1, cur, IndexOf(cur, src[i]) + 1, tgt);
      }
    }
  }

  /** The merge never removes or reorders a target element: dropping the
      inserted elements gives the target back. */
  lemma MergeKeepsTarget(src: seq<string>, tgt: seq<string>)
    ensures FilterIn(MergeLists(src, tgt), Elems(tgt)) == tgt
  {
    FilterInAll(tgt, Elems(tgt));
    MergeFromKeeps(src, 0, tgt, 0, tgt);
  }

  lemma {:induction false} MergeFromElems(src: seq<string>, i: nat, cur: seq<string>, j: nat)
    requires i <= |src| && j <= |cur|
    ensures Elems(MergeFrom(src, i, cur, j)) == Elems(cur) + Elems(src[i..])
    decreases |src| - i
  {
    if i < |src| {
      assert src[i..] == [src[i]] + src[i + 1..];
      ElemsConcat([src[i]], src[i + 1..]);
      if src[i] !in cur {
        var next := InsertAt(cur, j, src[i]);
        InsertElems(cur, j, src[i]);
        MergeFromElems(src, i + 1, next, j + 1);
      } else {
        MergeFromElems(src, i + 1, cur, IndexOf(cur, src[i]) + 1);
      }
    }
  }

  /** Afterwards the list holds exactly the target's and the source's elements. */
  lemma MergeElems(src: seq<string>, tgt: seq<string>)
    ensures Elems(MergeLists(src, tgt)) == Elems(tgt) + Elems(src)
  {
    MergeFromElems(src, 0, tgt, 0);
    assert src[0..] == src;
  }

  lemma {:induction false} MergeFromNoop(src: seq<string>, i: nat, cur: seq<string>, j: nat)
    requires i <= |src| && j <= |cur|
    requires forall k | i <= k < |src| :: src[k] in cur
    ensures MergeFrom(src, i, cur, j) == cur
    decreases |src| - i
  {
    if i < |src| {
      MergeFromNoop(src, i + 1, cur, IndexOf(cur, src[i]) + 1);
    }
  }

  /** A target that already holds every source element is left as it is. */
  lemma MergeNoop(src: seq<string>, tgt: seq<string>)
    requires Elems(src) <= Elems(tgt)
    ensures MergeLists(src, tgt) == tgt
  {
    forall k | 0 <= k < |src| ensures src[k] in tgt {
      assert src[k] in Elems(src);
    }
    MergeFromNoop(src, 0, tgt, 0);
  }

  /** Merging the same source a second time changes nothing. */
  lemma MergeListsIdempotent(src: seq<string>, tgt: seq<string>)
    ensures MergeLists(src, MergeLists(src, tgt)) == MergeLists(src, tgt)
  {
    MergeElems(src, tgt);
    MergeNoop(src, MergeLists(src, tgt));
  }

  /** `b` comes immediately after `a` somewhere in `s`. */
  predicate Follows(s: seq<string>, a: string, b: string) {
    exists k | 1 <= k < |s| :: s[k - 1] == a && s[k] == b
  }

  /** Where the new source element `src[k]` must be: at the front if it is the
      first source element, else right after the source element before it. */
  predicate Placed(r: seq<string>, src: seq<string>, k: nat)
    requires k < |src|
  {
    if k == 0 then |r| > 0 && r[0] == src[0] else Follows(r, src[k - 1], src[k])
  }

  /** Inserting at the cursor keeps the earlier placements: the only pair it
      separates is the one ending at the cursor, whose left element is the
      current source element's predecessor. */
  lemma InsertKeepsPlaced(src: seq<string>, i: nat, cur: seq<string>, j: nat, k: nat)
    requires Distinct(src) && k < i < |src| && 1 <= j <= |cur|
    requires cur[j - 1] == src[i - 1]
    requires Placed(cur, src, k)
    ensures Placed(InsertAt(cur, j, src[i]), src, k)
  {
    var next := InsertAt(cur, j, src[i]);
    if k > 0 {
      var m :| 1 <= m < |cur| && cur[m - 1] == src[k - 1] && cur[m] == src[k];
      if m < j {
        assert next[m - 1] == cur[m - 1] && next[m] == cur[m];
      } else if m > j {
        assert next[m] == cur[m - 1] && next[m + 1] == cur[m];
      }
    }
  }

  lemma InsertElems(cur: seq<string>, j: nat, x: string)
    requires j <= |cur|
    ensures Elems(InsertAt(cur, j, x)) == Elems(cur) + {x}
  {
    var a, b := cur[..j], cur[j..];
    assert cur == a + b;
    assert InsertAt(cur, j, x) == a + ([x] + b);
    ElemsConcat(a, [x] + b);
    ElemsConcat([x], b);
    ElemsConcat(a, b);
  }

  /** Stepping past position `i` of a sequence without repeats adds a new element. */
  lemma StepElems(src: seq<string>, i: nat)
    requires Distinct(src) && i < |src|
    ensures src[i] !in Elems(src[..i])
    ensures Elems(src[..i + 1]) == Elems(src[..i]) + {src[i]}
  {
    assert src[..i + 1] == src[..i] + [src[i]];
    ElemsConcat(src[..i], [src[i]]);
  }

  /** One insertion step keeps every placement made so far and makes one more. */
  lemma InsertPlaces(src: seq<string>, i: nat, cur: seq<string>, j: nat, tgt: seq<string>)
    requires Distinct(src) && i < |src| && j <= |cur| && src[i] !in cur
    requires i == 0 ==> j == 0
    requires i > 0 ==> 1 <= j && cur[j - 1] == src[i - 1]
    requires Elems(cur) == Elems(tgt) + Elems(src[..i])
    requires forall k | 0 <= k < i && src[k] !in tgt :: Placed(cur, src, k)
    ensures src[i] !in tgt
    ensures Elems(InsertAt(cur, j, src[i])) == Elems(tgt) + Elems(src[..i + 1])
    ensures forall k | 0 <= k < i + 1 && src[k] !in tgt :: Placed(InsertAt(cur, j, src[i]), src, k)
  {
    var x := src[i];
    var next := InsertAt(cur, j, x);
    StepElems(src, i);
    InsertElems(cur, j, x);
    assert x !in Elems(cur);
    forall k | 0 <= k < i && src[k] !in tgt ensures Placed(next, src, k) {
      InsertKeepsPlaced(src, i, cur, j, k);
    }
    if i > 0 {
      assert next[j - 1] == src[i - 1] && next[j] == x;
    }
  }

  /** A source element the list already holds comes from the target, so
      stepping past it keeps every placement. */
  lemma SkipPlaces(src: seq<string>, i: nat, cur: seq<string>, tgt: seq<string>)
    requires Distinct(src) && i < |src| && src[i] in cur
    requires Elems(cur) == Elems(tgt) + Elems(src[..i])
    requires forall k | 0 <= k < i && src[k] !in tgt :: Placed(cur, src, k)
    ensures src[i] in tgt
    ensures Elems(cur) == Elems(tgt) + Elems(src[..i + 1])
    ensures forall k | 0 <= k < i + 1 && src[k] !in tgt :: Placed(cur, src, k)
  {
    StepElems(src, i);
    assert src[i] in Elems(cur);
  }

  lemma {:induction false} MergeFromPlaces(src: seq<string>, i: nat, cur: seq<string>, j: nat, tgt: seq<string>)
    requires Distinct(src) && i <= |src| && j <= |cur|
    requires i == 0 ==> j == 0
    requires i > 0 ==> 1 <= j && cur[j - 1] == src[i - 1]
    requires Elems(cur) == Elems(tgt) + Elems(src[..i])
    requires forall k | 0 <= k < i && src[k] !in tgt :: Placed(cur, src, k)
    ensures forall k | 0 <= k < |src| && src[k] !in tgt :: Placed(MergeFrom(src, i, cur, j), src, k)
    decreases |src| - i
  {
    var r := MergeFrom(src, i, cur, j);
    if i == |src| {
      assert r == cur;
    } else {
      var x := src[i];
      if x !in cur {
        var next := InsertAt(cur, j, x);
        assert r == MergeFrom(src, i + 1, next, j + 1);
        InsertPlaces(src, i, cur, j, tgt);
        MergeFromPlaces(src, i + 1, next, j + 1, tgt);
      } else {
        var j2 := IndexOf(cur, x) + 1;
        assert r == MergeFrom(src, i + 1, cur, j2);
        SkipPlaces(src, i, cur, tgt);
        MergeFromPlaces(src, i + 1, cur, j2, tgt);
      }
    }
  }

  /** For a source without repeats, each element new to the target lands at the
      front if it is the first, else immediately after its source predecessor. */
  lemma MergePlacesNew(src: seq<string>, tgt: seq<string>)
    requires Distinct(src)
    ensures forall k | 0 <= k < |src| && src[k] !in tgt :: Placed(MergeLists(src, tgt), src, k)
  {
    assert src[..0] == [];
    MergeFromPlaces(src, 0, tgt, 0, tgt);
  }
}
