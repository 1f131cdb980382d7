/** The order in which the older Aeon Timeline CSV reader lists its scenes
    (src/pywaeon3/csv_timeline.py, lines 306-339): the undated scenes first,
    in reading order, then for each start text in ascending order the scenes
    filed under it, again in reading order.

    Here a scene is an id paired with the start text it was filed under, the
    empty text standing for "undated". Because the empty text is below every
    other text, the reader's order turns out to be a stable sort of the
    scenes by their start text: sorted, a permutation, and keeping the
    reading order among scenes with the same start. */
module DateOrder {
  import opened Seqs
  import opened Order

  /** A scene id and its start text ("" when undated). */
  type Keyed = (string, string)

  /** The scenes filed under `d`, in reading order. */
  function With(ks: seq<Keyed>, d: string): (r: seq<Keyed>)
    ensures forall i | 0 <= i < |r| :: r[i].1 == d
    decreases |ks|
  {
    if |ks| == 0 then []
    else With(ks[..|ks| - 1], d) + (if ks[|ks| - 1].1 == d then [ks[|ks| - 1]] else [])
  }

  /** The groups of the dates `ds`, one after the other. */
  function Groups(ks: seq<Keyed>, ds: seq<string>): seq<Keyed>
    decreases |ds|
  {
    if |ds| == 0 then [] else With(ks, ds[0]) + Groups(ks, ds[1..])
  }

  /** Every start text that occurs. */
  function StartsOf(ks: seq<Keyed>): set<string> {
    set i | 0 <= i < |ks| :: ks[i].1
  }

  /** The non-empty start texts in the order they first occur: the keys of
      the reader's date dictionary, in insertion order. */
  function FirstDates(ks: seq<Keyed>): (r: seq<string>)
    ensures Distinct(r)
    ensures Elems(r) == StartsOf(ks) - {""}
    decreases |ks|
  {
    if |ks| == 0 then []
    else
      var init := ks[..|ks| - 1];
      var d := ks[|ks| - 1].1;
      var prev := FirstDates(init);
      assert StartsOf(ks) == StartsOf(init) + {d} by {
        assert forall i | 0 <= i < |init| :: init[i] == ks[i];
      }
      if d != "" && d !in prev then
        ElemsConcat(prev, [d]);
        prev + [d]
      else prev
  }

  /** The reader's scene order: undated first, then the dates ascending. */
  function ByDate(ks: seq<Keyed>): seq<Keyed> {
    With(ks, "") + Groups(ks, SortDistinct(FirstDates(ks)))
  }

  /** The ids alone. */
  function IdsOf(ks: seq<Keyed>): (r: seq<string>)
    ensures |r| == |ks| && forall i | 0 <= i < |ks| :: r[i] == ks[i].0
  {
    seq(|ks|, i requires 0 <= i < |ks| => ks[i].0)
  }

  /** Ascending by start text. */
  predicate SortedByStart(ks: seq<Keyed>) {
    forall a, b | 0 <= a < b < |ks| :: LessEq(ks[a].1, ks[b].1)
  }

  lemma IdsOfConcat(a: seq<Keyed>, b: seq<Keyed>)
    ensures IdsOf(a + b) == IdsOf(a) + IdsOf(b)
  {
  }

  /** One more scene joins the group of its own date and no other. */
  lemma WithSnoc(ks: seq<Keyed>, k: Keyed, d: string)
    ensures With(ks + [k], d) == With(ks, d) + (if k.1 == d then [k] else [])
  {
    assert (ks + [k])[..|ks|] == ks;
  }

  lemma {:induction false} WithConcat(a: seq<Keyed>, b: seq<Keyed>, d: string)
    ensures With(a + b, d) == With(a, d) + With(b, d)
    decreases |b|
  {
    if |b| > 0 {
      var init := b[..|b| - 1];
      assert a + b == (a + init) + [b[|b| - 1]];
      WithSnoc(a + init, b[|b| - 1], d);
      WithConcat(a, init, d);
    } else {
      assert a + b == a;
    }
  }

  /** Filtering by the date every element already has keeps everything. */
  lemma {:induction false} WithAll(ks: seq<Keyed>, d: string)
    requires forall i | 0 <= i < |ks| :: ks[i].1 == d
    ensures With(ks, d) == ks
    decreases |ks|
  {
    if |ks| > 0 {
      WithAll(ks[..|ks| - 1], d);
    }
  }

  /** Filtering by a date nothing has keeps nothing. */
  lemma {:induction false} WithNone(ks: seq<Keyed>, d: string)
    requires forall i | 0 <= i < |ks| :: ks[i].1 != d
    ensures With(ks, d) == []
    decreases |ks|
  {
    if |ks| > 0 {
      WithNone(ks[..|ks| - 1], d);
    }
  }

  /** The group of `d` among the groups of distinct dates `ds`. */
  lemma {:induction false} WithGroups(ks: seq<Keyed>, ds: seq<string>, d: string)
    requires Distinct(ds)
    ensures With(Groups(ks, ds), d) == if d in ds then With(ks, d) else []
    decreases |ds|
  {
    if |ds| > 0 {
      var g := With(ks, ds[0]);
      WithConcat(g, Groups(ks, ds[1..]), d);
      assert Distinct(ds[1..]);
      WithGroups(ks, ds[1..], d);
      if ds[0] == d {
        WithAll(g, d);
        assert d !in ds[1..] by {
          forall j | 1 <= j < |ds| ensures ds[j] != d {
            assert ds[0] != ds[j];
          }
        }
      } else {
        WithNone(g, d);
        assert d in ds <==> d in ds[1..] by {
          assert ds == [ds[0]] + ds[1..];
        }
      }
    }
  }

  /** Every scene in the groups has one of the group dates. */
  lemma {:induction false} GroupsDates(ks: seq<Keyed>, ds: seq<string>)
    ensures forall i | 0 <= i < |Groups(ks, ds)| :: Groups(ks, ds)[i].1 in ds
    decreases |ds|
  {
    if |ds| > 0 {
      GroupsDates(ks, ds[1..]);
      var g := With(ks, ds[0]);
      var rest := Groups(ks, ds[1..]);
      assert forall i | 0 <= i < |rest| :: rest[i].1 in ds by {
        assert forall x | x in ds[1..] :: x in ds;
      }
    }
  }

  /** Two sorted runs, the first wholly below the second, make a sorted run. */
  lemma SortedConcat(a: seq<Keyed>, b: seq<Keyed>)
    requires SortedByStart(a) && SortedByStart(b)
    requires forall i, j | 0 <= i < |a| && 0 <= j < |b| :: LessEq(a[i].1, b[j].1)
    ensures SortedByStart(a + b)
  {
    var r := a + b;
    forall x, y | 0 <= x < y < |r| ensures LessEq(r[x].1, r[y].1) {
      if y < |a| {
        assert r[x] == a[x] && r[y] == a[y];
      } else if x >= |a| {
        assert r[x] == b[x - |a|] && r[y] == b[y - |a|];
      } else {
        assert r[x] == a[x] && r[y] == b[y - |a|];
      }
    }
  }

  /** The groups of strictly ascending dates are sorted by start. */
  lemma {:induction false} GroupsSorted(ks: seq<Keyed>, ds: seq<string>)
    requires StrictlySorted(ds)
    ensures SortedByStart(Groups(ks, ds))
    decreases |ds|
  {
    if |ds| > 0 {
      var g := With(ks, ds[0]);
      var rest := Groups(ks, ds[1..]);
      GroupsSorted(ks, ds[1..]);
      GroupsDates(ks, ds[1..]);
      forall i, j | 0 <= i < |g| && 0 <= j < |rest| ensures LessEq(g[i].1, rest[j].1) {
        var k :| 1 <= k < |ds| && ds[k] == rest[j].1 by {
          assert rest[j].1 in ds[1..];
        }
        assert Less(ds[0], ds[k]);
      }
      SortedConcat(g, rest);
    }
  }

  /** The reader's order is sorted by start text. */
  lemma ByDateSorted(ks: seq<Keyed>)
    ensures SortedByStart(ByDate(ks))
  {
    var ds := SortDistinct(FirstDates(ks));
    GroupsSorted(ks, ds);
    var u := With(ks, "");
    var g := Groups(ks, ds);
    forall i, j | 0 <= i < |u| && 0 <= j < |g| ensures LessEq(u[i].1, g[j].1) {
      assert u[i].1 == "";
    }
    SortedConcat(u, g);
  }

  /** The reader's order keeps, for every start text, exactly the scenes
      filed under it in reading order. */
  lemma ByDateStable(ks: seq<Keyed>, d: string)
    ensures With(ByDate(ks), d) == With(ks, d)
  {
    var ds := SortDistinct(FirstDates(ks));
    StrictlySortedDistinct(ds);
    WithConcat(With(ks, ""), Groups(ks, ds), d);
    WithGroups(ks, ds, d);
    if d == "" {
      WithAll(With(ks, ""), d);
      assert "" !in Elems(ds);
    } else {
      WithNone(With(ks, ""), d);
      if d !in ds {
        assert d !in Elems(ds);
        assert d !in StartsOf(ks);
        WithNone(ks, d);
      }
    }
  }

  /** How often a scene occurs is decided within its own date group. */
  lemma {:induction false} CountWithin(ks: seq<Keyed>, k: Keyed)
    ensures multiset(ks)[k] == multiset(With(ks, k.1))[k]
    decreases |ks|
  {
    if |ks| > 0 {
      var init := ks[..|ks| - 1];
      var last := ks[|ks| - 1];
      assert ks == init + [last];
      CountWithin(init, k);
      WithSnoc(init, last, k.1);
    }
  }

  /** The reader's order is a permutation of the scenes. */
  lemma ByDatePermutes(ks: seq<Keyed>)
    ensures multiset(ByDate(ks)) == multiset(ks)
  {
    var r := ByDate(ks);
    forall k ensures multiset(r)[k] == multiset(ks)[k] {
      CountWithin(r, k);
      CountWithin(ks, k);
      ByDateStable(ks, k.1);
    }
  }
}
