/** The ids "1", "2", … that the readers' running counters hand out. */
module Ids {
  import opened Seqs
  import opened Strings

  /** The first `n` ids of a counter that starts at 1. */
  function DenseIds(n: nat): (r: seq<string>)
    ensures |r| == n
    ensures forall k | 0 <= k < n :: r[k] == NatToString(k + 1)
  {
    seq(n, k requires 0 <= k < n => NatToString(k + 1))
  }

  /** The next id is new, and extends the sequence. */
  lemma DenseIdsNext(n: nat)
    ensures DenseIds(n + 1) == DenseIds(n) + [NatToString(n + 1)]
    ensures NatToString(n + 1) !in Elems(DenseIds(n))
  {
    assert DenseIds(n + 1) == DenseIds(n) + [NatToString(n + 1)];
    if NatToString(n + 1) in DenseIds(n) {
      var k :| 0 <= k < n && DenseIds(n)[k] == NatToString(n + 1);
      NatToStringInjective(k + 1, n + 1);
    }
  }

  lemma DenseIdsDistinct(n: nat)
    ensures Distinct(DenseIds(n))
  {
    forall a, b | 0 <= a < b < n ensures DenseIds(n)[a] != DenseIds(n)[b] {
      NatToStringInjective(a + 1, b + 1);
    }
  }

  /** The id of position `k` of a counter is "k+1" and nothing else. */
  lemma DenseIdsIndex(n: nat, k: nat, id: string)
    requires id == NatToString(k + 1)
    ensures id in Elems(DenseIds(n)) <==> k < n
  {
    if id in DenseIds(n) {
      var j :| 0 <= j < n && DenseIds(n)[j] == id;
      if j != k {
        NatToStringInjective(j + 1, k + 1);
      }
    }
    if k < n {
      assert DenseIds(n)[k] == id;
    }
  }
}
