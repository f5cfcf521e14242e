/**
 The batched purge: WHILE loops of DELETE TOP (@BatchSize) with a cutoff that the server's clock re-reads for
 every batch. The server picks the rows of a batch; nothing here depends on which.
 */
module Purge {
  import opened Common

  const BATCH_SIZE: nat := 5000

  function Eligible<K(==), V>(rows: map<K, V>, stamp: (K, V) -> int, cutoff: int): set<K> {
    set k | k in rows && stamp(k, rows[k]) < cutoff
  }

  /** The rows a completed purge leaves. */
  function Kept<K(==), V>(rows: map<K, V>, stamp: (K, V) -> int, cutoff: int): map<K, V> {
    map k | k in rows && stamp(k, rows[k]) >= cutoff :: rows[k]
  }

  /** A state some batches into a purge whose last cutoff so far is `cutoff`. */
  ghost predicate Between<K, V>(before: map<K, V>, now: map<K, V>, stamp: (K, V) -> int, cutoff: int) {
    && (forall k :: k in now ==> k in before && now[k] == before[k])
    && (forall k :: k in before && k !in now ==> stamp(k, before[k]) < cutoff)
  }

  function Min(a: nat, b: nat): nat {
    if a <= b then a else b
  }

  /** One DELETE TOP (n): that many of the eligible rows have gone, or all of them, whichever they are. */
  ghost predicate Batch<K, V>(before: map<K, V>, now: map<K, V>, stamp: (K, V) -> int, cutoff: int, n: nat) {
    Between(before, now, stamp, cutoff) && |before.Keys - now.Keys| == Min(n, |Eligible(before, stamp, cutoff)|)
  }

  /** How many batches of at most `size` rows it takes to delete n. */
  function Batches(n: nat, size: nat): nat
    requires size > 0
  {
    if n == 0 then 0 else 1 + Batches(n - Min(n, size), size)
  }

  /** ... which is the quotient rounded up. */
  lemma {:induction false} BatchesRoundUp(n: nat, size: nat)
    requires size > 0
    ensures size * Batches(n, size) >= n > size * (Batches(n, size) - 1)
    decreases n
  {
    if n > 0 {
      var m := Min(n, size);
      if n <= size {
        assert Batches(0, size) == 0;
        assert size * Batches(n, size) == size;
      } else {
        BatchesRoundUp(n - size, size);
        var b := Batches(n - size, size);
        assert size * (1 + b) == size + size * b;
        assert size * b == size + size * (b - 1);
      }
    }
  }

  lemma {:induction false} SubsetOfSize<K>(s: set<K>, n: nat) returns (part: set<K>)
    requires n <= |s|
    ensures part <= s && |part| == n
    decreases n
  {
    if n == 0 {
      part := {};
    } else {
      var x := AnyOf(s);
      var rest := SubsetOfSize(s - {x}, n - 1);
      part := rest + {x};
    }
  }

  /** When a DELETE finds nothing, exactly the rows at or after its cutoff are left. */
  lemma Finished<K, V>(before: map<K, V>, now: map<K, V>, stamp: (K, V) -> int, cutoff: int)
    requires Between(before, now, stamp, cutoff) && |Eligible(now, stamp, cutoff)| == 0
    ensures now == Kept(before, stamp, cutoff)
  {
    assert forall k :: k in now ==> k !in Eligible(now, stamp, cutoff);
    var kept := Kept(before, stamp, cutoff);
    assert now.Keys == kept.Keys;
  }

  class RetainedTable<K(==), V> {
    var rows: map<K, V>
    const stamp: (K, V) -> int

    constructor (rows: map<K, V>, stamp: (K, V) -> int)
      ensures this.rows == rows && this.stamp == stamp
    {
      this.rows := rows;
      this.stamp := stamp;
    }

    /** DELETE TOP (n) ... WHERE stamp < cutoff; the result is @@ROWCOUNT. */
    method DeleteTop(n: nat, cutoff: int) returns (rowCount: nat)
      modifies this`rows
      ensures rowCount == Min(n, |Eligible(old(rows), stamp, cutoff)|)
      ensures Batch(old(rows), rows, stamp, cutoff, n)
      ensures |rows| == |old(rows)| - rowCount
      ensures |Eligible(rows, stamp, cutoff)| == |Eligible(old(rows), stamp, cutoff)| - rowCount
    {
      var eligible := Eligible(rows, stamp, cutoff);
      rowCount := Min(n, |eligible|);
      assert exists part: set<K> :: part <= eligible && |part| == rowCount by {
        var part := SubsetOfSize(eligible, rowCount);
      }
      var doomed: set<K> :| doomed <= eligible && |doomed| == rowCount;
      rows := rows - doomed;
      assert rows.Keys == old(rows).Keys - doomed;
      assert old(rows).Keys - rows.Keys == doomed;
      assert Eligible(rows, stamp, cutoff) == eligible - doomed;
      assert |rows| == |rows.Keys| && |old(rows)| == |old(rows).Keys|;
    }

    /**
     The loop. `cutoffs(i)` is what the i-th DELETE computes from the clock. It ends having removed exactly the
     rows older than its last cutoff; with a clock that stands still the number of DELETEs is exact.
     */
    method Purge(cutoffs: nat -> int) returns (deletes: nat)
      requires forall i, j :: i <= j ==> cutoffs(i) <= cutoffs(j)
      modifies this`rows
      ensures deletes >= 1
      ensures rows == Kept(old(rows), stamp, cutoffs(deletes - 1))
      ensures deletes - 1 <= |old(rows)| - |rows|
      ensures (forall i :: cutoffs(i) == cutoffs(0)) ==>
                deletes == Batches(|Eligible(old(rows), stamp, cutoffs(0))|, 5000) + 1
    {
      deletes := 0;
      ghost var n := |Eligible(rows, stamp, cutoffs(0))|;
      while true
        invariant deletes > 0 ==> Between(old(rows), rows, stamp, cutoffs(deletes - 1))
        invariant deletes == 0 ==> rows == old(rows)
        invariant |rows| + deletes <= |old(rows)|
        invariant (forall i :: cutoffs(i) == cutoffs(0)) ==>
                    Batches(n, BATCH_SIZE) == deletes + Batches(|Eligible(rows, stamp, cutoffs(0))|, BATCH_SIZE)
        decreases |rows|
      {
        var cutoff := cutoffs(deletes);
        var rowCount := DeleteTop(BATCH_SIZE, cutoff);
        deletes := deletes + 1;
        if rowCount == 0 {
          break;
        }
      }
      Finished(old(rows), rows, stamp, cutoffs(deletes - 1));
    }
  }
}
