/**
 The MERGE statement every collector persists with, and the loop that executes it row by row.
 A row carries its natural key, the columns written only on insert, and the columns an update overwrites.
 */
module Merge {

  datatype Row<K, A, M> = Row(key: K, fixed: A, measured: M)
  datatype Cell<A, M> = Cell(fixed: A, measured: M)
  type Table<K, A, M> = map<K, Cell<A, M>>

  /** WHEN MATCHED overwrites the measured columns only; WHEN NOT MATCHED inserts the whole row. */
  function Upsert<K, A, M>(t: Table<K, A, M>, r: Row<K, A, M>): Table<K, A, M> {
    t[r.key := Cell(if r.key in t then t[r.key].fixed else r.fixed, r.measured)]
  }

  function UpsertAll<K, A, M>(t: Table<K, A, M>, rows: seq<Row<K, A, M>>): Table<K, A, M> {
    if rows == [] then t else Upsert(UpsertAll(t, rows[..|rows| - 1]), rows[|rows| - 1])
  }

  ghost predicate Mentions<K, A, M>(rows: seq<Row<K, A, M>>, k: K) {
    exists i :: 0 <= i < |rows| && rows[i].key == k
  }

  ghost function FirstAt<K, A, M>(rows: seq<Row<K, A, M>>, k: K): (i: nat)
    requires Mentions(rows, k)
    ensures i < |rows| && rows[i].key == k
    ensures forall j :: 0 <= j < i ==> rows[j].key != k
  {
    if rows[0].key == k then 0
    else
      assert Mentions(rows[1..], k) by {
        var i :| 0 <= i < |rows| && rows[i].key == k;
        assert rows[1..][i - 1] == rows[i];
      }
      1 + FirstAt(rows[1..], k)
  }

  ghost function LastAt<K, A, M>(rows: seq<Row<K, A, M>>, k: K): (i: nat)
    requires Mentions(rows, k)
    ensures i < |rows| && rows[i].key == k
    ensures forall j :: i < j < |rows| ==> rows[j].key != k
  {
    var n := |rows| - 1;
    if rows[n].key == k then n
    else
      assert Mentions(rows[..n], k) by {
        var i :| 0 <= i < |rows| && rows[i].key == k;
        assert rows[..n][i] == rows[i];
      }
      LastAt(rows[..n], k)
  }

  /** The loop, key by key: the last row wins the measured columns, the first one the insert-only columns. */
  lemma {:induction false} UpsertAllAt<K, A, M>(t: Table<K, A, M>, rows: seq<Row<K, A, M>>, k: K)
    ensures k in UpsertAll(t, rows) <==> k in t || Mentions(rows, k)
    ensures k in t && !Mentions(rows, k) ==> UpsertAll(t, rows)[k] == t[k]
    ensures Mentions(rows, k) ==>
              UpsertAll(t, rows)[k] == Cell(if k in t then t[k].fixed else rows[FirstAt(rows, k)].fixed,
                                            rows[LastAt(rows, k)].measured)
  {
    if rows != [] {
      var n := |rows| - 1;
      var front := rows[..n];
      UpsertAllAt(t, front, k);
      assert forall i :: 0 <= i < n ==> front[i] == rows[i];
      if Mentions(front, k) {
        var i := FirstAt(front, k);
        assert rows[i].key == k;
        assert FirstAt(rows, k) == i;
        if rows[n].key != k {
          assert LastAt(rows, k) == LastAt(front, k);
        }
      } else if rows[n].key == k {
        assert FirstAt(rows, k) == n;
      } else {
        assert !Mentions(rows, k);
      }
    }
  }

  /** The rows of `part` name the same keys with the same insert-only columns as the first rows of `rows`. */
  ghost predicate Leads<K, A, M>(part: seq<Row<K, A, M>>, rows: seq<Row<K, A, M>>) {
    && |part| <= |rows|
    && forall i :: 0 <= i < |part| ==> part[i].key == rows[i].key && part[i].fixed == rows[i].fixed
  }

  /**
   A batch absorbs an earlier partial batch over the same keys, whatever numbers that one wrote.
   With part == rows this is idempotence; with part == rows[..k], a prefix followed by the whole.
   */
  lemma Absorb<K, A, M>(t: Table<K, A, M>, part: seq<Row<K, A, M>>, rows: seq<Row<K, A, M>>)
    requires Leads(part, rows)
    ensures UpsertAll(UpsertAll(t, part), rows) == UpsertAll(t, rows)
  {
    var mid := UpsertAll(t, part);
    var a, b := UpsertAll(mid, rows), UpsertAll(t, rows);
    forall k | k in a.Keys + b.Keys
      ensures k in a.Keys * b.Keys && a[k] == b[k]
    {
      UpsertAllAt(t, part, k);
      UpsertAllAt(mid, rows, k);
      UpsertAllAt(t, rows, k);
      if Mentions(part, k) {
        var i := FirstAt(part, k);
        assert rows[i].key == k;
        assert FirstAt(rows, k) == i;
      }
    }
    assert a.Keys == b.Keys;
  }

  ghost function KeysOf<K, A, M>(rows: seq<Row<K, A, M>>): set<K> {
    set r | r in rows :: r.key
  }

  /** No other key is touched, and the keys afterwards are the old ones and the batch's. */
  lemma UpsertAllKeys<K, A, M>(t: Table<K, A, M>, rows: seq<Row<K, A, M>>)
    ensures UpsertAll(t, rows).Keys == t.Keys + KeysOf(rows)
  {
    forall k
      ensures k in UpsertAll(t, rows) <==> k in t || k in KeysOf(rows)
    {
      UpsertAllAt(t, rows, k);
      if Mentions(rows, k) {
        var i :| 0 <= i < |rows| && rows[i].key == k;
        assert rows[i] in rows;
      }
    }
  }

  /** On keys the table does not hold, the batch lands beside the old rows as it would in an empty table. */
  lemma UpsertAllDisjoint<K, A, M>(t: Table<K, A, M>, rows: seq<Row<K, A, M>>)
    requires forall r :: r in rows ==> r.key !in t
    ensures UpsertAll(t, rows) == t + UpsertAll(map[], rows)
    ensures t.Keys !! UpsertAll(map[], rows).Keys
  {
    var a, b := UpsertAll(t, rows), UpsertAll(map[], rows);
    forall k
      ensures k in a <==> k in t || k in b
      ensures k in b ==> k !in t && a[k] == b[k]
      ensures k in t ==> a[k] == t[k]
    {
      UpsertAllAt(t, rows, k);
      UpsertAllAt(map[], rows, k);
      if Mentions(rows, k) {
        var i :| 0 <= i < |rows| && rows[i].key == k;
        assert rows[i] in rows;
      }
    }
  }
}
