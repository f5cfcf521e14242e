/** The measured columns of fact_workload and their sums over rows and over tables. */
module WorkloadMetrics {
  import opened Merge

  datatype Metrics = Metrics(execs: int, cpu: int, duration: int, logicalReads: int, writes: int, rows: int)

  const ZERO := Metrics(0, 0, 0, 0, 0, 0)

  function Plus(a: Metrics, b: Metrics): Metrics {
    Metrics(a.execs + b.execs, a.cpu + b.cpu, a.duration + b.duration,
            a.logicalReads + b.logicalReads, a.writes + b.writes, a.rows + b.rows)
  }

  lemma PlusAssociates(a: Metrics, b: Metrics, c: Metrics)
    ensures Plus(Plus(a, b), c) == Plus(a, Plus(b, c))
    ensures Plus(a, ZERO) == a && Plus(a, b) == Plus(b, a)
  {
  }

  /** What is stored falls short of the truth in executions unless `exact`, and equals it if `exact`. */
  ghost predicate Accounts(stored: Metrics, truth: Metrics, exact: bool) {
    && stored.execs <= truth.execs
    && (exact <==> stored.execs == truth.execs)
    && (exact ==> stored == truth)
  }

  /** What is stored has at least the true executions, and the very sums if and only if `exact`. */
  ghost predicate Overcounts(stored: Metrics, truth: Metrics, exact: bool) {
    && stored.execs >= truth.execs
    && (exact <==> stored.execs == truth.execs)
    && (exact ==> stored == truth)
  }

  function Times(n: nat, m: Metrics): Metrics {
    if n == 0 then ZERO else Plus(Times(n - 1, m), m)
  }

  function SumRows<K, A>(rows: seq<Row<K, A, Metrics>>): Metrics {
    if rows == [] then ZERO else Plus(SumRows(rows[..|rows| - 1]), rows[|rows| - 1].measured)
  }

  /** Sum over all rows of a table; the order in which SQL visits them does not matter (`SumAt`). */
  ghost function SumTable<K, A>(t: Table<K, A, Metrics>): Metrics {
    if t == map[] then ZERO
    else Plus(t[AnyKey(t)].measured, SumTable(t - {AnyKey(t)}))
  }

  ghost function AnyKey<K, V>(t: map<K, V>): (k: K)
    requires t != map[]
    ensures k in t
  {
    var k :| k in t;
    k
  }

  lemma {:induction false} SumAt<K, A>(t: Table<K, A, Metrics>, k: K)
    requires k in t
    ensures SumTable(t) == Plus(t[k].measured, SumTable(t - {k}))
    decreases |t|
  {
    var p := AnyKey(t);
    if p != k {
      var tp, tk := t - {p}, t - {k};
      SumAt(tp, k);
      SumAt(tk, p);
      assert tp - {k} == tk - {p};
      assert SumTable(tp) == Plus(t[k].measured, SumTable(tp - {k}));
      assert SumTable(tk) == Plus(t[p].measured, SumTable(tk - {p}));
    }
  }

  /** One MERGE adds its row's numbers, after taking away those it overwrites. */
  lemma SumUpsert<K, A>(t: Table<K, A, Metrics>, r: Row<K, A, Metrics>)
    ensures r.key !in t ==> SumTable(Upsert(t, r)) == Plus(SumTable(t), r.measured)
    ensures r.key in t ==> Plus(SumTable(Upsert(t, r)), t[r.key].measured) == Plus(SumTable(t), r.measured)
  {
    var u := Upsert(t, r);
    SumAt(u, r.key);
    assert u - {r.key} == t - {r.key};
    if r.key in t {
      SumAt(t, r.key);
    } else {
      assert t - {r.key} == t;
    }
  }

  /** The sum of one column over the rows of a table or of a view. */
  ghost function SumBy<K, V>(t: map<K, V>, column: V -> int): int {
    if t == map[] then 0 else column(t[AnyKey(t)]) + SumBy(t - {AnyKey(t)}, column)
  }

  /** The sums of a table are the sums of its columns. */
  lemma {:induction false} SumTableByColumn<K, A>(t: Table<K, A, Metrics>)
    ensures SumTable(t) == Metrics(SumBy(t, (c: Cell<A, Metrics>) => c.measured.execs),
                                   SumBy(t, (c: Cell<A, Metrics>) => c.measured.cpu),
                                   SumBy(t, (c: Cell<A, Metrics>) => c.measured.duration),
                                   SumBy(t, (c: Cell<A, Metrics>) => c.measured.logicalReads),
                                   SumBy(t, (c: Cell<A, Metrics>) => c.measured.writes),
                                   SumBy(t, (c: Cell<A, Metrics>) => c.measured.rows))
    decreases |t|
  {
    if t != map[] { SumTableByColumn(t - {AnyKey(t)}); }
  }

  /** The same keys with the same numbers. */
  ghost predicate SameMeasured<K, A, M>(a: Table<K, A, M>, b: Table<K, A, M>) {
    a.Keys == b.Keys && forall k :: k in a && k in b ==> a[k].measured == b[k].measured
  }

  lemma {:induction false} SumOfMeasured<K, A>(a: Table<K, A, Metrics>, b: Table<K, A, Metrics>)
    requires SameMeasured(a, b)
    ensures SumTable(a) == SumTable(b)
    decreases |a|
  {
    if a == map[] {
      assert b == map[];
    } else {
      var k := AnyKey(a);
      SumAt(b, k);
      SumOfMeasured(a - {k}, b - {k});
    }
  }

  ghost predicate DistinctKeys<K, A, M>(rows: seq<Row<K, A, M>>) {
    forall i, j :: 0 <= i < j < |rows| ==> rows[i].key != rows[j].key
  }

  lemma DistinctKeysSnoc<K, A, M>(rows: seq<Row<K, A, M>>)
    requires rows != []
    ensures
      var n := |rows| - 1;
      DistinctKeys(rows) <==> DistinctKeys(rows[..n]) && !Mentions(rows[..n], rows[n].key)
  {
    var n := |rows| - 1;
    var front := rows[..n];
    assert forall i :: 0 <= i < n ==> front[i] == rows[i];
    if Mentions(front, rows[n].key) {
      var i :| 0 <= i < n && front[i].key == rows[n].key;
      assert rows[i].key == rows[n].key;
    }
  }

  lemma MergedCell<K, A>(t: Table<K, A, Metrics>, rows: seq<Row<K, A, Metrics>>, k: K)
    requires k !in t
    requires forall r :: r in rows ==> r.measured.execs >= 1
    ensures k in UpsertAll(t, rows) <==> Mentions(rows, k)
    ensures k in UpsertAll(t, rows) ==> UpsertAll(t, rows)[k].measured.execs >= 1
  {
    UpsertAllAt(t, rows, k);
    if Mentions(rows, k) {
      assert rows[LastAt(rows, k)] in rows;
    }
  }

  /**
   Merging a batch whose keys the table does not hold adds the batch's sums when those keys are distinct, and
   loses executions otherwise: a row whose key was already taken overwrites the earlier row's numbers.
   */
  lemma {:induction false} MergeConserves<K, A>(t: Table<K, A, Metrics>, rows: seq<Row<K, A, Metrics>>)
    requires forall r :: r in rows ==> r.key !in t && r.measured.execs >= 1
    ensures DistinctKeys(rows) ==> SumTable(UpsertAll(t, rows)) == Plus(SumTable(t), SumRows(rows))
    ensures SumTable(UpsertAll(t, rows)).execs <= SumTable(t).execs + SumRows(rows).execs
    ensures SumTable(UpsertAll(t, rows)).execs == SumTable(t).execs + SumRows(rows).execs <==> DistinctKeys(rows)
  {
    PlusAssociates(SumTable(t), ZERO, ZERO);
    if rows != [] {
      var n := |rows| - 1;
      var front, r := rows[..n], rows[n];
      MergeConserves(t, front);
      SumUpsert(UpsertAll(t, front), r);
      MergedCell(t, front, r.key);
      DistinctKeysSnoc(rows);
      PlusAssociates(SumTable(t), SumRows(front), r.measured);
    }
  }

  /** A batch grows the table by as many rows as it has exactly when its keys are new and distinct. */
  lemma {:induction false} DistinctKeysCounted<K, A, M>(t: Table<K, A, M>, rows: seq<Row<K, A, M>>)
    ensures |UpsertAll(t, rows)| <= |t| + |rows|
    ensures |UpsertAll(t, rows)| == |t| + |rows| <==> DistinctKeys(rows) && forall r :: r in rows ==> r.key !in t
  {
    if rows != [] {
      var n := |rows| - 1;
      var front, last := rows[..n], rows[n];
      assert rows == front + [last];
      DistinctKeysCounted(t, front);
      DistinctKeysSnoc(rows);
      UpsertAllAt(t, front, last.key);
      UpsertSize(UpsertAll(t, front), last);
    }
  }

  lemma UpsertSize<K, A, M>(t: Table<K, A, M>, r: Row<K, A, M>)
    ensures |Upsert(t, r)| == |t| + if r.key in t then 0 else 1
  {
    assert Upsert(t, r).Keys == t.Keys + {r.key};
    assert |Upsert(t, r)| == |Upsert(t, r).Keys| && |t| == |t.Keys|;
  }
}
