/** Top queries from the plan cache: the de-duplication of query_perf.py between the UNION and the MERGE. */
module QueryPerf {
  import opened Common
  import opened Merge
  import opened WorkloadMetrics

  datatype Stats = Stats(execs: int, avgCpu: int, avgDuration: int, avgReads: int, totalCpu: int, text: Option<string>)

  /** A row of the two-ranking UNION; its branches may disagree about a query the cache changed in between. */
  datatype Ranked = Ranked(hash: int, stats: Stats)

  datatype QueryKey = QueryKey(instance: string, snapshot: int, hash: int)
  type QueryRow = Row<QueryKey, (), Stats>

  function Hashes(rows: seq<Ranked>): seq<int> {
    seq(|rows|, i requires 0 <= i < |rows| => rows[i].hash)
  }

  /** Where a hash occurs first. */
  ghost predicate IsFirst(rows: seq<Ranked>, i: nat, hash: int) {
    i < |rows| && rows[i].hash == hash && forall j :: 0 <= j < i ==> rows[j].hash != hash
  }

  /** Every hash once, in order of first occurrence, with the figures of that first occurrence. */
  ghost predicate Deduplicated(instance: string, snapshot: int, rows: seq<Ranked>, out: seq<QueryRow>) {
    var hashes := FirstOccurrences(Hashes(rows));
    && |out| == |hashes|
    && forall n :: 0 <= n < |out| ==>
         out[n].key == QueryKey(instance, snapshot, hashes[n])
         && exists i: nat :: IsFirst(rows, i, hashes[n]) && out[n].measured == rows[i].stats
  }

  lemma DeduplicatedStep(instance: string, snapshot: int, rows: seq<Ranked>, out: seq<QueryRow>, r: Ranked)
    requires Deduplicated(instance, snapshot, rows, out)
    ensures r.hash in Hashes(rows) ==> Deduplicated(instance, snapshot, rows + [r], out)
    ensures r.hash !in Hashes(rows) ==>
              Deduplicated(instance, snapshot, rows + [r],
                           out + [Row(QueryKey(instance, snapshot, r.hash), (), r.stats)])
  {
    assert Hashes(rows + [r]) == Hashes(rows) + [r.hash];
    FirstOccurrencesSnoc(Hashes(rows), r.hash);
    FirstOccurrencesAreTheElements(Hashes(rows));
    forall i: nat, h | IsFirst(rows, i, h) ensures IsFirst(rows + [r], i, h) {
    }
    if r.hash !in Hashes(rows) {
      assert forall j :: 0 <= j < |rows| ==> rows[j].hash == Hashes(rows)[j];
      assert IsFirst(rows + [r], |rows|, r.hash);
    }
  }

  method Transform(instance: string, snapshot: int, rows: seq<Ranked>) returns (out: seq<QueryRow>)
    ensures Deduplicated(instance, snapshot, rows, out)
  {
    out := [];
    var seen: set<int> := {};
    for i := 0 to |rows|
      invariant Deduplicated(instance, snapshot, rows[..i], out)
      invariant forall h :: h in seen <==> h in Hashes(rows[..i])
    {
      var r := rows[i];
      DeduplicatedStep(instance, snapshot, rows[..i], out, r);
      assert rows[..i + 1] == rows[..i] + [r];
      assert Hashes(rows[..i + 1]) == Hashes(rows[..i]) + [r.hash];
      if r.hash !in seen {
        seen := seen + {r.hash};
        out := out + [Row(QueryKey(instance, snapshot, r.hash), (), r.stats)];
      }
    }
    assert rows[..|rows|] == rows;
  }

  lemma DeduplicatedKeys(instance: string, snapshot: int, rows: seq<Ranked>, out: seq<QueryRow>)
    requires Deduplicated(instance, snapshot, rows, out)
    ensures DistinctKeys(out)
    ensures forall r :: r in out ==> r.key.instance == instance && r.key.snapshot == snapshot
  {
    var hashes := FirstOccurrences(Hashes(rows));
    FirstOccurrencesAreTheElements(Hashes(rows));
    forall i, j | 0 <= i < j < |out| ensures out[i].key != out[j].key {
      DistinctAt(hashes, i, j);
    }
  }

  /** Each row has the figures of the first row with its hash, under the run's own snapshot. */
  lemma DeduplicatedFigures(instance: string, snapshot: int, rows: seq<Ranked>, out: seq<QueryRow>, r: QueryRow)
    requires Deduplicated(instance, snapshot, rows, out) && r in out
    ensures r.key.instance == instance && r.key.snapshot == snapshot
    ensures exists i :: 0 <= i < |rows| && rows[i].hash == r.key.hash && rows[i].stats == r.measured
                        && forall j :: 0 <= j < i ==> rows[j].hash != r.key.hash
  {
    var n :| 0 <= n < |out| && out[n] == r;
    var i: nat :| IsFirst(rows, i, r.key.hash) && r.measured == rows[i].stats;
    assert rows[i].hash == r.key.hash && rows[i].stats == r.measured;
  }

  /** No hash is lost, and none appears that was not there. */
  lemma DeduplicatedHashes(instance: string, snapshot: int, rows: seq<Ranked>, out: seq<QueryRow>, h: int)
    requires Deduplicated(instance, snapshot, rows, out)
    ensures (exists r :: r in rows && r.hash == h) <==> (exists r :: r in out && r.key.hash == h)
  {
    var hashes := FirstOccurrences(Hashes(rows));
    FirstOccurrencesAreTheElements(Hashes(rows));
    if r :| r in rows && r.hash == h {
      var i :| 0 <= i < |rows| && rows[i] == r;
      assert Hashes(rows)[i] == h;
      assert h in hashes;
      var n :| 0 <= n < |hashes| && hashes[n] == h;
      assert out[n] in out;
    }
    if r :| r in out && r.key.hash == h {
      var n :| 0 <= n < |out| && out[n] == r;
      assert hashes[n] in Hashes(rows);
      var i :| 0 <= i < |rows| && Hashes(rows)[i] == h;
      assert rows[i] in rows;
    }
  }

  /** At a fresh snapshot time the MERGE therefore inserts exactly row_count rows and touches no other. */
  lemma FreshSnapshotInserts(t: Table<QueryKey, (), Stats>, instance: string, snapshot: int, rows: seq<Ranked>,
                             out: seq<QueryRow>)
    requires Deduplicated(instance, snapshot, rows, out)
    requires forall k :: k in t ==> k.instance != instance || k.snapshot != snapshot
    ensures |UpsertAll(t, out)| == |t| + |out|
    ensures forall k :: k in t ==> k in UpsertAll(t, out) && UpsertAll(t, out)[k] == t[k]
  {
    DeduplicatedKeys(instance, snapshot, rows, out);
    DistinctKeysCounted(t, out);
    UpsertAllDisjoint(t, out);
  }
}
