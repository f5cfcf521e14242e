/**
 The delta view over a whole snapshot table: partitions side by side, and the single ordered pass with one
 remembered value per partition that computes the same rows.
 */
module LagScan {
  import opened Common
  import opened Deltas

  /** The key of a snapshot row: PARTITION BY columns, and the ordering time. */
  datatype SnapKey<P> = SnapKey(part: P, at: int)

  type SnapTable<P(==)> = map<SnapKey<P>, nat>

  function PartOf<P(==)>(t: SnapTable<P>, p: P): (s: Series)
    ensures forall u :: u in s <==> SnapKey(p, u) in t
    ensures forall u :: u in s ==> s[u] == t[SnapKey(p, u)]
  {
    var times := set k | k in t && k.part == p :: k.at;
    map u | u in times :: t[SnapKey(p, u)]
  }

  /** The view's rows: LAG looks only at the row's own partition. */
  function DeltaView<P(==)>(t: SnapTable<P>): map<SnapKey<P>, nat> {
    map k | k in t && k.at in View(PartOf(t, k.part)) :: View(PartOf(t, k.part))[k.at]
  }

  datatype Snap<P> = Snap(key: SnapKey<P>, value: nat)

  function TableOf<P(==)>(rows: seq<Snap<P>>): SnapTable<P> {
    if rows == [] then map[]
    else TableOf(rows[..|rows| - 1])[rows[|rows| - 1].key := rows[|rows| - 1].value]
  }

  /** Within every partition the rows come in the order of their times; partitions may interleave freely. */
  ghost predicate TimeOrdered<P>(rows: seq<Snap<P>>) {
    rows == [] ||
    (var front, r := rows[..|rows| - 1], rows[|rows| - 1];
     && TimeOrdered(front)
     && forall q :: q in front && q.key.part == r.key.part ==> q.key.at < r.key.at)
  }

  datatype Scanned<P(==)> = Scanned(last: map<P, nat>, out: map<SnapKey<P>, nat>)

  /** One row of the pass: emit a delta if the partition was met before, remember the value either way. */
  function ScanRow<P(==)>(s: Scanned<P>, r: Snap<P>): Scanned<P> {
    Scanned(s.last[r.key.part := r.value],
            if r.key.part in s.last then s.out[r.key := Delta(s.last[r.key.part], r.value)] else s.out)
  }

  function Scan<P(==)>(rows: seq<Snap<P>>): Scanned<P> {
    if rows == [] then Scanned(map[], map[]) else ScanRow(Scan(rows[..|rows| - 1]), rows[|rows| - 1])
  }

  lemma {:induction false} TableHasTheRows<P>(rows: seq<Snap<P>>)
    ensures forall k :: k in TableOf(rows) <==> exists r :: r in rows && r.key == k
  {
    if rows != [] {
      var front, r := rows[..|rows| - 1], rows[|rows| - 1];
      TableHasTheRows(front);
      assert rows == front + [r];
      forall k ensures k in TableOf(rows) <==> exists q :: q in rows && q.key == k {
        if k in TableOf(front) {
          var q :| q in front && q.key == k;
          assert q in rows;
        }
        assert r in rows;
      }
    }
  }

  /** Appending a row to a partition changes that partition only, by one row. */
  lemma PartAppend<P>(t: SnapTable<P>, k: SnapKey<P>, v: nat)
    ensures PartOf(t[k := v], k.part) == PartOf(t, k.part)[k.at := v]
  {
    var a, b := PartOf(t[k := v], k.part), PartOf(t, k.part)[k.at := v];
    forall u ensures u in a <==> u in b {
      assert u in a <==> SnapKey(k.part, u) in t[k := v];
      assert SnapKey(k.part, u) == k <==> u == k.at;
    }
    forall u | u in a ensures a[u] == b[u] {
      assert a[u] == t[k := v][SnapKey(k.part, u)];
    }
  }

  lemma PartElsewhere<P>(t: SnapTable<P>, k: SnapKey<P>, v: nat, p: P)
    requires p != k.part
    ensures PartOf(t[k := v], p) == PartOf(t, p)
  {
    var a, b := PartOf(t[k := v], p), PartOf(t, p);
    forall u ensures u in a <==> u in b {
      assert u in a <==> SnapKey(p, u) in t[k := v];
    }
    forall u | u in a ensures a[u] == b[u] {
      assert a[u] == t[k := v][SnapKey(p, u)];
    }
  }

  lemma ViewAppend(s: Series, at: int, v: nat)
    requires forall u :: u in s ==> u < at
    ensures
      View(s[at := v]) == if s == map[] then map[] else View(s)[at := Delta(s[MaxOf(s.Keys).value], v)]
  {
    var t := s[at := v];
    forall u | u in s ensures Earlier(t, u) == Earlier(s, u) {
    }
    assert Earlier(t, at) == s.Keys;
  }

  /** What the pass remembers: each partition's value at its latest time. */
  ghost predicate Remembers<P(!new)>(last: map<P, nat>, t: SnapTable<P>) {
    forall p ::
      && (p in last <==> PartOf(t, p) != map[])
      && (p in last ==> last[p] == PartOf(t, p)[MaxOf(PartOf(t, p).Keys).value])
  }

  lemma DeltaViewRowAppend<P>(t: SnapTable<P>, k: SnapKey<P>, v: nat, q: SnapKey<P>)
    requires forall u :: u in PartOf(t, k.part) ==> u < k.at
    ensures
      var part, a, b := PartOf(t, k.part), DeltaView(t[k := v]), DeltaView(t);
      && (q != k ==> (q in a <==> q in b) && (q in a ==> a[q] == b[q]))
      && k !in b && (k in a <==> part != map[])
      && (k in a ==> a[k] == Delta(part[MaxOf(part.Keys).value], v))
  {
    var part := PartOf(t, k.part);
    PartAppend(t, k, v);
    ViewAppend(part, k.at, v);
    assert k.at !in part;
    if q != k {
      if q.part == k.part {
        assert q.at != k.at;
      } else {
        PartElsewhere(t, k, v, q.part);
      }
    }
  }

  lemma RemembersAppend<P(!new)>(last: map<P, nat>, t: SnapTable<P>, k: SnapKey<P>, v: nat)
    requires Remembers(last, t)
    requires forall u :: u in PartOf(t, k.part) ==> u < k.at
    ensures Remembers(last[k.part := v], t[k := v])
  {
    var after, last' := t[k := v], last[k.part := v];
    forall p
      ensures p in last' <==> PartOf(after, p) != map[]
      ensures p in last' ==> last'[p] == PartOf(after, p)[MaxOf(PartOf(after, p).Keys).value]
    {
      if p == k.part {
        PartAppend(t, k, v);
        MaxIsUnique(PartOf(after, p).Keys, k.at);
      } else {
        PartElsewhere(t, k, v, p);
      }
    }
  }

  lemma {:induction false} ScanRemembers<P(!new)>(rows: seq<Snap<P>>)
    requires TimeOrdered(rows)
    ensures Remembers(Scan(rows).last, TableOf(rows))
  {
    if rows == [] {
      forall p: P ensures PartOf<P>(map[], p) == map[] {
      }
    } else {
      var front, r := rows[..|rows| - 1], rows[|rows| - 1];
      ScanRemembers(front);
      PartBehind(rows);
      RemembersAppend(Scan(front).last, TableOf(front), r.key, r.value);
    }
  }

  lemma PartBehind<P>(rows: seq<Snap<P>>)
    requires TimeOrdered(rows) && rows != []
    ensures
      var front, r := rows[..|rows| - 1], rows[|rows| - 1];
      forall u :: u in PartOf(TableOf(front), r.key.part) ==> u < r.key.at
  {
    TableHasTheRows(rows[..|rows| - 1]);
  }

  lemma {:induction false} ScanRowIsTheViews<P(!new)>(rows: seq<Snap<P>>, q: SnapKey<P>)
    requires TimeOrdered(rows)
    ensures SameRow(Scan(rows).out, DeltaView(TableOf(rows)), q)
  {
    if rows != [] {
      var front, r := rows[..|rows| - 1], rows[|rows| - 1];
      ScanRowIsTheViews(front, q);
      ScanRemembers(front);
      PartBehind(rows);
      DeltaViewRowAppend(TableOf(front), r.key, r.value, q);
    }
  }

  /** The one-pass form refines the view: same rows, same deltas, whatever rows of other partitions lie between. */
  lemma ScanIsTheView<P(!new)>(rows: seq<Snap<P>>)
    requires TimeOrdered(rows)
    ensures Scan(rows).out == DeltaView(TableOf(rows))
  {
    forall q ensures SameRow(Scan(rows).out, DeltaView(TableOf(rows)), q) { ScanRowIsTheViews(rows, q); }
    SameRows(Scan(rows).out, DeltaView(TableOf(rows)));
  }
}
