/** The delta views over a snapshot table that a purge is working on: what changes, what cannot, and by how much. */
module PurgedDeltas {
  import opened Common
  import opened Deltas
  import opened LagScan
  import opened Purge

  /** A snapshot table some batches into its purge. */
  ghost predicate MidPurge<P>(before: SnapTable<P>, now: SnapTable<P>, cutoff: int) {
    Between(before, now, (k: SnapKey<P>, v: nat) => k.at, cutoff)
  }

  /** The same for one series. */
  ghost predicate Thinned(before: Series, now: Series, cutoff: int) {
    Between(before, now, (t: int, v: nat) => t, cutoff)
  }

  lemma PartsThinned<P>(before: SnapTable<P>, now: SnapTable<P>, cutoff: int, p: P)
    requires MidPurge(before, now, cutoff)
    ensures Thinned(PartOf(before, p), PartOf(now, p), cutoff)
  {
    var a, b := PartOf(before, p), PartOf(now, p);
    forall u | u in b ensures u in a && a[u] == b[u] {
      assert SnapKey(p, u) in now;
    }
    forall u | u in a && u !in b ensures u < cutoff {
      assert SnapKey(p, u) in before && SnapKey(p, u) !in now;
    }
  }

  /** A predecessor at or after the cutoff is still there, and still the predecessor. */
  lemma PrevSurvives(before: Series, now: Series, cutoff: int, t: int)
    requires Thinned(before, now, cutoff) && t in now
    requires Prev(before, t).None? || Prev(before, t).value >= cutoff
    ensures Prev(now, t) == Prev(before, t)
  {
    var p := Prev(before, t);
    if p.Some? {
      assert IsMax(Earlier(before, t), p.value);
      assert p.value in now;
      forall u | u in now && u < t ensures u <= p.value {
        assert u in Earlier(before, t);
      }
      PrevIs(now, t, p.value);
    } else {
      assert Earlier(now, t) <= Earlier(before, t);
    }
  }

  /**
   A row's delta is the same at every intermediate state of a purge exactly when the row is the partition's
   first or its immediate predecessor is at or after the cutoff.
   */
  lemma DeltaFixedThroughoutPurge(before: Series, cutoff: int, t: int)
    requires t in before
    ensures (forall now: Series :: Thinned(before, now, cutoff) && t in now ==> SameRow(View(now), View(before), t))
            <==> Prev(before, t).None? || Prev(before, t).value >= cutoff
  {
    var p := Prev(before, t);
    if p.None? || p.value >= cutoff {
      forall now: Series | Thinned(before, now, cutoff) && t in now
        ensures SameRow(View(now), View(before), t)
      {
        PrevSurvives(before, now, cutoff, t);
      }
    } else {
      var now := before - Earlier(before, t);
      assert IsMax(Earlier(before, t), p.value);
      assert Thinned(before, now, cutoff);
      assert Earlier(now, t) == {};
      assert t in View(before) && t !in View(now);
    }
  }

  /** Each partition's reported total only shrinks along the way. */
  lemma TotalsShrink<P>(before: SnapTable<P>, now: SnapTable<P>, cutoff: int, p: P)
    requires MidPurge(before, now, cutoff)
    ensures Total(PartOf(now, p)) <= Total(PartOf(before, p))
  {
    var a, b := PartOf(before, p), PartOf(now, p);
    PartsThinned(before, now, cutoff, p);
    var gone := a.Keys - b.Keys;
    assert b == a - gone;
    DroppingMany(a, gone);
  }

  // ---------- A row that reports more in between ----------

  /** Without the rows between `q` and `t`, the row at `t` would report more than it does. */
  predicate RisesOver(s: Series, cutoff: int, q: int, t: int) {
    && q in s && t in s && Prev(s, t).Some?
    && q < Prev(s, t).value < cutoff
    && Delta(s[q], s[t]) > Delta(s[Prev(s, t).value], s[t])
  }

  /** It takes a predecessor without a reset after it, and an older reading below it or above the row's own. */
  lemma DeltaRises(older: nat, previous: nat, current: nat)
    ensures Delta(older, current) > Delta(previous, current)
            <==> previous <= current && (older < previous || (current < older && previous > 0))
  {
  }

  /** The row at `t` reports more than before the purge. */
  ghost predicate Spikes(before: Series, now: Series, t: int) {
    t in View(before) && t in View(now) && View(now)[t] > View(before)[t]
  }

  lemma PrevFacts(s: Series, t: int)
    requires Prev(s, t).Some?
    ensures Prev(s, t).value in s && Prev(s, t).value < t
    ensures forall u :: u in s && u < t ==> u <= Prev(s, t).value
  {
    assert IsMax(Earlier(s, t), Prev(s, t).value);
    forall u | u in s && u < t ensures u <= Prev(s, t).value {
      assert u in Earlier(s, t);
    }
  }

  lemma SpikeSource(before: Series, now: Series, cutoff: int, t: int)
    requires Thinned(before, now, cutoff) && Spikes(before, now, t)
    ensures
      var q := Prev(now, t).value;
      RisesOver(before, cutoff, q, t) && q in now && forall u :: u in before && q < u < t ==> u !in now
  {
    PrevFacts(before, t);
    PrevFacts(now, t);
    OlderSource(before, now, cutoff, Prev(before, t).value, Prev(now, t).value, t);
  }

  lemma OlderSource(before: Series, now: Series, cutoff: int, p: int, q: int, t: int)
    requires Thinned(before, now, cutoff) && p in before && q in now && p < t && q < t && t in now
    requires (forall u :: u in before && u < t ==> u <= p) && forall u :: u in now && u < t ==> u <= q
    requires Delta(now[q], now[t]) > Delta(before[p], before[t])
    ensures q < p < cutoff && forall u :: u in before && q < u < t ==> u !in now
  {
    assert q in before && before[q] == now[q] && before[t] == now[t];
    assert q != p;
    assert p !in now;
  }

  lemma SpikeWithout(before: Series, now: Series, cutoff: int, q: int, t: int)
    requires RisesOver(before, cutoff, q, t) && Thinned(before, now, cutoff)
    requires q in now && t in now && forall u :: u in before && q < u < t ==> u !in now
    ensures Spikes(before, now, t)
  {
    PrevFacts(before, t);
    PrevIs(now, t, q);
  }

  lemma SpikeReached(before: Series, cutoff: int, q: int, t: int) returns (now: Series)
    requires RisesOver(before, cutoff, q, t)
    ensures Thinned(before, now, cutoff) && Spikes(before, now, t)
  {
    PrevFacts(before, t);
    var gap := set u | u in before && q < u < t;
    assert forall u :: u in gap ==> u < cutoff;
    now := before - gap;
    SpikeWithout(before, now, cutoff, q, t);
  }

  /**
   A row can report more in the middle of a purge than before it exactly when its predecessor may go and some older
   row would give it a greater delta.
   */
  lemma MidPurgeSpike(before: Series, cutoff: int, t: int)
    ensures (exists now: Series :: Thinned(before, now, cutoff) && Spikes(before, now, t))
            <==> exists q :: RisesOver(before, cutoff, q, t)
  {
    if now: Series :| Thinned(before, now, cutoff) && Spikes(before, now, t) {
      SpikeSource(before, now, cutoff, t);
      assert RisesOver(before, cutoff, Prev(now, t).value, t);
    }
    if q :| RisesOver(before, cutoff, q, t) {
      var now := SpikeReached(before, cutoff, q, t);
    }
  }

  lemma ARowCanRise() returns (s: Series, cutoff: int, q: int, t: int)
    ensures RisesOver(s, cutoff, q, t)
  {
    s, cutoff, q, t := map[1 := 0, 2 := 5, 9 := 6], 3, 1, 9;
    PrevIs(s, 9, 2);
  }

  // ---------- ... after a single batch ----------

  /** The rows a DELETE with this cutoff may take. */
  function Old<P(==)>(t: SnapTable<P>, cutoff: int): set<SnapKey<P>> {
    Eligible(t, (k: SnapKey<P>, v: nat) => k.at, cutoff)
  }

  /** A snapshot table after one DELETE TOP (n). */
  ghost predicate SnapBatch<P>(before: SnapTable<P>, now: SnapTable<P>, cutoff: int, n: nat) {
    Batch(before, now, (k: SnapKey<P>, v: nat) => k.at, cutoff, n)
  }

  /** The rows of the key's partition after `q` and before the key. */
  function Gap<P(==)>(t: SnapTable<P>, q: int, k: SnapKey<P>): set<SnapKey<P>> {
    set u | u in t && u.part == k.part && q < u.at < k.at
  }

  /** A batch of n has room for the gap down to `q`, and enough other rows to spare `q` and the row itself. */
  predicate BatchReaches<P(==)>(t: SnapTable<P>, cutoff: int, n: nat, q: int, k: SnapKey<P>) {
    && RisesOver(PartOf(t, k.part), cutoff, q, k.at)
    && |Gap(t, q, k)| <= Min(n, |Old(t, cutoff)|) <= |Old(t, cutoff) - {SnapKey(k.part, q), k}|
  }

  lemma Sizes<K>(part: set<K>, whole: set<K>)
    requires part <= whole
    ensures |part| <= |whole| && |whole - part| == |whole| - |part|
  {
    assert whole == part + (whole - part);
  }

  lemma GapTaken<P>(before: SnapTable<P>, now: SnapTable<P>, cutoff: int, q: int, k: SnapKey<P>)
    requires MidPurge(before, now, cutoff) && SnapKey(k.part, q) in now && k in now
    requires forall u :: u in PartOf(before, k.part) && q < u < k.at ==> u !in PartOf(now, k.part)
    ensures Gap(before, q, k) <= before.Keys - now.Keys <= Old(before, cutoff) - {SnapKey(k.part, q), k}
  {
    forall u | u in before && u.part == k.part
      ensures u.at in PartOf(before, k.part) && (u in now ==> u.at in PartOf(now, k.part))
    {
      assert u == SnapKey(k.part, u.at);
    }
  }

  lemma BatchReached<P>(before: SnapTable<P>, now: SnapTable<P>, cutoff: int, n: nat, k: SnapKey<P>)
    returns (q: int)
    requires SnapBatch(before, now, cutoff, n) && Spikes(PartOf(before, k.part), PartOf(now, k.part), k.at)
    ensures BatchReaches(before, cutoff, n, q, k)
  {
    var a, b, doomed := PartOf(before, k.part), PartOf(now, k.part), before.Keys - now.Keys;
    PartsThinned(before, now, cutoff, k.part);
    SpikeSource(a, b, cutoff, k.at);
    q := Prev(b, k.at).value;
    assert k == SnapKey(k.part, k.at);
    GapTaken(before, now, cutoff, q, k);
    Sizes(Gap(before, q, k), doomed);
    Sizes(doomed, Old(before, cutoff) - {SnapKey(k.part, q), k});
  }

  lemma WithoutGap<P>(before: SnapTable<P>, now: SnapTable<P>, cutoff: int, q: int, k: SnapKey<P>)
    requires RisesOver(PartOf(before, k.part), cutoff, q, k.at) && MidPurge(before, now, cutoff)
    requires SnapKey(k.part, q) in now && k in now && forall u :: u in Gap(before, q, k) ==> u !in now
    ensures Spikes(PartOf(before, k.part), PartOf(now, k.part), k.at)
  {
    var a, b := PartOf(before, k.part), PartOf(now, k.part);
    PartsThinned(before, now, cutoff, k.part);
    assert k == SnapKey(k.part, k.at);
    forall u | u in a && q < u < k.at ensures u !in b {
      assert SnapKey(k.part, u) in Gap(before, q, k);
    }
    SpikeWithout(a, b, cutoff, q, k.at);
  }

  lemma GapIsOld<P>(before: SnapTable<P>, cutoff: int, q: int, k: SnapKey<P>)
    requires RisesOver(PartOf(before, k.part), cutoff, q, k.at)
    ensures SnapKey(k.part, q) in before && k in before
    ensures Gap(before, q, k) <= Old(before, cutoff) - {SnapKey(k.part, q), k}
  {
    var a := PartOf(before, k.part);
    PrevFacts(a, k.at);
    assert k == SnapKey(k.part, k.at);
    forall u | u in Gap(before, q, k) ensures u.at < cutoff {
      assert u == SnapKey(k.part, u.at) && u.at in a;
    }
  }

  lemma RemovingOld<P>(before: SnapTable<P>, cutoff: int, n: nat, doomed: set<SnapKey<P>>)
    requires doomed <= Old(before, cutoff) && |doomed| == Min(n, |Old(before, cutoff)|)
    ensures SnapBatch(before, before - doomed, cutoff, n) && MidPurge(before, before - doomed, cutoff)
  {
    var now := before - doomed;
    assert forall u :: u in doomed ==> u in before && u.at < cutoff;
    assert MidPurge(before, now, cutoff);
    assert before.Keys - now.Keys == doomed;
  }

  lemma ReachingBatch<P>(before: SnapTable<P>, cutoff: int, n: nat, q: int, k: SnapKey<P>)
    returns (now: SnapTable<P>)
    requires BatchReaches(before, cutoff, n, q, k)
    ensures SnapBatch(before, now, cutoff, n) && Spikes(PartOf(before, k.part), PartOf(now, k.part), k.at)
  {
    var gap, spared := Gap(before, q, k), Old(before, cutoff) - {SnapKey(k.part, q), k};
    GapIsOld(before, cutoff, q, k);
    Sizes(gap, spared);
    var more := SubsetOfSize(spared - gap, Min(n, |Old(before, cutoff)|) - |gap|);
    var doomed := gap + more;
    now := before - doomed;
    assert |doomed| == |gap| + |more|;
    RemovingOld(before, cutoff, n, doomed);
    WithoutGap(before, now, cutoff, q, k);
  }

  /** After some choice of the n rows, the row reports more than before. */
  ghost predicate BatchCanSpike<P(!new)>(before: SnapTable<P>, cutoff: int, n: nat, k: SnapKey<P>) {
    exists now :: SnapBatch(before, now, cutoff, n) && Spikes(PartOf(before, k.part), PartOf(now, k.part), k.at)
  }

  /**
   One DELETE TOP (n) of the purge can make a row report more than before exactly when some older row of its
   partition would give it a greater delta and the batch can take all rows between the two but neither of them.
   */
  lemma BatchSpike<P(!new)>(before: SnapTable<P>, cutoff: int, n: nat, k: SnapKey<P>)
    ensures BatchCanSpike(before, cutoff, n, k) <==> exists q :: BatchReaches(before, cutoff, n, q, k)
  {
    if now :| SnapBatch(before, now, cutoff, n) && Spikes(PartOf(before, k.part), PartOf(now, k.part), k.at) {
      var q := BatchReached(before, now, cutoff, n, k);
    }
    if q :| BatchReaches(before, cutoff, n, q, k) {
      var now := ReachingBatch(before, cutoff, n, q, k);
    }
  }

  /** A batch that clears the table reaches no row; one that leaves two old rows and has room for the gap does. */
  lemma SizeDecides<P>(t: SnapTable<P>, cutoff: int, n: nat, q: int, k: SnapKey<P>)
    requires RisesOver(PartOf(t, k.part), cutoff, q, k.at)
    ensures |Old(t, cutoff)| <= n ==> !BatchReaches(t, cutoff, n, q, k)
    ensures |Gap(t, q, k)| <= n && n + 2 <= |Old(t, cutoff)| ==> BatchReaches(t, cutoff, n, q, k)
  {
    var all, pair := Old(t, cutoff), {SnapKey(k.part, q), k};
    GapIsOld(t, cutoff, q, k);
    PrevFacts(PartOf(t, k.part), k.at);
    assert SnapKey(k.part, q) in all;
    Sizes(all * pair, all);
    Sizes(all * pair, pair);
    assert all - all * pair == all - pair;
    assert SnapKey(k.part, q) in all * pair;
  }

  /** n old rows more, one in each of n new partitions. */
  lemma {:induction false} Crowd(t: SnapTable<nat>, cutoff: int, first: nat, n: nat) returns (crowded: SnapTable<nat>)
    requires forall k :: k in t ==> k.part < first
    ensures forall k :: k in crowded ==> k.part < first + n
    ensures forall k :: k in t ==> k in crowded && crowded[k] == t[k]
    ensures forall k :: k in crowded && k.part < first ==> k in t
    ensures |Old(crowded, cutoff)| == |Old(t, cutoff)| + n
  {
    crowded := t;
    if n > 0 {
      var fewer := Crowd(t, cutoff, first, n - 1);
      var k: SnapKey<nat> := SnapKey(first + n - 1, cutoff - 1);
      crowded := fewer[k := 0];
      assert Old(crowded, cutoff) == Old(fewer, cutoff) + {k};
    }
  }

  /**
   Every row that could rise does so in some table of the purge's batch size: the same partition beside enough old
   rows of others.
   */
  lemma EveryRiseOccurs(t: SnapTable<nat>, cutoff: int, q: int, k: SnapKey<nat>, first: nat)
    returns (crowded: SnapTable<nat>)
    requires RisesOver(PartOf(t, k.part), cutoff, q, k.at) && |Gap(t, q, k)| <= BATCH_SIZE
    requires k.part < first && forall u :: u in t ==> u.part < first
    ensures PartOf(crowded, k.part) == PartOf(t, k.part) && BatchCanSpike(crowded, cutoff, BATCH_SIZE, k)
  {
    crowded := Crowd(t, cutoff, first, BATCH_SIZE + 2);
    forall u ensures SnapKey(k.part, u) in crowded <==> SnapKey(k.part, u) in t {
    }
    assert PartOf(crowded, k.part) == PartOf(t, k.part);
    assert Gap(crowded, q, k) == Gap(t, q, k);
    SizeDecides(crowded, cutoff, BATCH_SIZE, q, k);
    BatchSpike(crowded, cutoff, BATCH_SIZE, k);
  }

  // ---------- Once finished ----------

  /** The view's rows whose predecessor is at or after the cutoff. */
  function Surviving(s: Series, cutoff: int): map<int, nat> {
    map t | t in View(s) && Prev(s, t).value >= cutoff :: View(s)[t]
  }

  function KeptSeries(s: Series, cutoff: int): Series {
    Kept(s, (t: int, v: nat) => t, cutoff)
  }

  lemma PrevAfterPurge(s: Series, cutoff: int, t: int)
    requires t in KeptSeries(s, cutoff) && Prev(KeptSeries(s, cutoff), t).Some?
    ensures Prev(s, t) == Prev(KeptSeries(s, cutoff), t) && Prev(s, t).value >= cutoff
  {
    var now := KeptSeries(s, cutoff);
    var p := Prev(now, t).value;
    assert IsMax(Earlier(now, t), p);
    forall u | u in s && u < t ensures u <= p {
      if u >= cutoff { assert u in Earlier(now, t); }
    }
    PrevIs(s, t, p);
  }

  lemma SurvivingRow(s: Series, cutoff: int, t: int)
    ensures SameRow(View(KeptSeries(s, cutoff)), Surviving(s, cutoff), t)
  {
    var now := KeptSeries(s, cutoff);
    if t in Surviving(s, cutoff) {
      assert IsMax(Earlier(s, t), Prev(s, t).value);
      PrevSurvives(s, now, cutoff, t);
    } else if t in View(now) {
      PrevAfterPurge(s, cutoff, t);
    }
  }

  /** Once finished, the view is the old one without the rows whose predecessor the purge took. */
  lemma ViewAfterPurge(s: Series, cutoff: int)
    ensures View(KeptSeries(s, cutoff)) == Surviving(s, cutoff)
  {
    forall t ensures SameRow(View(KeptSeries(s, cutoff)), Surviving(s, cutoff), t) { SurvivingRow(s, cutoff, t); }
    SameRows(View(KeptSeries(s, cutoff)), Surviving(s, cutoff));
  }

  /** The purge of a snapshot table: whatever batches the server picks, each partition keeps its recent rows. */
  method PurgeSnapshots<P(==)>(t: SnapTable<P>, cutoffs: nat -> int) returns (now: SnapTable<P>, deletes: nat)
    requires forall i, j :: i <= j ==> cutoffs(i) <= cutoffs(j)
    ensures deletes >= 1
    ensures forall p :: PartOf(now, p) == KeptSeries(PartOf(t, p), cutoffs(deletes - 1))
  {
    var table := new RetainedTable(t, (k: SnapKey<P>, v: nat) => k.at);
    deletes := table.Purge(cutoffs);
    now := table.rows;
  }
}
