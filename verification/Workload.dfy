/**
 The workload transform: keep the events above the watermark, choose the window start, aggregate by attribution.
 CPU and duration are kept as the integer microseconds the events carry.
 */
module Workload {
  import opened Common
  import opened Attribution
  import opened Merge
  import opened WorkloadMetrics

  datatype Event = Event(time: int, who: Who, cpu: int, duration: int, logicalReads: int, writes: int, rows: int)

  datatype FactKey = FactKey(instance: string, window: int, code: string)
  type FactRow = Row<FactKey, Who, Metrics>
  type Facts = Table<FactKey, Who, Metrics>

  function One(e: Event): Metrics {
    Metrics(1, e.cpu, e.duration, e.logicalReads, e.writes, e.rows)
  }

  function Total(events: seq<Event>): Metrics {
    if events == [] then ZERO else Plus(Total(events[..|events| - 1]), One(events[|events| - 1]))
  }

  function TotalOf(events: seq<Event>, who: Who): Metrics {
    if events == [] then ZERO
    else
      var n := |events| - 1;
      var before := TotalOf(events[..n], who);
      if events[n].who == who then Plus(before, One(events[n])) else before
  }

  function Whos(events: seq<Event>): seq<Who> {
    seq(|events|, i requires 0 <= i < |events| => events[i].who)
  }

  /** The rows of one instance. */
  function Mine(t: Facts, instance: string): Facts {
    map k | k in t && k.instance == instance :: t[k]
  }

  /** The rows of one window of one instance. */
  function WindowOf(t: Facts, instance: string, window: int): Facts {
    map k | k in t && k.instance == instance && k.window == window :: t[k]
  }

  /** An event counts only strictly above the watermark. */
  predicate IsNewer(e: Event, watermark: Option<int>) {
    watermark.None? || e.time > watermark.value
  }

  function Newer(events: seq<Event>, watermark: Option<int>): seq<Event> {
    if events == [] then []
    else
      var n := |events| - 1;
      Newer(events[..n], watermark) + if IsNewer(events[n], watermark) then [events[n]] else []
  }

  function MinTime(events: seq<Event>): (m: int)
    requires events != []
    ensures exists i :: 0 <= i < |events| && events[i].time == m
    ensures forall i :: 0 <= i < |events| ==> m <= events[i].time
  {
    var n := |events| - 1;
    if n == 0 then events[0].time
    else
      var before := MinTime(events[..n]);
      assert exists i :: 0 <= i < n && events[..n][i].time == before && events[i].time == before;
      if events[n].time < before then events[n].time else before
  }

  function WindowStart(events: seq<Event>, watermark: Option<int>): int
    requires events != []
  {
    if watermark.Some? then watermark.value else MinTime(events)
  }

  function GroupRow(instance: string, window: int, events: seq<Event>, who: Who): FactRow {
    Row(FactKey(instance, window, Code(who)), who, TotalOf(events, who))
  }

  /** One row per attribution, in order of first occurrence. */
  function GroupRows(instance: string, window: int, events: seq<Event>): seq<FactRow> {
    var whos := FirstOccurrences(Whos(events));
    seq(|whos|, i requires 0 <= i < |whos| => GroupRow(instance, window, events, whos[i]))
  }

  /** What transform returns. */
  function RowsOf(instance: string, watermark: Option<int>, fetched: seq<Event>): seq<FactRow> {
    var events := Newer(fetched, watermark);
    if events == [] then [] else GroupRows(instance, WindowStart(events, watermark), events)
  }

  lemma {:induction false} NewerMembers(events: seq<Event>, watermark: Option<int>)
    ensures forall e :: e in Newer(events, watermark) <==> e in events && IsNewer(e, watermark)
  {
    if events != [] {
      var n := |events| - 1;
      NewerMembers(events[..n], watermark);
      assert events == events[..n] + [events[n]];
    }
  }

  /** Each event above the watermark is kept as often as it occurs ... */
  lemma {:induction false} NewerCounts(events: seq<Event>, watermark: Option<int>, e: Event)
    ensures multiset(Newer(events, watermark))[e]
         == if watermark.None? || e.time > watermark.value then multiset(events)[e] else 0
  {
    if events != [] {
      var n := |events| - 1;
      var kept := Newer(events[..n], watermark);
      NewerCounts(events[..n], watermark, e);
      assert events == events[..n] + [events[n]];
      assert multiset(events) == multiset(events[..n]) + multiset{events[n]};
      if IsNewer(events[n], watermark) {
        assert multiset(kept + [events[n]]) == multiset(kept) + multiset{events[n]};
      } else {
        assert Newer(events, watermark) == kept;
      }
    }
  }

  /** ... and in its place: wherever the events are divided, so are the ones kept. */
  lemma {:induction false} NewerDivides(s: seq<Event>, t: seq<Event>, watermark: Option<int>)
    ensures Newer(s + t, watermark) == Newer(s, watermark) + Newer(t, watermark)
  {
    if t == [] {
      assert s + t == s;
    } else {
      var n := |t| - 1;
      NewerDivides(s, t[..n], watermark);
      assert (s + t)[..|s| + n] == s + t[..n];
      assert (s + t)[|s| + n] == t[n];
    }
  }

  lemma {:induction false} NewerGrows(s: seq<Event>, t: seq<Event>, watermark: Option<int>)
    requires s <= t
    ensures Newer(s, watermark) <= Newer(t, watermark)
  {
    if |s| < |t| {
      assert s <= t[..|t| - 1];
      NewerGrows(s, t[..|t| - 1], watermark);
    } else {
      assert s == t;
    }
  }

  /** Grouping longer input leads with the same keys and attributions, only the sums move. */
  lemma GroupRowsGrow(instance: string, window: int, s: seq<Event>, t: seq<Event>)
    requires s <= t
    ensures Leads(GroupRows(instance, window, s), GroupRows(instance, window, t))
  {
    assert Whos(s) <= Whos(t);
    FirstOccurrencesGrow(Whos(s), Whos(t));
  }

  // ---------- Conservation through the grouping loop ----------

  function SumGroups(whos: seq<Who>, events: seq<Event>): Metrics {
    if whos == [] then ZERO
    else Plus(SumGroups(whos[..|whos| - 1], events), TotalOf(events, whos[|whos| - 1]))
  }

  lemma TotalOfSnoc(events: seq<Event>, e: Event, who: Who)
    ensures e.who == who ==> TotalOf(events + [e], who) == Plus(TotalOf(events, who), One(e))
    ensures e.who != who ==> TotalOf(events + [e], who) == TotalOf(events, who)
  {
    assert (events + [e])[..|events|] == events;
  }

  /** A new event leaves the other groups alone ... */
  lemma {:induction false} SumGroupsMiss(whos: seq<Who>, events: seq<Event>, e: Event)
    requires e.who !in whos
    ensures SumGroups(whos, events + [e]) == SumGroups(whos, events)
  {
    if whos != [] {
      var n := |whos| - 1;
      SumGroupsMiss(whos[..n], events, e);
      TotalOfSnoc(events, e, whos[n]);
    }
  }

  /** ... and moves its own group's sums once. */
  lemma {:induction false} SumGroupsHit(whos: seq<Who>, events: seq<Event>, e: Event)
    requires Distinct(whos) && e.who in whos
    ensures SumGroups(whos, events + [e]) == Plus(SumGroups(whos, events), One(e))
  {
    var n := |whos| - 1;
    TotalOfSnoc(events, e, whos[n]);
    if e.who == whos[n] {
      SumGroupsMiss(whos[..n], events, e);
    } else {
      assert whos == whos[..n] + [whos[n]];
      SumGroupsHit(whos[..n], events, e);
    }
    PlusExchanges(SumGroups(whos[..n], events), TotalOf(events, whos[n]), One(e));
  }

  lemma PlusExchanges(a: Metrics, b: Metrics, c: Metrics)
    ensures Plus(Plus(a, c), b) == Plus(Plus(a, b), c) == Plus(a, Plus(b, c))
  {
  }

  lemma {:induction false} TotalOfAbsent(events: seq<Event>, who: Who)
    requires who !in Whos(events)
    ensures TotalOf(events, who) == ZERO
  {
    if events != [] {
      var n := |events| - 1;
      assert Whos(events) == Whos(events[..n]) + [events[n].who];
      TotalOfAbsent(events[..n], who);
    }
  }

  lemma GroupsConserveStep(front: seq<Event>, e: Event)
    ensures
      var before, after := FirstOccurrences(Whos(front)), FirstOccurrences(Whos(front + [e]));
      SumGroups(after, front + [e]) == Plus(SumGroups(before, front), One(e))
  {
    var whos := FirstOccurrences(Whos(front));
    assert Whos(front + [e]) == Whos(front) + [e.who];
    FirstOccurrencesSnoc(Whos(front), e.who);
    FirstOccurrencesAreTheElements(Whos(front));
    if e.who in whos {
      SumGroupsHit(whos, front, e);
    } else {
      SumGroupsNew(whos, front, e);
    }
  }

  lemma SumGroupsNew(whos: seq<Who>, front: seq<Event>, e: Event)
    requires e.who !in whos && e.who !in Whos(front)
    ensures SumGroups(whos + [e.who], front + [e]) == Plus(SumGroups(whos, front), One(e))
  {
    SumGroupsMiss(whos, front, e);
    TotalOfAbsent(front, e.who);
    TotalOfSnoc(front, e, e.who);
    assert (whos + [e.who])[..|whos|] == whos;
    PlusAssociates(One(e), ZERO, ZERO);
  }

  lemma {:induction false} GroupsConserve(events: seq<Event>)
    ensures SumGroups(FirstOccurrences(Whos(events)), events) == Total(events)
  {
    if events != [] {
      var n := |events| - 1;
      GroupsConserve(events[..n]);
      GroupsConserveStep(events[..n], events[n]);
      assert events[..n] + [events[n]] == events;
    }
  }

  lemma {:induction false} SumRowsOfGroups(instance: string, window: int, events: seq<Event>, whos: seq<Who>,
                                           rows: seq<FactRow>)
    requires |rows| == |whos|
    requires forall i :: 0 <= i < |whos| ==> rows[i] == GroupRow(instance, window, events, whos[i])
    ensures SumRows(rows) == SumGroups(whos, events)
  {
    if whos != [] {
      var n := |whos| - 1;
      SumRowsOfGroups(instance, window, events, whos[..n], rows[..n]);
    }
  }

  /** The rows transform returns add up to the events that passed the watermark, column by column. */
  lemma TransformConserves(instance: string, watermark: Option<int>, fetched: seq<Event>)
    ensures SumRows(RowsOf(instance, watermark, fetched)) == Total(Newer(fetched, watermark))
  {
    var events := Newer(fetched, watermark);
    if events != [] {
      var window := WindowStart(events, watermark);
      SumRowsOfGroups(instance, window, events, FirstOccurrences(Whos(events)), GroupRows(instance, window, events));
      GroupsConserve(events);
    }
  }

  lemma {:induction false} EveryGroupCounts(events: seq<Event>, who: Who)
    ensures TotalOf(events, who).execs >= 0
    ensures who in Whos(events) ==> TotalOf(events, who).execs >= 1
  {
    if events != [] {
      var n := |events| - 1;
      assert Whos(events) == Whos(events[..n]) + [events[n].who];
      EveryGroupCounts(events[..n], who);
    }
  }

  lemma RowsCount(instance: string, watermark: Option<int>, fetched: seq<Event>)
    ensures forall r :: r in RowsOf(instance, watermark, fetched) ==> r.measured.execs >= 1
  {
    var events := Newer(fetched, watermark);
    FirstOccurrencesAreTheElements(Whos(events));
    forall who | who in Whos(events) { EveryGroupCounts(events, who); }
  }

  /** The sum of one column of the events. */
  function Column(events: seq<Event>, column: Event -> int): int {
    if events == [] then 0 else Column(events[..|events| - 1], column) + column(events[|events| - 1])
  }

  /** Each total is the sum of its own column, and the executions are the events. */
  lemma {:induction false} TotalByColumn(events: seq<Event>)
    ensures Total(events) == Metrics(|events|,
                                     Column(events, (e: Event) => e.cpu),
                                     Column(events, (e: Event) => e.duration),
                                     Column(events, (e: Event) => e.logicalReads),
                                     Column(events, (e: Event) => e.writes),
                                     Column(events, (e: Event) => e.rows))
  {
    if events != [] { TotalByColumn(events[..|events| - 1]); }
  }

  lemma {:induction false} TotalCountsEvents(events: seq<Event>)
    ensures Total(events).execs == |events|
  {
    if events != [] { TotalCountsEvents(events[..|events| - 1]); }
  }

  // ---------- Conservation through the table ----------

  /** No two groups among the events that passed the watermark share an attribution key. */
  ghost predicate Separable(events: seq<Event>) {
    forall a, b :: a in Whos(events) && b in Whos(events) && Code(a) == Code(b) ==> a == b
  }

  /** Separable groups are exactly those whose rows carry distinct natural keys. */
  lemma SeparableIffDistinctKeys(instance: string, window: int, events: seq<Event>)
    ensures Separable(events) <==> DistinctKeys(GroupRows(instance, window, events))
  {
    var whos := FirstOccurrences(Whos(events));
    var rows := GroupRows(instance, window, events);
    FirstOccurrencesAreTheElements(Whos(events));
    if Separable(events) {
      forall i, j | 0 <= i < j < |rows| ensures rows[i].key != rows[j].key {
        DistinctAt(whos, i, j);
        assert whos[i] in Whos(events) && whos[j] in Whos(events);
      }
    } else {
      var a, b :| a in Whos(events) && b in Whos(events) && a != b && Code(a) == Code(b);
      SharedKey(whos, a, b, instance, window, events);
    }
  }

  lemma SharedKey(whos: seq<Who>, a: Who, b: Who, instance: string, window: int, events: seq<Event>)
    requires whos == FirstOccurrences(Whos(events)) && a in whos && b in whos && a != b && Code(a) == Code(b)
    ensures !DistinctKeys(GroupRows(instance, window, events))
  {
    var rows := GroupRows(instance, window, events);
    var i :| 0 <= i < |whos| && whos[i] == a;
    var j :| 0 <= j < |whos| && whos[j] == b;
    assert rows[i].key == rows[j].key;
    assert i < j || j < i;
  }

  lemma SeparableWhos(events: seq<Event>, a: Event, b: Event)
    requires Separable(events) && a in events && b in events && Code(a.who) == Code(b.who)
    ensures a.who == b.who
  {
    var i :| 0 <= i < |events| && events[i] == a;
    var j :| 0 <= j < |events| && events[j] == b;
    assert Whos(events)[i] == a.who && Whos(events)[j] == b.who;
  }

  /** Bar-free, non-NULL fields are enough. */
  lemma BarFreeSeparable(events: seq<Event>)
    requires forall e :: e in events ==> BarFree(e.who) && NonNull(e.who)
    ensures Separable(events)
  {
    forall a, b | a in Whos(events) && b in Whos(events) && Code(a) == Code(b)
      ensures a == b
    {
      var i :| 0 <= i < |events| && events[i].who == a;
      var j :| 0 <= j < |events| && events[j].who == b;
      assert events[i] in events && events[j] in events;
      CodeSeparates(a, b);
    }
  }

  /** `after` is `before` and exactly the events if their groups are separable, and lacks executions if not. */
  ghost predicate Conserved(before: Metrics, after: Metrics, events: seq<Event>) {
    && (Separable(events) ==> after == Plus(before, Total(events)))
    && (after.execs == before.execs + |events| <==> Separable(events))
    && after.execs <= before.execs + |events|
  }

  /**
   A window merged into a table that holds none of its keys adds exactly the events that passed the watermark
   when the groups are separable, and adds fewer executions than events exactly when they are not.
   */
  lemma WindowConserves(t: Facts, instance: string, watermark: Option<int>, fetched: seq<Event>)
    requires forall r :: r in RowsOf(instance, watermark, fetched) ==> r.key !in t
    ensures Conserved(SumTable(t), SumTable(UpsertAll(t, RowsOf(instance, watermark, fetched))),
                      Newer(fetched, watermark))
  {
    var events := Newer(fetched, watermark);
    RowsCount(instance, watermark, fetched);
    MergeConserves(t, RowsOf(instance, watermark, fetched));
    TransformConserves(instance, watermark, fetched);
    TotalCountsEvents(events);
    if events != [] {
      SeparableIffDistinctKeys(instance, WindowStart(events, watermark), events);
    }
  }

  /** The rows stored for a window number the logged row_count exactly when the groups are separable. */
  lemma StoredRowsMatchRowCount(instance: string, watermark: Option<int>, fetched: seq<Event>)
    ensures
      var rows := RowsOf(instance, watermark, fetched);
      |UpsertAll(map[], rows)| == |rows| <==> Separable(Newer(fetched, watermark))
  {
    var rows := RowsOf(instance, watermark, fetched);
    var events := Newer(fetched, watermark);
    DistinctKeysCounted(map[], rows);
    if events != [] {
      SeparableIffDistinctKeys(instance, WindowStart(events, watermark), events);
    }
  }
}
