/** rpt.workload_by_category: one window's rows summed by category, and how that composes with ingestion. */
module Rollup {
  import opened Common
  import opened Attribution
  import opened Merge
  import opened WorkloadMetrics
  import opened Workload
  import opened WorkloadCollection
  import opened History
  import opened Erasure
  import opened Provenance
  import opened Classification

  /** The columns the view shows. */
  datatype Shown = Shown(cpu: int, logicalReads: int, execs: int)

  function Show(m: Metrics): Shown {
    Shown(m.cpu, m.logicalReads, m.execs)
  }

  function ShownPlus(a: Shown, b: Shown): Shown {
    Shown(a.cpu + b.cpu, a.logicalReads + b.logicalReads, a.execs + b.execs)
  }

  function CategoryOf(classes: seq<Class>, w: Who): string {
    FirstMatch(classes, w.program)
  }

  function InCategory(t: Facts, classes: seq<Class>, category: string): Facts {
    map k | k in t && CategoryOf(classes, t[k].fixed) == category :: t[k]
  }

  function Categories(t: Facts, classes: seq<Class>): set<string> {
    set k | k in t :: CategoryOf(classes, t[k].fixed)
  }

  /** The view's rows for one (instance, window), keyed by category: GROUP BY and SUM. */
  ghost function ByCategory(t: Facts, classes: seq<Class>, instance: string, window: int): map<string, Shown> {
    var rows := WindowOf(t, instance, window);
    map c | c in Categories(rows, classes) :: Show(SumTable(InCategory(rows, classes, c)))
  }

  ghost function SumShown(v: map<string, Shown>): Shown {
    if v == map[] then Shown(0, 0, 0)
    else
      var c := AnyKey(v);
      ShownPlus(v[c], SumShown(v - {c}))
  }

  // ---------- The categories partition the window ----------

  ghost function SumOver(t: Facts, classes: seq<Class>, categories: set<string>): Metrics {
    if categories == {} then ZERO
    else
      var c := AnyOf(categories);
      Plus(SumTable(InCategory(t, classes, c)), SumOver(t, classes, categories - {c}))
  }

  lemma CategoryWithout(t: Facts, classes: seq<Class>, k: FactKey, c: string)
    requires k in t
    ensures CategoryOf(classes, t[k].fixed) == c ==>
              SumTable(InCategory(t, classes, c)) == Plus(t[k].measured, SumTable(InCategory(t - {k}, classes, c)))
    ensures CategoryOf(classes, t[k].fixed) != c ==>
              InCategory(t, classes, c) == InCategory(t - {k}, classes, c)
  {
    if CategoryOf(classes, t[k].fixed) == c {
      SumAt(InCategory(t, classes, c), k);
      assert InCategory(t, classes, c) - {k} == InCategory(t - {k}, classes, c);
    }
  }

  lemma {:induction false} SumOverElsewhere(t: Facts, classes: seq<Class>, categories: set<string>, k: FactKey)
    requires k in t && CategoryOf(classes, t[k].fixed) !in categories
    ensures SumOver(t, classes, categories) == SumOver(t - {k}, classes, categories)
    decreases categories
  {
    if categories != {} {
      var c := AnyOf(categories);
      CategoryWithout(t, classes, k, c);
      SumOverElsewhere(t, classes, categories - {c}, k);
    }
  }

  lemma {:induction false} SumOverWithout(t: Facts, classes: seq<Class>, categories: set<string>, k: FactKey)
    requires k in t && CategoryOf(classes, t[k].fixed) in categories
    ensures SumOver(t, classes, categories) == Plus(t[k].measured, SumOver(t - {k}, classes, categories))
    decreases categories
  {
    var c := AnyOf(categories);
    var rest := categories - {c};
    CategoryWithout(t, classes, k, c);
    if CategoryOf(classes, t[k].fixed) == c {
      SumOverElsewhere(t, classes, rest, k);
      PlusAssociates(t[k].measured, SumTable(InCategory(t - {k}, classes, c)), SumOver(t - {k}, classes, rest));
    } else {
      SumOverWithout(t, classes, rest, k);
      PlusSwaps(SumTable(InCategory(t, classes, c)), t[k].measured, SumOver(t - {k}, classes, rest));
    }
  }

  lemma PlusSwaps(a: Metrics, b: Metrics, c: Metrics)
    ensures Plus(a, Plus(b, c)) == Plus(b, Plus(a, c))
  {
  }

  lemma {:induction false} CategoriesPartition(t: Facts, classes: seq<Class>, categories: set<string>)
    requires Categories(t, classes) <= categories
    ensures SumOver(t, classes, categories) == SumTable(t)
    decreases |t|
  {
    if t == map[] {
      SumOverNothing(classes, categories);
    } else {
      var k := AnyKey(t);
      assert CategoryOf(classes, t[k].fixed) in Categories(t, classes);
      CategoriesPartition(t - {k}, classes, categories);
      SumOverWithout(t, classes, categories, k);
    }
  }

  lemma {:induction false} SumOverNothing(classes: seq<Class>, categories: set<string>)
    ensures SumOver(map[], classes, categories) == ZERO
    decreases categories
  {
    if categories != {} {
      var c := AnyOf(categories);
      SumOverNothing(classes, categories - {c});
      assert InCategory(map[], classes, c) == map[];
    }
  }

  lemma {:induction false} SumOverAt(t: Facts, classes: seq<Class>, categories: set<string>, c: string)
    requires c in categories
    ensures SumOver(t, classes, categories)
         == Plus(SumTable(InCategory(t, classes, c)), SumOver(t, classes, categories - {c}))
    decreases categories
  {
    var d := AnyOf(categories);
    if d != c {
      SumOverAt(t, classes, categories - {d}, c);
      SumOverAt(t, classes, categories - {c}, d);
      assert categories - {d} - {c} == categories - {c} - {d};
      PlusSwaps(SumTable(InCategory(t, classes, d)), SumTable(InCategory(t, classes, c)),
                SumOver(t, classes, categories - {c} - {d}));
    }
  }

  lemma ShowAdds(a: Metrics, b: Metrics)
    ensures Show(Plus(a, b)) == ShownPlus(Show(a), Show(b))
  {
  }

  lemma {:induction false} SumShownOver(v: map<string, Shown>, t: Facts, classes: seq<Class>)
    requires forall c :: c in v ==> v[c] == Show(SumTable(InCategory(t, classes, c)))
    ensures SumShown(v) == Show(SumOver(t, classes, v.Keys))
    decreases |v|
  {
    if v != map[] {
      var c := AnyKey(v);
      var rest := v - {c};
      SumShownOver(rest, t, classes);
      assert rest.Keys == v.Keys - {c};
      SumOverAt(t, classes, v.Keys, c);
      ShowAdds(SumTable(InCategory(t, classes, c)), SumOver(t, classes, rest.Keys));
    }
  }

  // ---------- What a cell of the view says ----------

  /** The rows of the window that the class table puts in the category. */
  ghost function RowsIn(t: Facts, classes: seq<Class>, instance: string, window: int, category: string): Facts {
    map k | k in t && k.instance == instance && k.window == window
            && Picks((set d | d in classes), t[k].fixed.program, category) :: t[k]
  }

  /** Each total of the view's rows, column by column, over every category. */
  ghost predicate Totals(v: map<string, Shown>, cpu: int, logicalReads: int, execs: int) {
    && SumBy(v, (s: Shown) => s.cpu) == cpu
    && SumBy(v, (s: Shown) => s.logicalReads) == logicalReads
    && SumBy(v, (s: Shown) => s.execs) == execs
  }

  lemma {:induction false} SumShownByColumn(v: map<string, Shown>)
    ensures Totals(v, SumShown(v).cpu, SumShown(v).logicalReads, SumShown(v).execs)
    decreases |v|
  {
    if v != map[] { SumShownByColumn(v - {AnyKey(v)}); }
  }

  /** The view has a row for exactly the categories that the class table picks for some row of the window. */
  lemma CategoriesShown(t: Facts, classes: seq<Class>, instance: string, window: int, c: string)
    requires Ascending(classes)
    ensures c in ByCategory(t, classes, instance, window) <==>
            exists k :: k in t && k.instance == instance && k.window == window
                        && Picks((set d | d in classes), t[k].fixed.program, c)
  {
    var rows := WindowOf(t, instance, window);
    forall k | k in rows
      ensures CategoryOf(classes, rows[k].fixed) == c <==> Picks((set d | d in classes), t[k].fixed.program, c)
    {
      ScanPicks(classes, t[k].fixed.program, c);
    }
    assert c in ByCategory(t, classes, instance, window)
           <==> exists k :: k in rows && CategoryOf(classes, rows[k].fixed) == c;
  }

  /** Each of its cells is the sum of its own column over exactly those rows. */
  lemma CategoryCells(t: Facts, classes: seq<Class>, instance: string, window: int, c: string)
    requires Ascending(classes) && c in ByCategory(t, classes, instance, window)
    ensures
      var shown := ByCategory(t, classes, instance, window)[c];
      var rows := RowsIn(t, classes, instance, window, c);
      && shown.cpu == SumBy(rows, (r: Cell<Who, Metrics>) => r.measured.cpu)
      && shown.logicalReads == SumBy(rows, (r: Cell<Who, Metrics>) => r.measured.logicalReads)
      && shown.execs == SumBy(rows, (r: Cell<Who, Metrics>) => r.measured.execs)
  {
    var rows := RowsIn(t, classes, instance, window, c);
    InCategoryIs(t, classes, instance, window, c);
    SumTableByColumn(rows);
  }

  lemma InCategoryIs(t: Facts, classes: seq<Class>, instance: string, window: int, c: string)
    requires Ascending(classes)
    ensures InCategory(WindowOf(t, instance, window), classes, c) == RowsIn(t, classes, instance, window, c)
  {
    forall k | k in t
      ensures CategoryOf(classes, t[k].fixed) == c <==> Picks((set d | d in classes), t[k].fixed.program, c)
    {
      ScanPicks(classes, t[k].fixed.program, c);
    }
  }

  /** The view redistributes a window's sums over its categories, column by column. */
  lemma RollupConserves(t: Facts, classes: seq<Class>, instance: string, window: int)
    ensures
      var rows := WindowOf(t, instance, window);
      Totals(ByCategory(t, classes, instance, window),
             SumBy(rows, (r: Cell<Who, Metrics>) => r.measured.cpu),
             SumBy(rows, (r: Cell<Who, Metrics>) => r.measured.logicalReads),
             SumBy(rows, (r: Cell<Who, Metrics>) => r.measured.execs))
  {
    ShownAsWindow(t, classes, instance, window);
    SumTableByColumn(WindowOf(t, instance, window));
    SumShownByColumn(ByCategory(t, classes, instance, window));
  }

  lemma ShownAsWindow(t: Facts, classes: seq<Class>, instance: string, window: int)
    ensures SumShown(ByCategory(t, classes, instance, window)) == Show(SumTable(WindowOf(t, instance, window)))
  {
    var rows := WindowOf(t, instance, window);
    var v := ByCategory(t, classes, instance, window);
    assert v.Keys == Categories(rows, classes);
    SumShownOver(v, rows, classes);
    CategoriesPartition(rows, classes, v.Keys);
  }

  // ---------- From raw events to the report ----------

  lemma {:induction false} WindowUpsertAll(t: Facts, rows: seq<FactRow>, instance: string, window: int)
    requires forall r :: r in rows ==> r.key.instance == instance && r.key.window == window
    ensures WindowOf(UpsertAll(t, rows), instance, window) == UpsertAll(WindowOf(t, instance, window), rows)
  {
    if rows != [] {
      var n := |rows| - 1;
      WindowUpsertAll(t, rows[..n], instance, window);
      assert rows[n] in rows;
      WindowUpsert(UpsertAll(t, rows[..n]), rows[n]);
    }
  }

  lemma WindowUpsert(t: Facts, r: FactRow)
    ensures WindowOf(Upsert(t, r), r.key.instance, r.key.window)
         == Upsert(WindowOf(t, r.key.instance, r.key.window), r)
  {
  }

  lemma {:induction false} WindowElsewhere(t: Facts, rows: seq<FactRow>, instance: string, window: int)
    requires forall r :: r in rows ==> r.key.window != window
    ensures WindowOf(UpsertAll(t, rows), instance, window) == WindowOf(t, instance, window)
  {
    if rows != [] {
      WindowElsewhere(t, rows[..|rows| - 1], instance, window);
      assert rows[|rows| - 1] in rows;
    }
  }

  lemma WindowOfMine(t: Facts, t': Facts, instance: string, window: int)
    requires Mine(t, instance) == Mine(t', instance)
    ensures WindowOf(t, instance, window) == WindowOf(t', instance, window)
  {
    assert WindowOf(t, instance, window) == WindowOf(Mine(t, instance), instance, window);
    assert WindowOf(t', instance, window) == WindowOf(Mine(t', instance), instance, window);
  }

  /** Within the window of a later batch, what an attempt under the same watermark committed is absorbed. */
  lemma AttemptInWindow(log: seq<Logged>, instance: string, w: Option<int>, t: Facts, f: int, kept: nat, later: int)
    requires Appended(log) && f <= later && Newer(Fetched(log, later), w) != []
    requires kept <= |RowsOf(instance, w, Fetched(log, f))|
    ensures
      var window := WindowStart(Newer(Fetched(log, later), w), w);
      var after := UpsertAll(t, RowsOf(instance, w, Fetched(log, f))[..kept]);
      UpsertAll(WindowOf(after, instance, window), RowsOf(instance, w, Fetched(log, later)))
      == UpsertAll(WindowOf(t, instance, window), RowsOf(instance, w, Fetched(log, later)))
  {
    var rows, events := RowsOf(instance, w, Fetched(log, f)), Newer(Fetched(log, f), w);
    var window := WindowStart(Newer(Fetched(log, later), w), w);
    assert forall r :: r in rows ==> events != [] && r.key.instance == instance
                                     && r.key.window == WindowStart(events, w) by {
      RowsBelong(instance, w, Fetched(log, f));
    }
    if events == [] || WindowStart(events, w) == window {
      WindowUpsertAll(t, rows[..kept], instance, window);
      assert Leads(rows, RowsOf(instance, w, Fetched(log, later))) by {
        NewerThanNothing(Fetched(log, f));
        NewerThanNothing(Fetched(log, later));
        RowsLead(log, instance, w, f, later);
      }
      Absorb(WindowOf(t, instance, window), rows[..kept], RowsOf(instance, w, Fetched(log, later)));
    } else {
      WindowElsewhere(t, rows[..kept], instance, window);
    }
  }

  lemma WindowLess(t: Facts, keys: set<FactKey>, instance: string, window: int)
    ensures WindowOf(t - keys, instance, window) == WindowOf(t, instance, window) - keys
  {
  }

  /** Within the window of the next batch, whatever unsuccessful attempts have committed is absorbed. */
  lemma {:induction false} AttemptsInWindow(log: seq<Logged>, instance: string, h: History, later: int)
    requires Serial(log, instance, h) && KeepsNewest(h, instance) && Appended(log) && Clock(h) <= later
    requires Newer(Fetched(log, later), MarkOf(h.db, instance)) != []
    ensures
      var w := MarkOf(h.db, instance);
      var window, batch := WindowStart(Newer(Fetched(log, later), w), w), RowsAt(log, instance, h.db, later);
      UpsertAll(WindowOf(h.db.facts, instance, window), batch)
      == UpsertAll(WindowOf(Settled(h, instance), instance, window), batch)
  {
    var w := MarkOf(h.db, instance);
    var window := WindowStart(Newer(Fetched(log, later), w), w);
    assert Mine(Mine(h.db.facts, instance), instance) == Mine(h.db.facts, instance);
    WindowOfMine(h.db.facts, Mine(h.db.facts, instance), instance, window);
    if h.Next? && !Succeeds(h.action) {
      WatermarkMoves(log, instance, h);
      AttemptsInWindow(log, instance, h.before, later);
      match h.action {
        case Run(f, t) =>
          assert h.db.facts == UpsertAll(h.before.db.facts, RowsOf(instance, w, Fetched(log, f))[..t.kept]);
          AttemptInWindow(log, instance, w, h.before.db.facts, f, t.kept, later);
        case PurgeFacts(_, keys) =>
          WindowLess(h.before.db.facts, keys, instance, window);
          WindowLess(Settled(h.before, instance), keys, instance, window);
          AbsorbedLess(WindowOf(h.before.db.facts, instance, window),
                       WindowOf(Settled(h.before, instance), instance, window), keys,
                       RowsAt(log, instance, h.db, later));
        case _ => WindowOfMine(h.db.facts, h.before.db.facts, instance, window);
      }
    }
  }

  /**
   The window a success writes to holds the numbers of its batch and nothing else, whatever earlier successes,
   failed attempts and purges had left there; its attributions too if the groups are separable, or no purge has
   deleted the newest success.
   */
  lemma SuccessWindow(log: seq<Logged>, instance: string, h: History)
    requires Serial(log, instance, h) && CleanStart(log, instance, h) && h.Next? && Succeeds(h.action)
    requires Admitted(log, instance, h) != []
    ensures
      var rows := WindowOf(h.db.facts, instance, WindowWritten(log, instance, h));
      var alone := UpsertAll(map[], RowsAt(log, instance, h.before.db, h.action.fetchAt));
      && SameMeasured(rows, alone)
      && (Separable(Admitted(log, instance, h)) || (KeepsNewest(h, instance) && Appended(log)) ==> rows == alone)
  {
    SuccessWindowMerged(log, instance, h);
    SuccessWindowNumbers(log, instance, h);
    if Separable(Admitted(log, instance, h)) {
      SeparableWindow(log, instance, h);
    } else if KeepsNewest(h, instance) && Appended(log) {
      NewWindow(log, instance, h);
    }
  }

  lemma SuccessWindowMerged(log: seq<Logged>, instance: string, h: History)
    requires Serial(log, instance, h) && h.Next? && Succeeds(h.action) && Admitted(log, instance, h) != []
    ensures
      var window := WindowWritten(log, instance, h);
      WindowOf(h.db.facts, instance, window)
      == UpsertAll(WindowOf(h.before.db.facts, instance, window), RowsAt(log, instance, h.before.db, h.action.fetchAt))
  {
    var batch := RowsAt(log, instance, h.before.db, h.action.fetchAt);
    assert batch[..h.action.trace.kept] == batch;
    RowsBelong(instance, MarkOf(h.before.db, instance), Fetched(log, h.action.fetchAt));
    WindowUpsertAll(h.before.db.facts, batch, instance, WindowWritten(log, instance, h));
  }

  lemma SuccessWindowNumbers(log: seq<Logged>, instance: string, h: History)
    requires Serial(log, instance, h) && CleanStart(log, instance, h) && h.Next? && Succeeds(h.action)
    requires Admitted(log, instance, h) != []
    ensures
      var old' := WindowOf(h.before.db.facts, instance, WindowWritten(log, instance, h));
      var batch := RowsAt(log, instance, h.before.db, h.action.fetchAt);
      SameMeasured(UpsertAll(old', batch), UpsertAll(map[], batch))
  {
    var old' := WindowOf(h.before.db.facts, instance, WindowWritten(log, instance, h));
    var batch := RowsAt(log, instance, h.before.db, h.action.fetchAt);
    forall k | k in old' ensures k in KeysOf(batch) { WindowRenewed(log, instance, h, k); }
    RenewedAlone(old', batch);
  }

  /** With the newest success kept, only attempts can have written to the window before. */
  lemma NewWindow(log: seq<Logged>, instance: string, h: History)
    requires Serial(log, instance, h) && CleanStart(log, instance, h) && h.Next? && Succeeds(h.action)
    requires Admitted(log, instance, h) != [] && KeepsNewest(h, instance) && Appended(log)
    ensures
      var old' := WindowOf(h.before.db.facts, instance, WindowWritten(log, instance, h));
      var batch := RowsAt(log, instance, h.before.db, h.action.fetchAt);
      UpsertAll(old', batch) == UpsertAll(map[], batch)
  {
    AttemptsInWindow(log, instance, h.before, h.action.fetchAt);
    WindowsBehindWatermark(log, instance, h.before);
    assert WindowOf(Settled(h.before, instance), instance, WindowWritten(log, instance, h)) == map[];
  }

  /** Merging a batch that names all old keys leaves its numbers. */
  lemma RenewedAlone(old': Facts, batch: seq<FactRow>)
    requires forall k :: k in old' ==> k in KeysOf(batch)
    ensures SameMeasured(UpsertAll(old', batch), UpsertAll(map[], batch))
  {
    UpsertAllKeys(old', batch);
    UpsertAllKeys(map[], batch);
    forall k | k in UpsertAll(map[], batch)
      ensures k in UpsertAll(old', batch) && UpsertAll(old', batch)[k].measured == UpsertAll(map[], batch)[k].measured
    {
      UpsertAllAt(old', batch, k);
      UpsertAllAt(map[], batch, k);
    }
  }

  lemma SeparableWindow(log: seq<Logged>, instance: string, h: History)
    requires Serial(log, instance, h) && CleanStart(log, instance, h) && h.Next? && Succeeds(h.action)
    requires Admitted(log, instance, h) != [] && Separable(Admitted(log, instance, h))
    ensures
      var old' := WindowOf(h.before.db.facts, instance, WindowWritten(log, instance, h));
      var batch := RowsAt(log, instance, h.before.db, h.action.fetchAt);
      UpsertAll(old', batch) == UpsertAll(map[], batch)
  {
    var old' := WindowOf(h.before.db.facts, instance, WindowWritten(log, instance, h));
    var w, f := MarkOf(h.before.db, instance), h.action.fetchAt;
    var batch := RowsAt(log, instance, h.before.db, f);
    forall k ensures SameRow(UpsertAll(old', batch), UpsertAll(map[], batch), k) {
      UpsertAllAt(old', batch, k);
      UpsertAllAt(map[], batch, k);
      if k in old' {
        WindowRenewed(log, instance, h, k);
        var r := batch[FirstAt(batch, k)];
        assert r in batch;
        RowOfGroup(instance, w, Fetched(log, f), r);
        var d :| d in Admitted(log, instance, h) && Code(d.who) == k.code && d.who == old'[k].fixed;
        var e :| e in Admitted(log, instance, h) && e.who == r.fixed;
        SeparableWhos(Admitted(log, instance, h), d, e);
      }
    }
    SameRows(UpsertAll(old', batch), UpsertAll(map[], batch));
  }

  /**
   Conservation through the whole pipeline: after every success, whatever failed and was purged before, the report's
   categories for its window add up to the raw events that passed the watermark, through grouping, MERGE, old rows
   and rollup, if the groups are separable; executions are missing exactly when they are not.
   */
  lemma ReportConserves(log: seq<Logged>, instance: string, h: History, classes: seq<Class>)
    requires Serial(log, instance, h) && CleanStart(log, instance, h) && h.Next? && Succeeds(h.action)
    requires Admitted(log, instance, h) != []
    ensures
      var events := Admitted(log, instance, h);
      var report := ByCategory(h.db.facts, classes, instance, WindowWritten(log, instance, h));
      && (Separable(events) ==> Totals(report, Column(events, (e: Event) => e.cpu),
                                       Column(events, (e: Event) => e.logicalReads), |events|))
      && (SumBy(report, (s: Shown) => s.execs) == |events| <==> Separable(events))
      && SumBy(report, (s: Shown) => s.execs) <= |events|
  {
    var w, f := MarkOf(h.before.db, instance), h.action.fetchAt;
    var window, events := WindowWritten(log, instance, h), Admitted(log, instance, h);
    var stored := SumTable(WindowOf(h.db.facts, instance, window));
    assert Conserved(ZERO, stored, events) by {
      SuccessWindow(log, instance, h);
      SumOfMeasured(WindowOf(h.db.facts, instance, window), UpsertAll(map[], RowsAt(log, instance, h.before.db, f)));
      LoneWindowConserves(instance, w, Fetched(log, f));
    }
    ShownAsWindow(h.db.facts, classes, instance, window);
    SumShownByColumn(ByCategory(h.db.facts, classes, instance, window));
    ConservedColumns(stored, events);
  }

  lemma ConservedColumns(stored: Metrics, events: seq<Event>)
    requires Conserved(ZERO, stored, events)
    ensures
      && (Separable(events) ==> Show(stored) == Shown(Column(events, (e: Event) => e.cpu),
                                                      Column(events, (e: Event) => e.logicalReads), |events|))
      && (Show(stored).execs == |events| <==> Separable(events))
      && Show(stored).execs <= |events|
  {
    TotalByColumn(events);
  }

  lemma LoneWindowConserves(instance: string, w: Option<int>, fetched: seq<Event>)
    ensures Conserved(ZERO, SumTable(UpsertAll(map[], RowsOf(instance, w, fetched))), Newer(fetched, w))
  {
    WindowConserves(map[], instance, w, fetched);
  }
}
