/**
 Where the executions in fact_workload come from: over any history, every row counts exactly the events that a run
 has stored under its key, however often it was written, so an event is counted once for every window that holds it.
 */
module Provenance {
  import opened Common
  import opened Attribution
  import opened Merge
  import opened WorkloadMetrics
  import opened Workload
  import opened Repository
  import opened Collector
  import opened WorkloadCollection
  import opened History
  import opened Erasure

  /** The rows that the run at the end of a history committed. */
  function Committed(log: seq<Logged>, instance: string, h: History): seq<FactRow>
    requires h.Next? && h.action.Run?
  {
    var rows := RowsAt(log, instance, h.before.db, h.action.fetchAt);
    if h.action.trace.kept <= |rows| then rows[..h.action.trace.kept] else []
  }

  /** The run admitted the event and committed a row under its attribution key. */
  ghost predicate Stores(log: seq<Logged>, instance: string, h: History, x: Logged, k: FactKey)
    requires h.Next? && h.action.Run?
  {
    Admits(h.before.db, instance, h.action.fetchAt, x) && Code(x.event.who) == k.code
    && k in KeysOf(Committed(log, instance, h))
  }

  /** Some run stored the event under the key, and no purge has taken that row since. */
  ghost predicate StoredUnder(log: seq<Logged>, instance: string, h: History, x: Logged, k: FactKey) {
    match h
    case Begin(_, _) => false
    case Next(before, Run(_, _), _) => Stores(log, instance, h, x, k) || StoredUnder(log, instance, before, x, k)
    case Next(before, PurgeFacts(_, keys), _) => k !in keys && StoredUnder(log, instance, before, x, k)
    case Next(before, _, _) => StoredUnder(log, instance, before, x, k)
  }

  // ---------- Where stored events lie ----------

  lemma RunWrites(log: seq<Logged>, instance: string, h: History)
    requires Serial(log, instance, h) && h.Next? && h.action.Run?
    ensures Mine(h.db.facts, instance) == UpsertAll(Mine(h.before.db.facts, instance), Committed(log, instance, h))
    ensures
      var w := MarkOf(h.before.db, instance);
      var events := Newer(Fetched(log, h.action.fetchAt), w);
      forall k :: k in KeysOf(Committed(log, instance, h)) ==>
        events != [] && k.instance == instance && k.window == WindowStart(events, w)
  {
    var rows := RowsAt(log, instance, h.before.db, h.action.fetchAt);
    RowsBelong(instance, MarkOf(h.before.db, instance), Fetched(log, h.action.fetchAt));
    RunAddsMine(instance, h.before.db, h.action.trace, rows);
  }

  /** A stored event has its row. */
  lemma {:induction false} StoredHasRow(log: seq<Logged>, instance: string, h: History, x: Logged, k: FactKey)
    requires Serial(log, instance, h) && StoredUnder(log, instance, h, x, k)
    ensures k in Mine(h.db.facts, instance) && k.code == Code(x.event.who)
  {
    match h
    case Next(before, Run(_, _), _) =>
      RunWrites(log, instance, h);
      UpsertAllKeys(Mine(before.db.facts, instance), Committed(log, instance, h));
      if !Stores(log, instance, h, x, k) { StoredHasRow(log, instance, before, x, k); }
    case Next(before, PurgeFacts(_, keys), _) =>
      MineLess(before.db.facts, keys, instance);
      StoredHasRow(log, instance, before, x, k);
    case Next(before, _, _) =>
      StoredHasRow(log, instance, before, x, k);
  }

  /** The window opens no later than the event, and every recorded success lies after both or before both. */
  ghost predicate Placed(instance: string, h: History, x: Logged, k: FactKey) {
    && x.visibleAt <= Clock(h) && k.window <= x.event.time
    && forall s :: s in SuccessTimes(h.db.runs, instance, TASK) ==> (s <= k.window <==> s < x.event.time)
  }

  lemma FetchedAtLeast(log: seq<Logged>, f: int, x: Logged)
    requires x in log && x.visibleAt <= f
    ensures x.event in Fetched(log, f)
  {
    if log[|log| - 1] != x || log[|log| - 1].visibleAt > f {
      assert log == log[..|log| - 1] + [log[|log| - 1]];
      FetchedAtLeast(log[..|log| - 1], f, x);
    }
  }

  /** An admitted event lies in the window of its run. */
  lemma AdmittedInWindow(log: seq<Logged>, w: Option<int>, f: int, x: Logged)
    requires x in log && x.visibleAt <= f && IsNewer(x.event, w)
    ensures
      var events := Newer(Fetched(log, f), w);
      x.event in events && WindowStart(events, w) <= x.event.time
  {
    FetchedAtLeast(log, f, x);
    NewerMembers(Fetched(log, f), w);
    var events := Newer(Fetched(log, f), w);
    var i :| 0 <= i < |events| && events[i] == x.event;
  }

  lemma StoresPlaced(log: seq<Logged>, instance: string, h: History, x: Logged, k: FactKey)
    requires Serial(log, instance, h) && h.Next? && h.action.Run? && h.action.trace.kept > 0
    requires x in log && x.event.time <= x.visibleAt && Stores(log, instance, h, x, k)
    ensures Placed(instance, h, x, k)
  {
    var w, f := MarkOf(h.before.db, instance), h.action.fetchAt;
    RunWrites(log, instance, h);
    AdmittedInWindow(log, w, f, x);
    NoRunAhead(log, instance, h.before);
    EffectOnRuns(h.before.db, h.action.trace, RowsAt(log, instance, h.before.db, f), instance, TASK);
  }

  lemma {:induction false} StoredPlaced(log: seq<Logged>, instance: string, h: History, x: Logged, k: FactKey)
    requires Serial(log, instance, h) && x in log && x.event.time <= x.visibleAt
    requires StoredUnder(log, instance, h, x, k)
    ensures Placed(instance, h, x, k)
  {
    match h
    case Next(before, Run(f, t), _) =>
      NoRunAhead(log, instance, before);
      if Stores(log, instance, h, x, k) {
        StoresPlaced(log, instance, h, x, k);
      } else {
        StoredPlaced(log, instance, before, x, k);
        EffectOnRuns(before.db, t, RowsAt(log, instance, before.db, f), instance, TASK);
      }
    case Next(before, PurgeRuns(_, _), db) =>
      StoredPlaced(log, instance, before, x, k);
      assert SuccessTimes(db.runs, instance, TASK) <= SuccessTimes(before.db.runs, instance, TASK);
    case Next(before, _, _) =>
      StoredPlaced(log, instance, before, x, k);
  }

  /** A later run sees a stored event, and admits it exactly if the event's window is not before the watermark. */
  lemma Readmitted(log: seq<Logged>, instance: string, h: History, f: int, x: Logged, k: FactKey)
    requires Serial(log, instance, h) && x in log && x.event.time <= x.visibleAt && Clock(h) <= f
    requires StoredUnder(log, instance, h, x, k)
    ensures x.visibleAt <= f
    ensures Admits(h.db, instance, f, x) <==> MarkOf(h.db, instance).None? || MarkOf(h.db, instance).value <= k.window
  {
    StoredPlaced(log, instance, h, x, k);
  }

  /** A run that writes a key again admits every event stored under it. */
  lemma StoredWhenWritten(log: seq<Logged>, instance: string, h: History, x: Logged, k: FactKey)
    requires Serial(log, instance, h) && h.Next? && h.action.Run? && x in log && x.event.time <= x.visibleAt
    requires k in KeysOf(Committed(log, instance, h))
    ensures StoredUnder(log, instance, h, x, k)
            <==> Admits(h.before.db, instance, h.action.fetchAt, x) && Code(x.event.who) == k.code
  {
    if StoredUnder(log, instance, h.before, x, k) {
      RunWrites(log, instance, h);
      StoredHasRow(log, instance, h.before, x, k);
      Readmitted(log, instance, h.before, h.action.fetchAt, x, k);
    }
  }

  // ---------- What one row counts ----------

  /** Over part of the log, the events stored under a key. */
  ghost function SumStored(part: seq<Logged>, log: seq<Logged>, instance: string, h: History, k: FactKey): Metrics {
    if part == [] then ZERO
    else
      var n := |part| - 1;
      var before := SumStored(part[..n], log, instance, h, k);
      if StoredUnder(log, instance, h, part[n], k) then Plus(before, One(part[n].event)) else before
  }

  /** All events stored under the key are of one group. */
  ghost predicate Unshared(log: seq<Logged>, instance: string, h: History, k: FactKey) {
    forall x, y :: x in log && y in log && StoredUnder(log, instance, h, x, k) && StoredUnder(log, instance, h, y, k)
      ==> x.event.who == y.event.who
  }

  function TotalOfCode(events: seq<Event>, code: string): Metrics {
    if events == [] then ZERO
    else
      var n := |events| - 1;
      var before := TotalOfCode(events[..n], code);
      if Code(events[n].who) == code then Plus(before, One(events[n])) else before
  }

  ghost predicate OnlyWho(events: seq<Event>, who: Who) {
    forall e :: e in events && Code(e.who) == Code(who) ==> e.who == who
  }

  /** A group's totals are those of its code exactly when it has the code to itself. */
  lemma {:induction false} TotalOfItsCode(events: seq<Event>, who: Who)
    ensures Accounts(TotalOf(events, who), TotalOfCode(events, Code(who)), OnlyWho(events, who))
  {
    if events != [] {
      var n := |events| - 1;
      TotalOfItsCode(events[..n], who);
      assert events == events[..n] + [events[n]];
    }
  }

  lemma {:induction false} SumStoredSame(part: seq<Logged>, log: seq<Logged>, instance: string, h: History, h': History,
                                         k: FactKey)
    requires forall x :: x in part ==> (StoredUnder(log, instance, h, x, k) <==> StoredUnder(log, instance, h', x, k))
    ensures SumStored(part, log, instance, h, k) == SumStored(part, log, instance, h', k)
  {
    if part != [] {
      SumStoredSame(part[..|part| - 1], log, instance, h, h', k);
      assert part[|part| - 1] in part;
    }
  }

  predicate Chosen(x: Logged, w: Option<int>, f: int, code: string) {
    x.visibleAt <= f && IsNewer(x.event, w) && Code(x.event.who) == code
  }

  lemma TotalOfCodeStep(part: seq<Logged>, f: int, w: Option<int>, code: string)
    requires part != []
    ensures
      var n := |part| - 1;
      var before := TotalOfCode(Newer(Fetched(part[..n], f), w), code);
      TotalOfCode(Newer(Fetched(part, f), w), code)
      == if Chosen(part[n], w, f, code) then Plus(before, One(part[n].event)) else before
  {
    var n := |part| - 1;
    var front, e := Fetched(part[..n], f), part[n].event;
    var kept := Newer(front, w);
    if part[n].visibleAt <= f {
      assert Fetched(part, f) == front + [e];
      assert (front + [e])[..|front|] == front;
      assert Newer(front + [e], w) == if IsNewer(e, w) then kept + [e] else kept;
      assert (kept + [e])[..|kept|] == kept;
    } else {
      assert Fetched(part, f) == front;
    }
  }

  lemma {:induction false} SumStoredIsTotal(part: seq<Logged>, log: seq<Logged>, instance: string, h: History,
                                            k: FactKey, w: Option<int>, f: int)
    requires forall x :: x in part ==> (StoredUnder(log, instance, h, x, k) <==> Chosen(x, w, f, k.code))
    ensures SumStored(part, log, instance, h, k) == TotalOfCode(Newer(Fetched(part, f), w), k.code)
  {
    if part != [] {
      SumStoredIsTotal(part[..|part| - 1], log, instance, h, k, w, f);
      assert part[|part| - 1] in part;
      TotalOfCodeStep(part, f, w, k.code);
    }
  }

  /** A row that a run would write under a key: the totals of a group of that code. */
  lemma RowOfGroup(instance: string, w: Option<int>, fetched: seq<Event>, r: FactRow)
    requires r in RowsOf(instance, w, fetched)
    ensures
      var events := Newer(fetched, w);
      && r.measured == TotalOf(events, r.fixed) && r.key.code == Code(r.fixed)
      && exists e :: e in events && e.who == r.fixed
  {
    var events := Newer(fetched, w);
    var whos := FirstOccurrences(Whos(events));
    FirstOccurrencesAreTheElements(Whos(events));
    var rows := GroupRows(instance, WindowStart(events, w), events);
    var i :| 0 <= i < |rows| && rows[i] == r;
    assert r == GroupRow(instance, WindowStart(events, w), events, whos[i]);
    SomeEventOf(events, whos[i]);
  }

  lemma SomeEventOf(events: seq<Event>, who: Who)
    requires who in Whos(events)
    ensures exists e :: e in events && e.who == who
  {
    var j :| 0 <= j < |events| && events[j].who == who;
    assert events[j] in events;
  }

  /** Between the log and a read. */
  lemma InLog(log: seq<Logged>, w: Option<int>, f: int, e: Event) returns (x: Logged)
    requires e in Newer(Fetched(log, f), w)
    ensures x in log && x.event == e && x.visibleAt <= f && IsNewer(e, w)
  {
    NewerMembers(Fetched(log, f), w);
    FetchedMembers(log, f);
    x :| x in log && x.event == e && x.visibleAt <= f;
  }

  /** After a run has written a key, sharing is a matter of its own events. */
  lemma UnsharedWhenWritten(log: seq<Logged>, instance: string, h: History, k: FactKey, w: Option<int>, f: int,
                            who: Who)
    requires forall x :: x in log ==> (StoredUnder(log, instance, h, x, k) <==> Chosen(x, w, f, k.code))
    requires k.code == Code(who) && exists e :: e in Newer(Fetched(log, f), w) && e.who == who
    ensures Unshared(log, instance, h, k) <==> OnlyWho(Newer(Fetched(log, f), w), who)
  {
    var events := Newer(Fetched(log, f), w);
    var d :| d in events && d.who == who;
    var y := InLog(log, w, f, d);
    if Unshared(log, instance, h, k) {
      forall e | e in events && Code(e.who) == Code(who) ensures e.who == who {
        var x := InLog(log, w, f, e);
        assert StoredUnder(log, instance, h, x, k) && StoredUnder(log, instance, h, y, k);
      }
    }
    if OnlyWho(events, who) {
      forall x | x in log && StoredUnder(log, instance, h, x, k) ensures x.event.who == who {
        AdmittedInWindow(log, w, f, x);
      }
    }
  }

  /** One row against the events stored under its key. */
  ghost predicate CellAccounts(log: seq<Logged>, instance: string, h: History, k: FactKey) {
    k in Mine(h.db.facts, instance)
    && Accounts(Mine(h.db.facts, instance)[k].measured, SumStored(log, log, instance, h, k),
                Unshared(log, instance, h, k))
  }

  lemma WrittenCell(log: seq<Logged>, instance: string, h: History, k: FactKey)
    requires Serial(log, instance, h) && CleanStart(log, instance, h) && h.Next? && h.action.Run?
    requires k in KeysOf(Committed(log, instance, h))
    ensures CellAccounts(log, instance, h, k)
  {
    var w, f := MarkOf(h.before.db, instance), h.action.fetchAt;
    var part := Committed(log, instance, h);
    var t := Mine(h.before.db.facts, instance);
    CleanBeginning(log, instance, h);
    forall x | x in log ensures StoredUnder(log, instance, h, x, k) <==> Chosen(x, w, f, k.code) {
      StoredWhenWritten(log, instance, h, x, k);
    }
    RunWrites(log, instance, h);
    UpsertAllAt(t, part, k);
    UpsertAllKeys(t, part);
    var q :| q in part && q.key == k;
    var i :| 0 <= i < |part| && part[i] == q;
    assert Mentions(part, k);
    var r := part[LastAt(part, k)];
    assert r in RowsAt(log, instance, h.before.db, f);
    RowOfGroup(instance, w, Fetched(log, f), r);
    SumStoredIsTotal(log, log, instance, h, k, w, f);
    UnsharedWhenWritten(log, instance, h, k, w, f, r.fixed);
    TotalOfItsCode(Newer(Fetched(log, f), w), r.fixed);
  }

  lemma SameCell(log: seq<Logged>, instance: string, h: History, k: FactKey)
    requires h.Next? && CellAccounts(log, instance, h.before, k)
    requires k in Mine(h.db.facts, instance)
             && Mine(h.db.facts, instance)[k].measured == Mine(h.before.db.facts, instance)[k].measured
    requires forall x :: x in log ==>
                           (StoredUnder(log, instance, h, x, k) <==> StoredUnder(log, instance, h.before, x, k))
    ensures CellAccounts(log, instance, h, k)
  {
    SumStoredSame(log, log, instance, h, h.before, k);
  }

  /**
   At every moment, every row counts exactly the events stored under its key if they are of one group, and lacks
   executions if they are not; with any failures, any purges of runs and any purges of rows.
   */
  lemma {:induction false} EveryRowAccounts(log: seq<Logged>, instance: string, h: History, k: FactKey)
    requires Serial(log, instance, h) && CleanStart(log, instance, h) && k in Mine(h.db.facts, instance)
    ensures CellAccounts(log, instance, h, k)
  {
    match h
    case Begin(_, _) =>
    case Next(before, Run(_, _), _) =>
      if k in KeysOf(Committed(log, instance, h)) {
        WrittenCell(log, instance, h, k);
      } else {
        UnwrittenCell(log, instance, h, k);
        EveryRowAccounts(log, instance, before, k);
        SameCell(log, instance, h, k);
      }
    case Next(before, PurgeFacts(_, keys), _) =>
      MineLess(before.db.facts, keys, instance);
      EveryRowAccounts(log, instance, before, k);
      SameCell(log, instance, h, k);
    case Next(before, _, _) =>
      EveryRowAccounts(log, instance, before, k);
      SameCell(log, instance, h, k);
  }

  lemma NotInBatch(t: Facts, batch: seq<FactRow>, k: FactKey)
    requires k !in KeysOf(batch)
    ensures SameRow(UpsertAll(t, batch), t, k)
  {
    UpsertAllAt(t, batch, k);
    forall i | 0 <= i < |batch| ensures batch[i].key != k {
      assert batch[i] in batch;
    }
  }

  lemma UnwrittenCell(log: seq<Logged>, instance: string, h: History, k: FactKey)
    requires Serial(log, instance, h) && h.Next? && h.action.Run? && k in Mine(h.db.facts, instance)
    requires k !in KeysOf(Committed(log, instance, h))
    ensures SameRow(Mine(h.db.facts, instance), Mine(h.before.db.facts, instance), k)
  {
    RunWrites(log, instance, h);
    NotInBatch(Mine(h.before.db.facts, instance), Committed(log, instance, h), k);
  }

  // ---------- What a batch names ----------

  /** A run's batch has a row for every event it admits. */
  lemma BatchNames(log: seq<Logged>, instance: string, db: Repo, f: int, x: Logged)
    requires x in log && Admits(db, instance, f, x)
    ensures
      var w := MarkOf(db, instance);
      var events := Newer(Fetched(log, f), w);
      && x.event in events && WindowStart(events, w) <= x.event.time
      && FactKey(instance, WindowStart(events, w), Code(x.event.who)) in KeysOf(RowsAt(log, instance, db, f))
  {
    var w := MarkOf(db, instance);
    AdmittedInWindow(log, w, f, x);
    RowForEvent(instance, w, Fetched(log, f), x.event);
  }

  lemma RowForEvent(instance: string, w: Option<int>, fetched: seq<Event>, e: Event)
    requires e in Newer(fetched, w)
    ensures FactKey(instance, WindowStart(Newer(fetched, w), w), Code(e.who)) in KeysOf(RowsOf(instance, w, fetched))
  {
    var events := Newer(fetched, w);
    var whos := FirstOccurrences(Whos(events));
    FirstOccurrencesAreTheElements(Whos(events));
    var j :| 0 <= j < |events| && events[j] == e;
    assert Whos(events)[j] == e.who;
    assert e.who in whos;
    var i :| 0 <= i < |whos| && whos[i] == e.who;
    var rows := GroupRows(instance, WindowStart(events, w), events);
    assert rows[i] in rows && rows[i] == GroupRow(instance, WindowStart(events, w), events, e.who);
  }

  /** The event is stored under the key, and the row carries its attribution. */
  ghost predicate Names(log: seq<Logged>, instance: string, h: History, x: Logged, k: FactKey) {
    && x in log && StoredUnder(log, instance, h, x, k)
    && k in Mine(h.db.facts, instance) && x.event.who == Mine(h.db.facts, instance)[k].fixed
  }

  /** Every row counts an event of its own attribution. */
  lemma {:induction false} EveryRowNamesAnEvent(log: seq<Logged>, instance: string, h: History, k: FactKey)
    returns (x: Logged)
    requires Serial(log, instance, h) && CleanStart(log, instance, h) && k in Mine(h.db.facts, instance)
    ensures Names(log, instance, h, x, k)
  {
    match h
    case Begin(_, _) => assert false;
    case Next(before, Run(_, _), _) =>
      if k in Mine(before.db.facts, instance) {
        x := EveryRowNamesAnEvent(log, instance, before, k);
        RunWrites(log, instance, h);
        UpsertAllAt(Mine(before.db.facts, instance), Committed(log, instance, h), k);
      } else {
        x := NewRowNamesAnEvent(log, instance, h, k);
      }
    case Next(before, PurgeFacts(_, keys), _) =>
      MineLess(before.db.facts, keys, instance);
      x := EveryRowNamesAnEvent(log, instance, before, k);
    case Next(before, _, _) =>
      x := EveryRowNamesAnEvent(log, instance, before, k);
  }

  lemma NewRowNamesAnEvent(log: seq<Logged>, instance: string, h: History, k: FactKey) returns (x: Logged)
    requires Serial(log, instance, h) && h.Next? && h.action.Run?
    requires k in Mine(h.db.facts, instance) && k !in Mine(h.before.db.facts, instance)
    ensures Names(log, instance, h, x, k)
  {
    var w, f := MarkOf(h.before.db, instance), h.action.fetchAt;
    var part := Committed(log, instance, h);
    RunWrites(log, instance, h);
    UpsertAllAt(Mine(h.before.db.facts, instance), part, k);
    var r := part[FirstAt(part, k)];
    assert r in part && r in RowsAt(log, instance, h.before.db, f);
    RowOfGroup(instance, w, Fetched(log, f), r);
    var e :| e in Newer(Fetched(log, f), w) && e.who == r.fixed;
    x := InLog(log, w, f, e);
  }

  /** A success renews every row its window already holds. */
  lemma WindowRenewed(log: seq<Logged>, instance: string, h: History, k: FactKey)
    requires Serial(log, instance, h) && CleanStart(log, instance, h) && h.Next? && Succeeds(h.action)
    requires Admitted(log, instance, h) != []
    requires k in WindowOf(h.before.db.facts, instance, WindowWritten(log, instance, h))
    ensures k in KeysOf(RowsAt(log, instance, h.before.db, h.action.fetchAt))
    ensures exists e :: e in Admitted(log, instance, h) && Code(e.who) == k.code && e.who == h.before.db.facts[k].fixed
  {
    assert h.before.db.facts[k] == Mine(h.before.db.facts, instance)[k];
    var x := EveryRowNamesAnEvent(log, instance, h.before, k);
    CleanBeginning(log, instance, h);
    Readmitted(log, instance, h.before, h.action.fetchAt, x, k);
    BatchNames(log, instance, h.before.db, h.action.fetchAt, x);
    StoredHasRow(log, instance, h.before, x, k);
  }

  // ---------- What the table counts ----------

  /** The rows among `keys` that count the event. */
  ghost function Holding(log: seq<Logged>, instance: string, h: History, keys: set<FactKey>, x: Logged): set<FactKey> {
    set k | k in keys && StoredUnder(log, instance, h, x, k)
  }

  /** Over part of the log, every event as often as rows among `keys` count it. */
  ghost function SumCopies(part: seq<Logged>, log: seq<Logged>, instance: string, h: History,
                           keys: set<FactKey>): Metrics {
    if part == [] then ZERO
    else
      var n := |part| - 1;
      Plus(SumCopies(part[..n], log, instance, h, keys),
           Times(|Holding(log, instance, h, keys, part[n])|, One(part[n].event)))
  }

  lemma HoldingLess(log: seq<Logged>, instance: string, h: History, keys: set<FactKey>, k: FactKey, x: Logged)
    requires k in keys
    ensures Times(|Holding(log, instance, h, keys, x)|, One(x.event))
         == if StoredUnder(log, instance, h, x, k)
            then Plus(Times(|Holding(log, instance, h, keys - {k}, x)|, One(x.event)), One(x.event))
            else Times(|Holding(log, instance, h, keys - {k}, x)|, One(x.event))
  {
    var all, rest := Holding(log, instance, h, keys, x), Holding(log, instance, h, keys - {k}, x);
    if StoredUnder(log, instance, h, x, k) {
      assert all == rest + {k};
    } else {
      assert all == rest;
    }
  }

  lemma PlusFour(a: Metrics, b: Metrics, c: Metrics, d: Metrics)
    ensures Plus(Plus(a, b), Plus(c, d)) == Plus(Plus(a, c), Plus(b, d))
    ensures Plus(Plus(a, b), c) == Plus(Plus(a, c), b)
  {
  }

  lemma {:induction false} CopiesLess(part: seq<Logged>, log: seq<Logged>, instance: string, h: History,
                                      keys: set<FactKey>, k: FactKey)
    requires k in keys
    ensures SumCopies(part, log, instance, h, keys)
         == Plus(SumCopies(part, log, instance, h, keys - {k}), SumStored(part, log, instance, h, k))
  {
    if part != [] {
      var n := |part| - 1;
      CopiesLess(part[..n], log, instance, h, keys, k);
      HoldingLess(log, instance, h, keys, k, part[n]);
      var before := SumCopies(part[..n], log, instance, h, keys - {k});
      var stored := SumStored(part[..n], log, instance, h, k);
      var copies := Times(|Holding(log, instance, h, keys - {k}, part[n])|, One(part[n].event));
      PlusFour(before, stored, copies, One(part[n].event));
    }
  }

  lemma {:induction false} NoCopies(part: seq<Logged>, log: seq<Logged>, instance: string, h: History)
    ensures SumCopies(part, log, instance, h, {}) == ZERO
  {
    if part != [] {
      NoCopies(part[..|part| - 1], log, instance, h);
      assert Holding(log, instance, h, {}, part[|part| - 1]) == {};
    }
  }

  ghost predicate NoneShared(log: seq<Logged>, instance: string, h: History, keys: set<FactKey>) {
    forall k :: k in keys ==> Unshared(log, instance, h, k)
  }

  lemma AccountsBoth(a: Metrics, a': Metrics, p: bool, b: Metrics, b': Metrics, q: bool)
    requires Accounts(a, a', p) && Accounts(b, b', q)
    ensures Accounts(Plus(a, b), Plus(b', a'), p && q)
  {
  }

  /** Any part of the table against the copies it holds. */
  lemma {:induction false} PartAccounts(log: seq<Logged>, instance: string, h: History, t: Facts)
    requires forall k :: k in t ==> CellAccounts(log, instance, h, k) && t[k] == Mine(h.db.facts, instance)[k]
    ensures Accounts(SumTable(t), SumCopies(log, log, instance, h, t.Keys), NoneShared(log, instance, h, t.Keys))
    decreases |t|
  {
    if t == map[] {
      NoCopies(log, log, instance, h);
    } else {
      var k := AnyKey(t);
      var rest := t - {k};
      PartAccounts(log, instance, h, rest);
      CopiesLess(log, log, instance, h, t.Keys, k);
      assert rest.Keys == t.Keys - {k};
      AccountsBoth(t[k].measured, SumStored(log, log, instance, h, k), Unshared(log, instance, h, k),
                   SumTable(rest), SumCopies(log, log, instance, h, rest.Keys),
                   NoneShared(log, instance, h, rest.Keys));
      assert NoneShared(log, instance, h, t.Keys)
             == (Unshared(log, instance, h, k) && NoneShared(log, instance, h, rest.Keys));
    }
  }

  /**
   The table: at every moment an instance's rows add up to its events, each as often as it is stored, if no two
   groups ever met under one key; executions are missing exactly when two did.
   */
  lemma TableAccounts(log: seq<Logged>, instance: string, h: History)
    requires Serial(log, instance, h) && CleanStart(log, instance, h)
    ensures
      var rows := Mine(h.db.facts, instance);
      Accounts(SumTable(rows), SumCopies(log, log, instance, h, rows.Keys), NoneShared(log, instance, h, rows.Keys))
  {
    forall k | k in Mine(h.db.facts, instance) ensures CellAccounts(log, instance, h, k) {
      EveryRowAccounts(log, instance, h, k);
    }
    PartAccounts(log, instance, h, Mine(h.db.facts, instance));
  }

  /** The event is stored in the window. */
  ghost predicate StoredIn(log: seq<Logged>, instance: string, h: History, x: Logged, window: int) {
    StoredUnder(log, instance, h, x, FactKey(instance, window, Code(x.event.who)))
  }

  /** Over part of the log, the events stored in one window, each once. */
  ghost function SumStoredIn(part: seq<Logged>, log: seq<Logged>, instance: string, h: History, window: int): Metrics {
    if part == [] then ZERO
    else
      var n := |part| - 1;
      var before := SumStoredIn(part[..n], log, instance, h, window);
      if StoredIn(log, instance, h, part[n], window) then Plus(before, One(part[n].event)) else before
  }

  lemma HoldingInWindow(log: seq<Logged>, instance: string, h: History, window: int, x: Logged)
    requires Serial(log, instance, h)
    ensures
      var keys := WindowOf(h.db.facts, instance, window).Keys;
      Times(|Holding(log, instance, h, keys, x)|, One(x.event))
      == if StoredIn(log, instance, h, x, window) then One(x.event) else ZERO
  {
    HoldingInWindowIs(log, instance, h, window, x);
    assert Times(1, One(x.event)) == Plus(Times(0, One(x.event)), One(x.event));
  }

  lemma HoldingInWindowIs(log: seq<Logged>, instance: string, h: History, window: int, x: Logged)
    requires Serial(log, instance, h)
    ensures Holding(log, instance, h, WindowOf(h.db.facts, instance, window).Keys, x)
         == if StoredIn(log, instance, h, x, window) then {FactKey(instance, window, Code(x.event.who))} else {}
  {
    var k := FactKey(instance, window, Code(x.event.who));
    var holding := Holding(log, instance, h, WindowOf(h.db.facts, instance, window).Keys, x);
    forall q | q in holding ensures q == k {
      StoredHasRow(log, instance, h, x, q);
    }
    if StoredUnder(log, instance, h, x, k) { StoredHasRow(log, instance, h, x, k); }
  }

  lemma {:induction false} CopiesInWindow(part: seq<Logged>, log: seq<Logged>, instance: string, h: History,
                                          window: int)
    requires Serial(log, instance, h)
    ensures SumCopies(part, log, instance, h, WindowOf(h.db.facts, instance, window).Keys)
         == SumStoredIn(part, log, instance, h, window)
  {
    if part != [] {
      var n := |part| - 1;
      CopiesInWindow(part[..n], log, instance, h, window);
      HoldingInWindow(log, instance, h, window, part[n]);
      PlusAssociates(SumStoredIn(part[..n], log, instance, h, window), ZERO, ZERO);
    }
  }

  /**
   One window: at every moment its rows add up to exactly the events stored in it, each once, however often the
   window was written; an event is thus counted once for every window that holds it.
   */
  lemma WindowAccounts(log: seq<Logged>, instance: string, h: History, window: int)
    requires Serial(log, instance, h) && CleanStart(log, instance, h)
    ensures
      var rows := WindowOf(h.db.facts, instance, window);
      Accounts(SumTable(rows), SumStoredIn(log, log, instance, h, window), NoneShared(log, instance, h, rows.Keys))
  {
    var rows := WindowOf(h.db.facts, instance, window);
    forall k | k in rows ensures CellAccounts(log, instance, h, k) && rows[k] == Mine(h.db.facts, instance)[k] {
      EveryRowAccounts(log, instance, h, k);
    }
    PartAccounts(log, instance, h, rows);
    CopiesInWindow(log, log, instance, h, window);
  }
}
