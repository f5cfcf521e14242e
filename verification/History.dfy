/**
 Whole histories of one instance's workload runs: successes, failures that commit a prefix, crashes, dry runs,
 with purges of collection_run and the runs of other instances and collectors in between. What becomes of each event.
 */
module History {
  import opened Common
  import opened Attribution
  import opened WorkloadMetrics
  import opened Workload
  import opened Repository
  import opened Collector
  import opened WorkloadCollection
  import opened Purge

  type Repo = Db<FactKey, Who, Metrics>

  /**
   A run of the instance's own collector, a purge batch on collection_run or on fact_workload, or anything that
   concerns other instances or collectors.
   */
  datatype Action =
    | Run(fetchAt: int, trace: Trace)
    | PurgeRuns(cutoff: int, doomed: set<nat>)
    | PurgeFacts(cutoff: int, keys: set<FactKey>)
    | Elsewhere

  datatype History =
    | Begin(db: Repo, at: int)
    | Next(before: History, action: Action, db: Repo)

  function MarkOf(db: Repo, instance: string): Option<int> {
    Watermark(db.runs, instance, TASK)
  }

  /** The rows a run over `db` that fetches at `now` will merge. */
  function RowsAt(log: seq<Logged>, instance: string, db: Repo, now: int): seq<FactRow> {
    RowsOf(instance, MarkOf(db, instance), Fetched(log, now))
  }

  ghost predicate Step(log: seq<Logged>, instance: string, db: Repo, a: Action, db': Repo) {
    match a
    case Run(fetchAt, t) =>
      && t.instance == instance && t.task == TASK
      && var rows := RowsAt(log, instance, db, fetchAt);
         Possible(t, rows) && db' == RunEffect(db, t, rows)
    case PurgeRuns(cutoff, doomed) =>
      && doomed <= db.runs.Keys
      && (forall id :: id in doomed ==> db.runs[id].startedAt < cutoff)
      && db' == db.(runs := db.runs - doomed)
    case PurgeFacts(cutoff, keys) =>
      && keys <= db.facts.Keys
      && (forall k :: k in keys ==> k.window < cutoff)
      && db' == db.(facts := db.facts - keys)
    case Elsewhere => Unconcerned(instance, db, db')
  }

  /** The instance's rows and successful starts are as they were. */
  ghost predicate Unconcerned(instance: string, db: Repo, db': Repo) {
    && (FreshIds(db) ==> FreshIds(db'))
    && Mine(db'.facts, instance) == Mine(db.facts, instance)
    && SuccessTimes(db'.runs, instance, TASK) == SuccessTimes(db.runs, instance, TASK)
  }

  predicate Succeeds(a: Action) {
    a.Run? && a.trace.mark.MarkedSuccess?
  }

  function Clock(h: History): int {
    match h
    case Begin(_, at) => at
    case Next(before, Run(fetchAt, t), _) => if t.mark.NoRun? then fetchAt else t.startAt
    case Next(before, _, _) => Clock(before)
  }

  /**
   A serial history: runs follow one another, and each fetches before it starts its run row.
   At the beginning no run lies in the future.
   */
  ghost predicate Serial(log: seq<Logged>, instance: string, h: History) {
    match h
    case Begin(db, at) =>
      FreshIds(db) && forall t :: t in SuccessTimes(db.runs, instance, TASK) ==> t <= at
    case Next(before, a, db) =>
      && Serial(log, instance, before)
      && Step(log, instance, before.db, a, db)
      && match a {
           case Run(fetchAt, t) => Clock(before) <= fetchAt && (t.mark.NoRun? || fetchAt < t.startAt)
           case _ => true
         }
  }

  /** No purge deleted the newest success (`WatermarkMoves` says when it does not). */
  predicate KeepsNewest(h: History, instance: string) {
    h.Next? ==>
      && KeepsNewest(h.before, instance)
      && (h.action.PurgeRuns? ==> MarkOf(h.db, instance) == MarkOf(h.before.db, instance))
  }

  /** No row of fact_workload has been purged. */
  predicate KeepsRows(h: History) {
    h.Next? ==> KeepsRows(h.before) && !h.action.PurgeFacts?
  }

  // ---------- The watermark ----------

  function RunsFrom(runs: map<nat, RunRow>, cutoff: int): map<nat, RunRow> {
    Kept(runs, (id: nat, run: RunRow) => run.startedAt, cutoff)
  }

  /** collection_run some batches into its purge. */
  ghost predicate MidRunPurge(before: map<nat, RunRow>, now: map<nat, RunRow>, cutoff: int) {
    Between(before, now, (id: nat, run: RunRow) => run.startedAt, cutoff)
  }

  /** No batch raises the watermark, and one that the cutoff has not passed stays put. */
  lemma MidPurgeWatermark(before: map<nat, RunRow>, now: map<nat, RunRow>, cutoff: int, instance: string, task: string)
    requires MidRunPurge(before, now, cutoff)
    ensures
      var w, w' := Watermark(before, instance, task), Watermark(now, instance, task);
      && (w'.Some? ==> w.Some? && w'.value <= w.value)
      && (w.Some? && w.value >= cutoff ==> w' == w)
  {
    var w := Watermark(before, instance, task);
    assert SuccessTimes(now, instance, task) <= SuccessTimes(before, instance, task);
    if w.Some? && w.value >= cutoff {
      var id :| id in before && before[id].startedAt == w.value && before[id].instance == instance
                && before[id].task == task && before[id].status == Success;
      assert now[id] == before[id];
      assert w.value in SuccessTimes(now, instance, task);
      MaxIsUnique(SuccessTimes(now, instance, task), w.value);
    }
  }

  /** The watermark is the same at every intermediate state of a purge exactly when the cutoff has not passed it. */
  lemma WatermarkFixedThroughoutPurge(before: map<nat, RunRow>, cutoff: int, instance: string, task: string)
    ensures
      var w := Watermark(before, instance, task);
      (forall now :: MidRunPurge(before, now, cutoff) ==> Watermark(now, instance, task) == w)
      <==> w.None? || w.value >= cutoff
  {
    var w := Watermark(before, instance, task);
    if w.None? || w.value >= cutoff {
      forall now | MidRunPurge(before, now, cutoff) ensures Watermark(now, instance, task) == w {
        MidPurgeWatermark(before, now, cutoff, instance, task);
      }
    } else {
      var now := RunsFrom(before, cutoff);
      assert MidRunPurge(before, now, cutoff);
      assert SuccessTimes(now, instance, task) <= SuccessTimes(before, instance, task);
      assert w.value !in SuccessTimes(now, instance, task);
    }
  }

  lemma {:induction false} NoRunAhead(log: seq<Logged>, instance: string, h: History)
    requires Serial(log, instance, h)
    ensures FreshIds(h.db)
    ensures forall t :: t in SuccessTimes(h.db.runs, instance, TASK) ==> t <= Clock(h)
  {
    match h
    case Begin(_, _) =>
    case Next(before, a, db) =>
      NoRunAhead(log, instance, before);
      match a {
        case Run(fetchAt, t) =>
          EffectOnRuns(before.db, t, RowsAt(log, instance, before.db, fetchAt), instance, TASK);
        case PurgeRuns(_, doomed) =>
          assert SuccessTimes(db.runs, instance, TASK) <= SuccessTimes(before.db.runs, instance, TASK);
        case PurgeFacts(_, _) =>
        case Elsewhere =>
      }
  }

  /** Some recorded success started at `time` or later. */
  ghost predicate SuccessFrom(runs: map<nat, RunRow>, instance: string, time: int) {
    exists id :: id in runs && Succeeded(runs[id], instance, TASK) && time <= runs[id].startedAt
  }

  lemma WatermarkReaches(db: Repo, instance: string, time: int)
    ensures SuccessFrom(db.runs, instance, time) <==> MarkOf(db, instance).Some? && time <= MarkOf(db, instance).value
  {
    if id :| id in db.runs && Succeeded(db.runs[id], instance, TASK) && time <= db.runs[id].startedAt {
      assert db.runs[id].startedAt in SuccessTimes(db.runs, instance, TASK);
    }
  }

  /**
   A success moves the watermark forward, to its own start; other runs and other instances do not move it; a purge
   can only lower it, and leaves it alone exactly when it spares a success that started then.
   */
  lemma WatermarkMoves(log: seq<Logged>, instance: string, h: History)
    requires Serial(log, instance, h) && h.Next?
    ensures
      var w, w' := MarkOf(h.before.db, instance), MarkOf(h.db, instance);
      && (Succeeds(h.action) ==> w' == Some(h.action.trace.startAt) && (w.Some? ==> w.value < w'.value))
      && (!Succeeds(h.action) && !h.action.PurgeRuns? ==> w' == w)
      && (h.action.PurgeRuns? ==> w'.Some? ==> w.Some? && w'.value <= w.value)
      && (h.action.PurgeRuns? ==> (w' == w <==> w.None? || SuccessFrom(h.db.runs, instance, w.value)))
      && (h.action.PurgeRuns? && w.Some? && h.action.cutoff <= w.value ==> w' == w)
      && (w'.Some? ==> w'.value <= Clock(h))
  {
    NoRunAhead(log, instance, h.before);
    NoRunAhead(log, instance, h);
    match h.action {
      case Run(fetchAt, t) =>
        RunMoves(log, instance, h);
      case PurgeRuns(cutoff, doomed) =>
        assert MidRunPurge(h.before.db.runs, h.db.runs, cutoff);
        MidPurgeWatermark(h.before.db.runs, h.db.runs, cutoff, instance, TASK);
        if MarkOf(h.before.db, instance).Some? {
          WatermarkReaches(h.db, instance, MarkOf(h.before.db, instance).value);
        }
      case PurgeFacts(_, _) =>
      case Elsewhere =>
    }
  }

  lemma RunMoves(log: seq<Logged>, instance: string, h: History)
    requires Serial(log, instance, h) && h.Next? && h.action.Run? && FreshIds(h.before.db)
    requires forall t :: t in SuccessTimes(h.before.db.runs, instance, TASK) ==> t <= Clock(h.before)
    ensures
      var w, w' := MarkOf(h.before.db, instance), MarkOf(h.db, instance);
      if Succeeds(h.action) then w' == Some(h.action.trace.startAt) && (w.Some? ==> w.value < w'.value) else w' == w
  {
    var earlier := SuccessTimes(h.before.db.runs, instance, TASK);
    var later := SuccessTimes(h.db.runs, instance, TASK);
    var t := h.action.trace;
    EffectOnRuns(h.before.db, t, RowsAt(log, instance, h.before.db, h.action.fetchAt), instance, TASK);
    if Succeeds(h.action) {
      MaxIsUnique(later, t.startAt);
    } else {
      assert later == earlier;
    }
  }

  // ---------- The fate of one event ----------

  /** The event is in the window of a successful run over `db` that fetches at `fetchAt`. */
  predicate Admits(db: Repo, instance: string, fetchAt: int, e: Logged) {
    e.visibleAt <= fetchAt && IsNewer(e.event, MarkOf(db, instance))
  }

  /** The watermark has reached the event's timestamp. */
  predicate Passed(db: Repo, instance: string, e: Logged) {
    !IsNewer(e.event, MarkOf(db, instance))
  }

  function Beginning(h: History): Repo {
    match h
    case Begin(db, _) => db
    case Next(before, _, _) => Beginning(before)
  }

  /** In how many successful windows the event was aggregated. */
  function TimesIngested(h: History, instance: string, e: Logged): nat {
    match h
    case Begin(_, _) => 0
    case Next(before, a, _) =>
      TimesIngested(before, instance, e) + if Succeeds(a) && Admits(before.db, instance, a.fetchAt, e) then 1 else 0
  }

  /** How many successes took the watermark past the event without having been able to see it. */
  function TimesLost(h: History, instance: string, e: Logged): nat {
    match h
    case Begin(_, _) => 0
    case Next(before, a, _) =>
      TimesLost(before, instance, e)
      + if Succeeds(a) && !Passed(before.db, instance, e) && a.fetchAt < e.visibleAt && e.event.time <= a.trace.startAt
        then 1 else 0
  }

  /** How many purges took the watermark back before the event. */
  function TimesReopened(h: History, instance: string, e: Logged): nat {
    match h
    case Begin(_, _) => 0
    case Next(before, a, db) =>
      TimesReopened(before, instance, e)
      + if a.PurgeRuns? && Passed(before.db, instance, e) && !Passed(db, instance, e) then 1 else 0
  }

  /**
   The ledger of one event: it is passed by being ingested or by being lost, and it can be passed again only after
   a purge reopened it. Over every serial history, whatever it begins with and whatever its purges delete.
   */
  lemma {:induction false} Ledger(log: seq<Logged>, instance: string, h: History, e: Logged)
    requires Serial(log, instance, h) && e.event.time <= e.visibleAt
    ensures TimesIngested(h, instance, e) + TimesLost(h, instance, e)
            + (if Passed(Beginning(h), instance, e) then 1 else 0)
         == TimesReopened(h, instance, e) + (if Passed(h.db, instance, e) then 1 else 0)
  {
    if h.Next? {
      Ledger(log, instance, h.before, e);
      WatermarkMoves(log, instance, h);
      NoRunAhead(log, instance, h.before);
    }
  }

  /**
   An event is ingested at most once more often than purges reopen it. It is settled exactly once, by being ingested
   or lost, as soon as the watermark has passed it and never before, if and only if no purge reopens it.
   */
  lemma AtMostOnce(log: seq<Logged>, instance: string, h: History, e: Logged)
    requires Serial(log, instance, h) && e.event.time <= e.visibleAt && !Passed(Beginning(h), instance, e)
    ensures
      var settled := TimesIngested(h, instance, e) + TimesLost(h, instance, e);
      && settled <= 1 + TimesReopened(h, instance, e)
      && (settled == (if Passed(h.db, instance, e) then 1 else 0) <==> TimesReopened(h, instance, e) == 0)
  {
    Ledger(log, instance, h, e);
  }

  /** A purge reopens an event exactly when it deletes every success that had reached it. */
  lemma ReopensIff(log: seq<Logged>, instance: string, h: History, e: Logged)
    requires Serial(log, instance, h) && h.Next? && h.action.PurgeRuns?
    ensures TimesReopened(h, instance, e) == TimesReopened(h.before, instance, e)
            + if SuccessFrom(h.before.db.runs, instance, e.event.time)
                 && !SuccessFrom(h.db.runs, instance, e.event.time) then 1 else 0
  {
    WatermarkReaches(h.before.db, instance, e.event.time);
    WatermarkReaches(h.db, instance, e.event.time);
  }

  lemma {:induction false} KeepingNewestReopensNothing(h: History, instance: string, e: Logged)
    requires KeepsNewest(h, instance)
    ensures TimesReopened(h, instance, e) == 0
  {
    if h.Next? { KeepingNewestReopensNothing(h.before, instance, e); }
  }

  /** Some success fetched after the event had become visible. */
  predicate Seen(h: History, e: Logged) {
    h.Next? && (Seen(h.before, e) || (Succeeds(h.action) && e.visibleAt <= h.action.fetchAt))
  }

  /** Some success fetched before the event became visible, yet started at or after the event's time. */
  predicate Lost(h: History, e: Logged) {
    h.Next? && (Lost(h.before, e) || (Succeeds(h.action) && h.action.fetchAt < e.visibleAt
                                      && e.event.time <= h.action.trace.startAt))
  }

  /**
   Exact accounting for an event that no purge reopened: it is aggregated once if the watermark had not reached it
   at the beginning, some success could see it, and it was not lost before that; and never otherwise.
   */
  lemma {:induction false} ExactAccounting(log: seq<Logged>, instance: string, h: History, e: Logged)
    requires Serial(log, instance, h) && TimesReopened(h, instance, e) == 0
    requires e.event.time <= e.visibleAt
    ensures
      var begun := Passed(Beginning(h), instance, e);
      && TimesIngested(h, instance, e) == (if !begun && Seen(h, e) && !Lost(h, e) then 1 else 0)
      && (begun || Seen(h, e) || Lost(h, e) <==> Passed(h.db, instance, e))
      && (Seen(h, e) ==> e.visibleAt <= Clock(h))
  {
    if h.Next? {
      ExactAccounting(log, instance, h.before, e);
      WatermarkMoves(log, instance, h);
      NoRunAhead(log, instance, h.before);
    }
  }

  /** A completed purge of the runs older than a cutoff leaves the watermark alone or leaves none. */
  lemma CompletePurge(db: Repo, instance: string, cutoff: int)
    ensures
      Watermark(RunsFrom(db.runs, cutoff), instance, TASK) ==
      if MarkOf(db, instance).Some? && MarkOf(db, instance).value >= cutoff then MarkOf(db, instance) else None
  {
    assert MidRunPurge(db.runs, RunsFrom(db.runs, cutoff), cutoff);
    MidPurgeWatermark(db.runs, RunsFrom(db.runs, cutoff), cutoff, instance, TASK);
  }

  /**
   After any purge, however far it got, the next success ingests an event that had been passed once more exactly
   when it can see the event and the purge has left no success that had reached it.
   */
  lemma PurgeReopens(log: seq<Logged>, instance: string, h: History, e: Logged)
    requires Serial(log, instance, h) && h.Next? && h.before.Next?
    requires Succeeds(h.action) && h.before.action.PurgeRuns? && Passed(h.before.before.db, instance, e)
    ensures
      var purge := h.before;
      var again := e.visibleAt <= h.action.fetchAt && !SuccessFrom(purge.db.runs, instance, e.event.time);
      && TimesIngested(h, instance, e) == TimesIngested(purge.before, instance, e) + (if again then 1 else 0)
      && (purge.db.runs == RunsFrom(purge.before.db.runs, purge.action.cutoff) ==>
            (again <==> e.visibleAt <= h.action.fetchAt
                        && MarkOf(purge.before.db, instance).value < purge.action.cutoff))
  {
    var purge := h.before;
    WatermarkReaches(purge.db, instance, e.event.time);
    CompletePurge(purge.before.db, instance, purge.action.cutoff);
    assert TimesIngested(h, instance, e) == TimesIngested(purge, instance, e)
           + if Admits(purge.db, instance, h.action.fetchAt, e) then 1 else 0;
    assert TimesIngested(purge, instance, e) == TimesIngested(purge.before, instance, e);
  }

  // ---------- The event log over time ----------

  /** Events are appended in the order in which they become visible. */
  ghost predicate Appended(log: seq<Logged>) {
    log == [] ||
    (Appended(log[..|log| - 1]) && forall x :: x in log[..|log| - 1] ==> x.visibleAt <= log[|log| - 1].visibleAt)
  }

  /** No later entry is older than the first one. */
  ghost predicate OldestFirst(log: seq<Logged>) {
    forall x :: x in log ==> log[0].event.time <= x.event.time
  }

  lemma {:induction false} AllFetched(log: seq<Logged>, f: int, later: int)
    requires f <= later && forall x :: x in log ==> x.visibleAt <= f
    ensures Fetched(log, f) == Fetched(log, later)
  {
    if log != [] { AllFetched(log[..|log| - 1], f, later); }
  }

  lemma {:induction false} FetchedGrows(log: seq<Logged>, f: int, later: int)
    requires Appended(log) && f <= later
    ensures Fetched(log, f) <= Fetched(log, later)
  {
    if log != [] {
      var n := |log| - 1;
      if log[n].visibleAt <= f {
        assert forall x :: x in log ==> x in log[..n] || x == log[n];
        AllFetched(log, f, later);
      } else {
        FetchedGrows(log[..n], f, later);
      }
    }
  }

  lemma {:induction false} FetchedFromLog(log: seq<Logged>, f: int)
    requires Appended(log)
    ensures forall e :: e in Fetched(log, f) ==> exists x :: x in log && x.event == e
    ensures Fetched(log, f) != [] ==> Fetched(log, f)[0] == log[0].event
  {
    if log != [] {
      var n := |log| - 1;
      FetchedFromLog(log[..n], f);
      assert forall x :: x in log[..n] ==> x in log;
    }
  }
}
