/** Deadlock events from the system_health ring buffer: deadlocks.py. The buffer evicts; the table keeps. */
module Deadlocks {
  import opened Common
  import opened Merge
  import opened WorkloadMetrics
  import opened Repository
  import opened Collector
  import WorkloadCollection

  const TASK := "deadlocks"

  datatype Process = Process(id: Option<string>, session: Option<int>, login: Option<string>, program: Option<string>)

  datatype Victim = Victim(session: Option<int>, login: Option<string>, program: Option<string>)

  datatype Details = Details(victim: Victim, processCount: nat, resources: Option<string>, graph: string)

  datatype Deadlock = Deadlock(time: int, details: Details)

  datatype DeadlockKey = DeadlockKey(instance: string, time: int)
  type DeadlockRow = Row<DeadlockKey, (), Details>
  type DeadlockTable = Table<DeadlockKey, (), Details>

  /** The two collectors keep each other's watermarks, on every instance. */
  lemma CollectorsKeepApart<K, A, M>(db: Db<K, A, M>, t: Trace, rows: seq<Row<K, A, M>>, instance: string)
    requires FreshIds(db) && Possible(t, rows)
    ensures t.task == TASK ==>
              Watermark(RunEffect(db, t, rows).runs, instance, "workload") == Watermark(db.runs, instance, "workload")
    ensures t.task == WorkloadCollection.TASK ==>
              Watermark(RunEffect(db, t, rows).runs, instance, "deadlocks") == Watermark(db.runs, instance, "deadlocks")
  {
    assert TASK[0] == 'd' && WorkloadCollection.TASK[0] == 'w' && "workload"[0] == 'w' && "deadlocks"[0] == 'd';
    if t.task == TASK { OtherWatermarks(db, t, rows, instance, "workload"); }
    if t.task == WorkloadCollection.TASK { OtherWatermarks(db, t, rows, instance, "deadlocks"); }
  }

  // ---------- Parsing one report ----------

  predicate IsVictim(p: Process, victimIds: set<string>) {
    p.id.Some? && p.id.value in victimIds
  }

  /** The search loop of _parse_one_deadlock: the first listed process that is a victim, else three NULLs. */
  method FindVictim(processes: seq<Process>, victimIds: set<string>) returns (v: Victim)
    ensures (exists i :: 0 <= i < |processes| && processes[i].id.Some? && processes[i].id.value in victimIds
                         && (forall j :: 0 <= j < i ==> processes[j].id.None? || processes[j].id.value !in victimIds)
                         && v == Victim(processes[i].session, processes[i].login, processes[i].program))
         || ((forall p :: p in processes ==> p.id.None? || p.id.value !in victimIds) && v == Victim(None, None, None))
  {
    for i := 0 to |processes|
      invariant forall j :: 0 <= j < i ==> !IsVictim(processes[j], victimIds)
    {
      var p := processes[i];
      if IsVictim(p, victimIds) {
        return Victim(p.session, p.login, p.program);
      }
    }
    v := Victim(None, None, None);
  }

  // ---------- transform ----------

  predicate Above(time: int, watermark: Option<int>) {
    watermark.None? || time > watermark.value
  }

  function KeyOf(instance: string, d: Deadlock): DeadlockKey {
    DeadlockKey(instance, d.time)
  }

  /** One row per buffered event above the watermark, in buffer order. */
  function RowsOf(instance: string, watermark: Option<int>, buffer: seq<Deadlock>): seq<DeadlockRow> {
    if buffer == [] then []
    else
      var n := |buffer| - 1;
      RowsOf(instance, watermark, buffer[..n])
      + if Above(buffer[n].time, watermark) then [Row(KeyOf(instance, buffer[n]), (), buffer[n].details)] else []
  }

  lemma {:induction false} RowsOfMembers(instance: string, watermark: Option<int>, buffer: seq<Deadlock>)
    ensures forall r :: r in RowsOf(instance, watermark, buffer) <==>
              exists d :: d in buffer && (watermark.None? || d.time > watermark.value)
                          && r == Row(DeadlockKey(instance, d.time), (), d.details)
  {
    if buffer != [] {
      var n := |buffer| - 1;
      RowsOfMembers(instance, watermark, buffer[..n]);
      assert buffer == buffer[..n] + [buffer[n]];
    }
  }

  // ---------- Incremental against full re-read ----------

  /** What the buffer says of a moment; of several reports with one timestamp, the last one. */
  function Reported(buffer: seq<Deadlock>, time: int): Option<Details> {
    if buffer == [] then None
    else
      var n := |buffer| - 1;
      if buffer[n].time == time then Some(buffer[n].details) else Reported(buffer[..n], time)
  }

  /** The run writes this key. */
  predicate Written(instance: string, watermark: Option<int>, buffer: seq<Deadlock>, k: DeadlockKey) {
    k.instance == instance && Above(k.time, watermark) && Reported(buffer, k.time).Some?
  }

  lemma MergedLast(t: DeadlockTable, instance: string, watermark: Option<int>, buffer: seq<Deadlock>)
    requires buffer != []
    ensures
      var n := |buffer| - 1;
      var before := UpsertAll(t, RowsOf(instance, watermark, buffer[..n]));
      UpsertAll(t, RowsOf(instance, watermark, buffer))
      == if Above(buffer[n].time, watermark) then before[KeyOf(instance, buffer[n]) := Cell((), buffer[n].details)]
         else before
  {
    var n := |buffer| - 1;
    var front, d := RowsOf(instance, watermark, buffer[..n]), buffer[n];
    if Above(d.time, watermark) {
      var row: DeadlockRow := Row(KeyOf(instance, d), (), d.details);
      assert (front + [row])[..|front|] == front;
      assert RowsOf(instance, watermark, buffer) == front + [row];
      UnitCell(Upsert(UpsertAll(t, front), row)[row.key]);
    } else {
      assert RowsOf(instance, watermark, buffer) == front;
    }
  }

  lemma UnitCell(c: Cell<(), Details>)
    ensures c == Cell((), c.measured)
  {
    assert c.fixed == ();
  }

  /** Merging stores, for every moment above the watermark, its last report, and leaves every other row as it was. */
  lemma {:induction false} MergedAt(t: DeadlockTable, instance: string, watermark: Option<int>, buffer: seq<Deadlock>,
                                    k: DeadlockKey)
    ensures
      var after := UpsertAll(t, RowsOf(instance, watermark, buffer));
      var written := Written(instance, watermark, buffer, k);
      && (k in after <==> k in t || written)
      && (written ==> after[k].measured == Reported(buffer, k.time).value)
      && (k in t && !written ==> after[k] == t[k])
  {
    if buffer != [] {
      MergedAt(t, instance, watermark, buffer[..|buffer| - 1], k);
      MergedLast(t, instance, watermark, buffer);
    }
  }

  /** The watermark hides a buffered report that the table does not show. */
  ghost predicate Hidden(t: DeadlockTable, instance: string, watermark: Option<int>, buffer: seq<Deadlock>,
                         k: DeadlockKey) {
    && k.instance == instance && !Above(k.time, watermark) && Reported(buffer, k.time).Some?
    && (k !in t || t[k].measured != Reported(buffer, k.time).value)
  }

  lemma SameCell(a: Cell<(), Details>, b: Cell<(), Details>)
    ensures a == b <==> a.measured == b.measured
  {
    assert a.fixed == () == b.fixed;
  }

  /** The incremental run agrees with a full re-read of the buffer on exactly the keys the watermark does not hide. */
  lemma IncrementalIsFullReread(t: DeadlockTable, instance: string, watermark: Option<int>, buffer: seq<Deadlock>,
                                k: DeadlockKey)
    ensures SameRow(UpsertAll(t, RowsOf(instance, watermark, buffer)), UpsertAll(t, RowsOf(instance, None, buffer)), k)
            <==> !Hidden(t, instance, watermark, buffer, k)
  {
    var incremental := UpsertAll(t, RowsOf(instance, watermark, buffer));
    var full := UpsertAll(t, RowsOf(instance, None, buffer));
    MergedAt(t, instance, watermark, buffer, k);
    MergedAt(t, instance, None, buffer, k);
    if k in incremental && k in full { SameCell(incremental[k], full[k]); }
  }

  lemma {:induction false} ReportedIff(buffer: seq<Deadlock>, time: int)
    ensures Reported(buffer, time).Some? <==> exists d :: d in buffer && d.time == time
  {
    if buffer != [] {
      var n := |buffer| - 1;
      assert buffer == buffer[..n] + [buffer[n]];
      ReportedIff(buffer[..n], time);
    }
  }

  /** The watermark, as the successes on record: a moment is above it when all of them started before it. */
  lemma AboveIff(db: Repo, instance: string, time: int)
    ensures Above(time, MarkOf(db, instance)) <==>
            forall id :: id in db.runs && Succeeded(db.runs[id], instance, "deadlocks") ==> db.runs[id].startedAt < time
  {
    WatermarkIsNewestSuccess(db.runs, instance, "deadlocks", MarkOf(db, instance));
  }

  /**
   A run that commits all of its rows stores a report that is not stored yet exactly when it is in the buffer and
   every recorded success of the instance started before it.
   */
  lemma NewReportStored(db: Repo, instance: string, buffer: seq<Deadlock>, k: DeadlockKey)
    requires k !in db.facts
    ensures k in UpsertAll(db.facts, RowsOf(instance, MarkOf(db, instance), buffer)) <==>
            && k.instance == instance && (exists d :: d in buffer && d.time == k.time)
            && forall id :: id in db.runs && Succeeded(db.runs[id], instance, "deadlocks") ==>
                 db.runs[id].startedAt < k.time
  {
    MergedAt(db.facts, instance, MarkOf(db, instance), buffer, k);
    ReportedIff(buffer, k.time);
    AboveIff(db, instance, k.time);
  }

  /** A replay of the same buffer changes nothing, and moments that a later buffer no longer reports keep their rows. */
  lemma ReplayAndEviction(t: DeadlockTable, instance: string, watermark: Option<int>, buffer: seq<Deadlock>,
                          later: seq<Deadlock>)
    ensures
      var once := UpsertAll(t, RowsOf(instance, watermark, buffer));
      var after := UpsertAll(once, RowsOf(instance, watermark, later));
      && UpsertAll(once, RowsOf(instance, watermark, buffer)) == once
      && forall k :: k in once && (Reported(later, k.time).None? || Reported(later, k.time) == Some(once[k].measured))
                     ==> k in after && after[k] == once[k]
  {
    var once := UpsertAll(t, RowsOf(instance, watermark, buffer));
    var after := UpsertAll(once, RowsOf(instance, watermark, later));
    Absorb(t, RowsOf(instance, watermark, buffer), RowsOf(instance, watermark, buffer));
    forall k | k in once && (Reported(later, k.time).None? || Reported(later, k.time) == Some(once[k].measured))
      ensures k in after && after[k] == once[k]
    {
      MergedAt(once, instance, watermark, later, k);
      SameCell(after[k], once[k]);
    }
  }

  // ---------- row_count ----------

  /** No two reports above the watermark carry one timestamp. */
  ghost predicate DistinctMoments(watermark: Option<int>, buffer: seq<Deadlock>) {
    buffer == [] ||
    (var n := |buffer| - 1;
     && DistinctMoments(watermark, buffer[..n])
     && (Above(buffer[n].time, watermark) ==> Reported(buffer[..n], buffer[n].time).None?))
  }

  lemma {:induction false} MomentsAreKeys(instance: string, watermark: Option<int>, buffer: seq<Deadlock>)
    ensures DistinctKeys(RowsOf(instance, watermark, buffer)) <==> DistinctMoments(watermark, buffer)
  {
    if buffer != [] {
      var n := |buffer| - 1;
      var front, d := RowsOf(instance, watermark, buffer[..n]), buffer[n];
      MomentsAreKeys(instance, watermark, buffer[..n]);
      if Above(d.time, watermark) {
        var row := Row(KeyOf(instance, d), (), d.details);
        assert RowsOf(instance, watermark, buffer) == front + [row];
        assert (front + [row])[..|front|] == front;
        DistinctKeysSnoc(front + [row]);
        MergedAt(map[], instance, watermark, buffer[..n], row.key);
        UpsertAllAt(map[], front, row.key);
      } else {
        assert RowsOf(instance, watermark, buffer) == front;
      }
    }
  }

  /** The table grows by the logged row_count exactly when every row is of its own moment, not stored before. */
  lemma StoredRowsMatchRowCount(t: DeadlockTable, instance: string, watermark: Option<int>, buffer: seq<Deadlock>)
    ensures
      var rows := RowsOf(instance, watermark, buffer);
      |UpsertAll(t, rows)| == |t| + |rows|
      <==> DistinctMoments(watermark, buffer) && forall r :: r in rows ==> r.key !in t
  {
    DistinctKeysCounted(t, RowsOf(instance, watermark, buffer));
    MomentsAreKeys(instance, watermark, buffer);
  }

  // ---------- The same over whole histories ----------

  type Repo = Db<DeadlockKey, (), Details>

  /** Runs, each with the buffer it found, and whatever leaves the instance's rows alone, purges of runs included. */
  datatype Runs =
    | Start(db: Repo)
    | After(before: Runs, fetchAt: int, buffer: seq<Deadlock>, trace: Trace, db: Repo)
    | Meanwhile(before: Runs, db: Repo)

  function MarkOf(db: Repo, instance: string): Option<int> {
    Watermark(db.runs, instance, TASK)
  }

  function Own(t: DeadlockTable, instance: string): DeadlockTable {
    map k | k in t && k.instance == instance :: t[k]
  }

  /** Each run has one of its possible effects on what it found. */
  ghost predicate Legal(instance: string, h: Runs) {
    match h
    case Start(_) => true
    case After(before, _, buffer, t, db) =>
      && Legal(instance, before)
      && t.instance == instance && t.task == TASK
      && var rows := RowsOf(instance, MarkOf(before.db, instance), buffer);
         Possible(t, rows) && db == RunEffect(before.db, t, rows)
    case Meanwhile(before, db) => Legal(instance, before) && Own(db.facts, instance) == Own(before.db.facts, instance)
  }

  /** The rows a run committed. */
  function Committed(instance: string, h: Runs): seq<DeadlockRow>
    requires Legal(instance, h) && h.After?
  {
    RowsOf(instance, MarkOf(h.before.db, instance), h.buffer)[..h.trace.kept]
  }

  /** The instance's rows if every success had merged its whole buffer. */
  function FullReread(instance: string, h: Runs): DeadlockTable
    requires Legal(instance, h)
  {
    match h
    case Start(db) => Own(db.facts, instance)
    case After(before, _, buffer, t, _) =>
      UpsertAll(FullReread(instance, before),
                if t.mark.MarkedSuccess? then RowsOf(instance, None, buffer) else Committed(instance, h))
    case Meanwhile(before, _) => FullReread(instance, before)
  }

  /**
   The last success that found a report for the key in its buffer had it hidden by the watermark, and no failed run
   has written the key since.
   */
  ghost predicate LastHidden(instance: string, h: Runs, k: DeadlockKey)
    requires Legal(instance, h)
  {
    match h
    case Start(_) => false
    case After(before, _, buffer, t, _) =>
      if !t.mark.MarkedSuccess? then LastHidden(instance, before, k) && !Mentions(Committed(instance, h), k)
      else if k.instance == instance && Reported(buffer, k.time).Some? then
        Hidden(before.db.facts, instance, MarkOf(before.db, instance), buffer, k)
      else LastHidden(instance, before, k)
    case Meanwhile(before, _) => LastHidden(instance, before, k)
  }

  lemma RowsAreOwn(instance: string, watermark: Option<int>, buffer: seq<Deadlock>)
    ensures forall r :: r in RowsOf(instance, watermark, buffer) ==> r.key.instance == instance
  {
    RowsOfMembers(instance, watermark, buffer);
  }

  /** A batch that two tables both take in leaves them in the same relation at a key, or the same row there. */
  lemma MergedIntoBoth(a: DeadlockTable, b: DeadlockTable, rows: seq<DeadlockRow>, k: DeadlockKey)
    ensures SameRow(UpsertAll(a, rows), UpsertAll(b, rows), k) <==> SameRow(a, b, k) || Mentions(rows, k)
  {
    UpsertAllAt(a, rows, k);
    UpsertAllAt(b, rows, k);
    if Mentions(rows, k) {
      SameCell(UpsertAll(a, rows)[k], UpsertAll(b, rows)[k]);
    }
  }

  lemma OwnAfter(instance: string, h: Runs, k: DeadlockKey)
    requires Legal(instance, h) && h.After? && k.instance == instance
    ensures SameRow(Own(h.db.facts, instance), UpsertAll(h.before.db.facts, Committed(instance, h)), k)
    ensures h.trace.mark.MarkedSuccess? ==>
              Committed(instance, h) == RowsOf(instance, MarkOf(h.before.db, instance), h.buffer)
  {
  }

  lemma {:induction false} FullRereadIsOwn(instance: string, h: Runs)
    requires Legal(instance, h)
    ensures forall k :: k in FullReread(instance, h) ==> k.instance == instance
  {
    match h
    case Start(_) =>
    case Meanwhile(before, _) => FullRereadIsOwn(instance, before);
    case After(before, _, buffer, t, _) =>
      FullRereadIsOwn(instance, before);
      RowsAreOwn(instance, None, buffer);
      RowsAreOwn(instance, MarkOf(before.db, instance), buffer);
      UpsertAllKeys(FullReread(instance, before),
                    if t.mark.MarkedSuccess? then RowsOf(instance, None, buffer) else Committed(instance, h));
  }

  /** Key by key, over any history: the table shows what full re-reads would, unless the last report was hidden. */
  lemma {:induction false} FateOfKey(instance: string, h: Runs, k: DeadlockKey)
    requires Legal(instance, h) && k.instance == instance
    ensures SameRow(Own(h.db.facts, instance), FullReread(instance, h), k) <==> !LastHidden(instance, h, k)
  {
    match h
    case Start(_) =>
    case Meanwhile(before, _) => FateOfKey(instance, before, k);
    case After(before, _, buffer, t, _) =>
      FateOfKey(instance, before, k);
      OwnAfter(instance, h, k);
      if t.mark.MarkedSuccess? {
        FateAtSuccess(instance, h, k);
      } else {
        MergedIntoBoth(before.db.facts, FullReread(instance, before), Committed(instance, h), k);
      }
  }

  lemma FateAtSuccess(instance: string, h: Runs, k: DeadlockKey)
    requires Legal(instance, h) && h.After? && h.trace.mark.MarkedSuccess? && k.instance == instance
    requires SameRow(h.before.db.facts, FullReread(instance, h.before), k) <==> !LastHidden(instance, h.before, k)
    ensures SameRow(UpsertAll(h.before.db.facts, RowsOf(instance, MarkOf(h.before.db, instance), h.buffer)),
                    FullReread(instance, h), k)
            <==> !LastHidden(instance, h, k)
  {
    var w, facts := MarkOf(h.before.db, instance), h.before.db.facts;
    MergedAt(facts, instance, w, h.buffer, k);
    MergedAt(FullReread(instance, h.before), instance, None, h.buffer, k);
    var a, b := UpsertAll(facts, RowsOf(instance, w, h.buffer)), FullReread(instance, h);
    if k in a && k in b { SameCell(a[k], b[k]); }
  }

  /** The table is the one with full re-reads at every success exactly when no key's last report was hidden. */
  lemma HistoryIsFullReread(instance: string, h: Runs)
    requires Legal(instance, h)
    ensures Own(h.db.facts, instance) == FullReread(instance, h)
            <==> forall k: DeadlockKey :: k.instance == instance ==> !LastHidden(instance, h, k)
  {
    var a, b := Own(h.db.facts, instance), FullReread(instance, h);
    FullRereadIsOwn(instance, h);
    forall k: DeadlockKey | k.instance == instance ensures SameRow(a, b, k) <==> !LastHidden(instance, h, k) {
      FateOfKey(instance, h, k);
    }
    if forall k: DeadlockKey :: k.instance == instance ==> !LastHidden(instance, h, k) {
      forall k ensures SameRow(a, b, k) {
        assert k.instance != instance ==> k !in a && k !in b;
      }
      SameRows(a, b);
    }
  }

  // ---------- When a late report is missed for good ----------

  /** At every success, the table had whatever the watermark hid. */
  ghost predicate OnTime(instance: string, h: Runs) {
    !h.Start? ==>
      && OnTime(instance, h.before)
      && (h.After? && h.trace.mark.MarkedSuccess? ==>
            forall k :: !Hidden(h.before.db.facts, instance, MarkOf(h.before.db, instance), h.buffer, k))
  }

  /** The watermark never falls back: no purge deletes the newest success, and clocks do not run backwards. */
  ghost predicate MarkHolds(instance: string, h: Runs) {
    !h.Start? ==>
      && MarkHolds(instance, h.before)
      && (MarkOf(h.before.db, instance).Some? ==>
            MarkOf(h.db, instance).Some? && MarkOf(h.before.db, instance).value <= MarkOf(h.db, instance).value)
  }

  /** Every buffer shows part of one unchanging record, and the table began as part of it too. */
  ghost predicate Truthful(truth: map<int, Details>, instance: string, h: Runs) {
    match h
    case Start(db) =>
      forall k :: k in Own(db.facts, instance) ==> k.time in truth && db.facts[k].measured == truth[k.time]
    case After(before, _, buffer, _, _) =>
      && Truthful(truth, instance, before)
      && forall d :: d in buffer ==> d.time in truth && truth[d.time] == d.details
    case Meanwhile(before, _) => Truthful(truth, instance, before)
  }

  lemma {:induction false} OnTimeIsFull(instance: string, h: Runs, k: DeadlockKey)
    requires Legal(instance, h) && OnTime(instance, h)
    ensures !LastHidden(instance, h, k)
  {
    if !h.Start? { OnTimeIsFull(instance, h.before, k); }
  }

  lemma {:induction false} ReportedTruthful(truth: map<int, Details>, buffer: seq<Deadlock>, time: int)
    requires forall d :: d in buffer ==> d.time in truth && truth[d.time] == d.details
    ensures Reported(buffer, time).Some? ==> time in truth && Reported(buffer, time).value == truth[time]
  {
    if buffer != [] {
      assert buffer[|buffer| - 1] in buffer;
      ReportedTruthful(truth, buffer[..|buffer| - 1], time);
    }
  }

  /** With an unchanging record, every stored row shows it. */
  lemma {:induction false} StoredTruthful(truth: map<int, Details>, instance: string, h: Runs, k: DeadlockKey)
    requires Legal(instance, h) && Truthful(truth, instance, h) && k in Own(h.db.facts, instance)
    ensures k.time in truth && h.db.facts[k].measured == truth[k.time]
  {
    match h
    case Start(_) =>
    case Meanwhile(before, _) =>
      assert h.db.facts[k] == Own(h.db.facts, instance)[k] == Own(before.db.facts, instance)[k];
      StoredTruthful(truth, instance, before, k);
    case After(before, _, buffer, t, _) =>
      var rows := RowsOf(instance, MarkOf(before.db, instance), buffer);
      var part := Committed(instance, h);
      UpsertAllAt(before.db.facts, part, k);
      if Mentions(part, k) {
        RowsOfMembers(instance, MarkOf(before.db, instance), buffer);
        assert part[LastAt(part, k)] in rows;
      } else {
        StoredTruthful(truth, instance, before, k);
      }
  }

  /** A report of an unchanging record that a success finds hidden is not stored then, nor ever after. */
  lemma {:induction false} MissedForGood(truth: map<int, Details>, instance: string, h: Runs) returns (k: DeadlockKey)
    requires Legal(instance, h) && Truthful(truth, instance, h) && MarkHolds(instance, h) && !OnTime(instance, h)
    ensures k.instance == instance && k !in h.db.facts && LastHidden(instance, h, k)
    ensures !Above(k.time, MarkOf(h.db, instance))
  {
    if !OnTime(instance, h.before) {
      k := MissedForGood(truth, instance, h.before);
      StillMissed(instance, h, k);
    } else {
      k :| Hidden(h.before.db.facts, instance, MarkOf(h.before.db, instance), h.buffer, k);
      ReportedTruthful(truth, h.buffer, k.time);
      if k in h.before.db.facts { StoredTruthful(truth, instance, h.before, k); }
      MergedAt(h.before.db.facts, instance, MarkOf(h.before.db, instance), h.buffer, k);
      OwnAfter(instance, h, k);
    }
  }

  lemma NotCommitted(instance: string, h: Runs, k: DeadlockKey)
    requires Legal(instance, h) && h.After? && !Above(k.time, MarkOf(h.before.db, instance))
    ensures !Mentions(Committed(instance, h), k)
  {
    var w := MarkOf(h.before.db, instance);
    var rows := RowsOf(instance, w, h.buffer);
    RowsOfMembers(instance, w, h.buffer);
    forall i | 0 <= i < h.trace.kept ensures rows[..h.trace.kept][i].key != k {
      assert rows[i] in rows;
    }
  }

  lemma StillMissed(instance: string, h: Runs, k: DeadlockKey)
    requires Legal(instance, h) && !h.Start? && MarkHolds(instance, h) && k.instance == instance
    requires k !in h.before.db.facts && LastHidden(instance, h.before, k)
    requires !Above(k.time, MarkOf(h.before.db, instance))
    ensures k !in h.db.facts && LastHidden(instance, h, k) && !Above(k.time, MarkOf(h.db, instance))
  {
    if h.After? {
      NotCommitted(instance, h, k);
      OwnAfter(instance, h, k);
      UpsertAllAt(h.before.db.facts, Committed(instance, h), k);
    } else {
      assert k in Own(h.db.facts, instance) <==> k in Own(h.before.db.facts, instance);
    }
  }

  /**
   With an unchanging record and a watermark that holds, the table is the one with full re-reads exactly when no
   success ever met a late report, one the watermark hid before anything had stored it. Being on time suffices for
   any buffers and any purges.
   */
  lemma FullRereadIffOnTime(truth: map<int, Details>, instance: string, h: Runs)
    requires Legal(instance, h)
    ensures OnTime(instance, h) ==> Own(h.db.facts, instance) == FullReread(instance, h)
    ensures Truthful(truth, instance, h) && MarkHolds(instance, h) && !OnTime(instance, h) ==>
              Own(h.db.facts, instance) != FullReread(instance, h)
  {
    HistoryIsFullReread(instance, h);
    if OnTime(instance, h) {
      forall k ensures !LastHidden(instance, h, k) { OnTimeIsFull(instance, h, k); }
    } else if Truthful(truth, instance, h) && MarkHolds(instance, h) {
      var k := MissedForGood(truth, instance, h);
    }
  }

  // ---------- The ledger of one report ----------

  /** A report and when the ring buffer shows it: from its appearance until it is evicted. */
  datatype Shown = Shown(report: Deadlock, from: int, until: int)

  function BufferAt(log: seq<Shown>, now: int): seq<Deadlock> {
    if log == [] then []
    else
      var x := log[|log| - 1];
      BufferAt(log[..|log| - 1], now) + if x.from <= now < x.until then [x.report] else []
  }

  lemma {:induction false} BufferMembers(log: seq<Shown>, now: int, d: Deadlock)
    ensures d in BufferAt(log, now) <==> exists x :: x in log && x.report == d && x.from <= now < x.until
  {
    if log != [] {
      var front, x := log[..|log| - 1], log[|log| - 1];
      assert log == front + [x];
      BufferMembers(front, now, d);
    }
  }

  /** When the last run row was started. */
  function LastStart(h: Runs): Option<int> {
    match h
    case Start(_) => None
    case After(before, _, _, t, _) => if t.mark.NoRun? then LastStart(before) else Some(t.startAt)
    case Meanwhile(before, _) => LastStart(before)
  }

  /** Runs follow one another and each fetches before it starts; in between successes may be purged, not added. */
  ghost predicate InOrder(log: seq<Shown>, instance: string, h: Runs) {
    match h
    case Start(db) => FreshIds(db) && forall x :: x in log ==> x.report.time <= x.from
    case After(before, fetchAt, buffer, t, _) =>
      && InOrder(log, instance, before) && buffer == BufferAt(log, fetchAt)
      && (MarkOf(before.db, instance).Some? ==> MarkOf(before.db, instance).value <= fetchAt)
      && (LastStart(before).Some? ==> LastStart(before).value <= fetchAt)
      && (t.mark.NoRun? || fetchAt < t.startAt)
    case Meanwhile(before, db) =>
      && InOrder(log, instance, before) && FreshIds(db)
      && SuccessTimes(db.runs, instance, TASK) <= SuccessTimes(before.db.runs, instance, TASK)
  }

  lemma {:induction false} OrderedFacts(log: seq<Shown>, instance: string, h: Runs)
    requires Legal(instance, h) && InOrder(log, instance, h)
    ensures FreshIds(h.db) && forall x :: x in log ==> x.report.time <= x.from
  {
    if !h.Start? { OrderedFacts(log, instance, h.before); }
    if h.After? {
      EffectOnRuns(h.before.db, h.trace, RowsOf(instance, MarkOf(h.before.db, instance), h.buffer), instance, TASK);
    }
  }

  predicate Succeeds(h: Runs) {
    h.After? && h.trace.mark.MarkedSuccess?
  }

  lemma MarkMoves(log: seq<Shown>, instance: string, h: Runs)
    requires Legal(instance, h) && InOrder(log, instance, h) && !h.Start?
    ensures
      var w, w' := MarkOf(h.before.db, instance), MarkOf(h.db, instance);
      && (Succeeds(h) ==> w' == Some(h.trace.startAt))
      && (h.After? && !Succeeds(h) ==> w' == w)
      && (h.Meanwhile? && w'.Some? ==> w.Some? && w'.value <= w.value)
  {
    OrderedFacts(log, instance, h.before);
    var earlier, later := SuccessTimes(h.before.db.runs, instance, TASK), SuccessTimes(h.db.runs, instance, TASK);
    if h.After? {
      EffectOnRuns(h.before.db, h.trace, RowsOf(instance, MarkOf(h.before.db, instance), h.buffer), instance, TASK);
      if Succeeds(h) { MaxIsUnique(later, h.trace.startAt); } else { assert later == earlier; }
    }
  }

  /** Some recorded success started at or after the moment. */
  predicate Passed(db: Repo, instance: string, time: int) {
    !Above(time, MarkOf(db, instance))
  }

  ghost predicate InBuffer(log: seq<Shown>, now: int, time: int) {
    exists x :: x in log && x.report.time == time && x.from <= now < x.until
  }

  lemma InBufferReported(log: seq<Shown>, now: int, time: int)
    ensures InBuffer(log, now, time) <==> Reported(BufferAt(log, now), time).Some?
  {
    ReportedIff(BufferAt(log, now), time);
    if x :| x in log && x.report.time == time && x.from <= now < x.until {
      BufferMembers(log, now, x.report);
    }
    if d :| d in BufferAt(log, now) && d.time == time {
      BufferMembers(log, now, d);
    }
  }

  /** Successes that found a report of the moment in the buffer, above the watermark. */
  ghost function TimesWritten(log: seq<Shown>, instance: string, h: Runs, time: int): nat {
    if h.Start? then 0
    else
      TimesWritten(log, instance, h.before, time)
      + if Succeeds(h) && !Passed(h.before.db, instance, time) && InBuffer(log, h.fetchAt, time) then 1 else 0
  }

  /** Successes that passed the moment without finding it in the buffer. */
  ghost function TimesMissed(log: seq<Shown>, instance: string, h: Runs, time: int): nat {
    if h.Start? then 0
    else
      TimesMissed(log, instance, h.before, time)
      + if Succeeds(h) && !Passed(h.before.db, instance, time) && !InBuffer(log, h.fetchAt, time)
           && time <= h.trace.startAt then 1 else 0
  }

  /** Purges that left no success at or after the moment. */
  function TimesReopened(instance: string, h: Runs, time: int): nat {
    if h.Start? then 0
    else
      TimesReopened(instance, h.before, time)
      + if h.Meanwhile? && Passed(h.before.db, instance, time) && !Passed(h.db, instance, time) then 1 else 0
  }

  function First(h: Runs): Repo {
    if h.Start? then h.db else First(h.before)
  }

  /** A moment is passed by being written or by being missed, and again only after a purge has reopened it. */
  lemma {:induction false} ReportLedger(log: seq<Shown>, instance: string, h: Runs, time: int)
    requires Legal(instance, h) && InOrder(log, instance, h)
    ensures TimesWritten(log, instance, h, time) + TimesMissed(log, instance, h, time)
            + (if Passed(First(h), instance, time) then 1 else 0)
         == TimesReopened(instance, h, time) + (if Passed(h.db, instance, time) then 1 else 0)
  {
    if !h.Start? {
      ReportLedger(log, instance, h.before, time);
      MarkMoves(log, instance, h);
      OrderedFacts(log, instance, h);
    }
  }

  /** What a success has written stays. */
  lemma {:induction false} WrittenIsStored(log: seq<Shown>, instance: string, h: Runs, time: int)
    requires Legal(instance, h) && InOrder(log, instance, h) && TimesWritten(log, instance, h, time) > 0
    ensures DeadlockKey(instance, time) in h.db.facts
  {
    var k := DeadlockKey(instance, time);
    if TimesWritten(log, instance, h.before, time) > 0 { WrittenIsStored(log, instance, h.before, time); }
    if h.After? {
      OwnAfter(instance, h, k);
      UpsertAllAt(h.before.db.facts, Committed(instance, h), k);
      InBufferReported(log, h.fetchAt, time);
      MergedAt(h.before.db.facts, instance, MarkOf(h.before.db, instance), h.buffer, k);
    } else {
      assert k in Own(h.before.db.facts, instance);
    }
  }

  /** Reports are evicted only after a success has passed them. */
  ghost predicate Retained(log: seq<Shown>, instance: string, h: Runs) {
    !h.Start? ==>
      && Retained(log, instance, h.before)
      && (Succeeds(h) ==>
            forall x :: x in log && x.until <= h.fetchAt ==> Passed(h.before.db, instance, x.report.time))
  }

  /** Some success fetched after the report had appeared. */
  predicate Found(h: Runs, x: Shown) {
    !h.Start? && (Found(h.before, x) || (Succeeds(h) && x.from <= h.fetchAt))
  }

  /** Some success fetched before the report appeared, yet started at or after its time. */
  predicate Late(h: Runs, x: Shown) {
    !h.Start? && (Late(h.before, x) || (Succeeds(h) && h.fetchAt < x.from && x.report.time <= h.trace.startAt))
  }

  lemma {:induction false} FoundBefore(log: seq<Shown>, instance: string, h: Runs, x: Shown)
    requires Legal(instance, h) && InOrder(log, instance, h) && Found(h, x)
    ensures LastStart(h).Some? && x.from <= LastStart(h).value
  {
    if Found(h.before, x) { FoundBefore(log, instance, h.before, x); }
  }

  ghost predicate OnlyReport(log: seq<Shown>, x: Shown) {
    x in log && forall y :: y in log && y.report.time == x.report.time ==> y == x
  }

  /**
   A report that the buffer keeps until it is passed, and no purge has reopened, is written once if some success
   found it and none had passed it before it appeared, and never otherwise: only a late report is lost.
   */
  lemma {:induction false} ReportAccounting(log: seq<Shown>, instance: string, h: Runs, x: Shown)
    requires Legal(instance, h) && InOrder(log, instance, h) && Retained(log, instance, h) && OnlyReport(log, x)
    requires TimesReopened(instance, h, x.report.time) == 0 && !Passed(First(h), instance, x.report.time)
    ensures TimesWritten(log, instance, h, x.report.time) == if Found(h, x) && !Late(h, x) then 1 else 0
    ensures Passed(h.db, instance, x.report.time) <==> Found(h, x) || Late(h, x)
  {
    if !h.Start? {
      var time := x.report.time;
      ReportAccounting(log, instance, h.before, x);
      MarkMoves(log, instance, h);
      OrderedFacts(log, instance, h);
      if Succeeds(h) {
        if Found(h.before, x) { FoundBefore(log, instance, h.before, x); }
        assert InBuffer(log, h.fetchAt, time) <==> x.from <= h.fetchAt < x.until;
      }
    }
  }

  // ---------- The collector ----------

  class DeadlocksCollector {
    const sourceInstance: string
    var watermark: Option<int>

    constructor (sourceInstance: string)
      ensures this.sourceInstance == sourceInstance && watermark == None
    {
      this.sourceInstance := sourceInstance;
      watermark := None;
    }

    /** A run of the collector; `buffer` is None when the session's target returns no row. */
    method Run(conn: Connection<DeadlockKey, (), Details>, buffer: Option<seq<Deadlock>>, dryRun: bool,
               readFails: bool, startAt: int, endAt: int, error: string)
      returns (reply: Reply, ghost t: Trace)
      requires conn.working == conn.server.committed && FreshIds(conn.working)
      modifies this`watermark, conn`script, conn`working, conn.server`committed
      ensures (t.instance, t.task, t.startAt, t.endAt, t.error) == (sourceInstance, TASK, startAt, endAt, error)
      ensures
        var before := old(conn.server.committed);
        var events := if buffer.Some? then buffer.value else [];
        var rows := RowsOf(sourceInstance, Watermark(before.runs, sourceInstance, TASK), events);
        && Possible(t, rows)
        && conn.server.committed == RunEffect(before, t, rows)
        && Ending(reply, t.mark, t.kept)
           == EndingOf(old(conn.script), if readFails then None else Some(|rows|), dryRun)
    {
      if readFails {
        reply, t := Collector.Run(conn, sourceInstance, TASK, None, dryRun, startAt, endAt, error);
        return;
      }
      watermark := Watermark(conn.working.runs, sourceInstance, TASK);
      var rows := RowsOf(sourceInstance, watermark, if buffer.Some? then buffer.value else []);
      reply, t := Collector.Run(conn, sourceInstance, TASK, Some(rows), dryRun, startAt, endAt, error);
    }
  }
}
