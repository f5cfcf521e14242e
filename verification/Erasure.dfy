/**
 What failed attempts leave in fact_workload and what the next success makes of it: over whole histories, exactly
 when no trace of them remains, and into which windows rows ever go.
 */
module Erasure {
  import opened Common
  import opened Merge
  import opened Workload
  import opened Collector
  import opened WorkloadCollection
  import opened History

  // ---------- Failure erasure ----------

  lemma {:induction false} FetchedMembers(log: seq<Logged>, f: int)
    ensures forall e :: e in Fetched(log, f) ==> exists x :: x in log && x.event == e && x.visibleAt <= f
  {
    if log != [] {
      var n := |log| - 1;
      FetchedMembers(log[..n], f);
      assert forall x :: x in log[..n] ==> x in log;
      assert log[n] in log;
    }
  }

  lemma {:induction false} NewerThanNothing(events: seq<Event>)
    ensures Newer(events, None) == events
  {
    if events != [] { NewerThanNothing(events[..|events| - 1]); }
  }

  /** The time of the oldest event of a read. */
  function OldestOf(events: seq<Event>): Option<int> {
    if events == [] then None else Some(MinTime(events))
  }

  /**
   Rows computed by an earlier attempt under the same watermark name the same keys, in the same order, as the first
   rows of a later one, except when there is no watermark and an older event has come up in between.
   */
  lemma RowsLead(log: seq<Logged>, instance: string, w: Option<int>, f: int, later: int)
    requires Appended(log) && f <= later
    ensures Leads(RowsOf(instance, w, Fetched(log, f)), RowsOf(instance, w, Fetched(log, later)))
            <==> w.Some? || Fetched(log, f) == [] || OldestOf(Fetched(log, f)) == OldestOf(Fetched(log, later))
  {
    FetchedGrows(log, f, later);
    NewerGrows(Fetched(log, f), Fetched(log, later), w);
    var early, late := Newer(Fetched(log, f), w), Newer(Fetched(log, later), w);
    if early != [] {
      NewerThanNothing(Fetched(log, f));
      NewerThanNothing(Fetched(log, later));
      GroupRowsGrow(instance, WindowStart(late, w), early, late);
      if WindowStart(early, w) != WindowStart(late, w) {
        var rows := RowsOf(instance, w, Fetched(log, f));
        SomeRow(instance, w, Fetched(log, f));
        assert rows[0].key != RowsOf(instance, w, Fetched(log, later))[0].key;
      }
    }
  }

  lemma SomeRow(instance: string, w: Option<int>, fetched: seq<Event>)
    requires Newer(fetched, w) != []
    ensures RowsOf(instance, w, fetched) != []
  {
    var events := Newer(fetched, w);
    FirstOccurrencesAreTheElements(Whos(events));
    assert events[0].who == Whos(events)[0];
  }

  lemma RowsBelong(instance: string, w: Option<int>, fetched: seq<Event>)
    ensures
      var events := Newer(fetched, w);
      forall r :: r in RowsOf(instance, w, fetched) ==>
        events != [] && r.key.instance == instance && r.key.window == WindowStart(events, w)
  {
  }

  lemma {:induction false} MineUpsertAll(t: Facts, rows: seq<FactRow>, instance: string)
    requires forall r :: r in rows ==> r.key.instance == instance
    ensures Mine(UpsertAll(t, rows), instance) == UpsertAll(Mine(t, instance), rows)
  {
    if rows != [] {
      var n := |rows| - 1;
      MineUpsertAll(t, rows[..n], instance);
      assert rows[n] in rows;
      MineUpsert(UpsertAll(t, rows[..n]), rows[n], instance);
    }
  }

  lemma MineUpsert(t: Facts, r: FactRow, instance: string)
    requires r.key.instance == instance
    ensures Mine(Upsert(t, r), instance) == Upsert(Mine(t, instance), r)
  {
  }

  /** The instance's rows as its last success (or the beginning) left them, less what has been purged since. */
  function Settled(h: History, instance: string): Facts {
    match h
    case Begin(db, _) => Mine(db.facts, instance)
    case Next(before, Run(_, t), db) =>
      if t.mark.MarkedSuccess? then Mine(db.facts, instance) else Settled(before, instance)
    case Next(before, PurgeFacts(_, keys), _) => Settled(before, instance) - keys
    case Next(before, _, _) => Settled(before, instance)
  }

  lemma MineLess(t: Facts, keys: set<FactKey>, instance: string)
    ensures Mine(t - keys, instance) == Mine(t, instance) - keys
  {
  }

  /** Two tables that a batch makes equal stay so when both lose the same rows. */
  lemma AbsorbedLess(a: Facts, b: Facts, keys: set<FactKey>, batch: seq<FactRow>)
    requires UpsertAll(a, batch) == UpsertAll(b, batch)
    ensures UpsertAll(a - keys, batch) == UpsertAll(b - keys, batch)
  {
    var a', b' := UpsertAll(a - keys, batch), UpsertAll(b - keys, batch);
    forall k ensures SameRow(a', b', k) {
      UpsertAllAt(a, batch, k);
      UpsertAllAt(b, batch, k);
      UpsertAllAt(a - keys, batch, k);
      UpsertAllAt(b - keys, batch, k);
    }
    SameRows(a', b');
  }

  /** The events that a success's watermark lets through. */
  function Admitted(log: seq<Logged>, instance: string, h: History): seq<Event>
    requires h.Next? && Succeeds(h.action)
  {
    Newer(Fetched(log, h.action.fetchAt), MarkOf(h.before.db, instance))
  }

  /** The window it opens for them. */
  function WindowWritten(log: seq<Logged>, instance: string, h: History): int
    requires h.Next? && Succeeds(h.action) && Admitted(log, instance, h) != []
  {
    WindowStart(Admitted(log, instance, h), MarkOf(h.before.db, instance))
  }

  lemma RunAddsMine(instance: string, db: Repo, t: Trace, rows: seq<FactRow>)
    requires Possible(t, rows) && forall r :: r in rows ==> r.key.instance == instance
    ensures Mine(RunEffect(db, t, rows).facts, instance) == UpsertAll(Mine(db.facts, instance), rows[..t.kept])
  {
    MineUpsertAll(db.facts, rows[..t.kept], instance);
  }

  /**
   Every unsuccessful attempt since the last success that committed rows had read the watermark `w` and, where that
   is none, an oldest event as old as the oldest in a read at `f`.
   */
  ghost predicate AttemptsAgree(log: seq<Logged>, instance: string, h: History, w: Option<int>, f: int) {
    h.Next? && !Succeeds(h.action) ==>
      && AttemptsAgree(log, instance, h.before, w, f)
      && (h.action.Run? && h.action.trace.kept > 0 ==>
            && MarkOf(h.before.db, instance) == w
            && (w.None? ==> OldestOf(Fetched(log, h.action.fetchAt)) == OldestOf(Fetched(log, f))))
  }

  /** A later batch absorbs what one unsuccessful attempt committed. */
  lemma AttemptAbsorbed(log: seq<Logged>, instance: string, db: Repo, f: int, t: Trace, w: Option<int>, later: int)
    requires Appended(log) && f <= later && Possible(t, RowsAt(log, instance, db, f))
    requires t.kept > 0 ==> MarkOf(db, instance) == w
    requires t.kept > 0 && w.None? ==> OldestOf(Fetched(log, f)) == OldestOf(Fetched(log, later))
    ensures
      var after := RunEffect(db, t, RowsAt(log, instance, db, f));
      var batch := RowsOf(instance, w, Fetched(log, later));
      UpsertAll(Mine(after.facts, instance), batch) == UpsertAll(Mine(db.facts, instance), batch)
  {
    var rows := RowsAt(log, instance, db, f);
    RowsBelong(instance, MarkOf(db, instance), Fetched(log, f));
    RunAddsMine(instance, db, t, rows);
    if t.kept > 0 {
      RowsLead(log, instance, w, f, later);
    }
    Absorb(Mine(db.facts, instance), rows[..t.kept], RowsOf(instance, w, Fetched(log, later)));
  }

  /** Whatever unsuccessful attempts have committed since the last success, a batch they agree with absorbs it. */
  lemma {:induction false} AttemptsAbsorbed(log: seq<Logged>, instance: string, h: History, w: Option<int>, later: int)
    requires Serial(log, instance, h) && Clock(h) <= later
    requires Appended(log) && AttemptsAgree(log, instance, h, w, later)
    ensures
      var batch := RowsOf(instance, w, Fetched(log, later));
      UpsertAll(Mine(h.db.facts, instance), batch) == UpsertAll(Settled(h, instance), batch)
  {
    if h.Next? && !Succeeds(h.action) {
      AttemptsAbsorbed(log, instance, h.before, w, later);
      match h.action {
        case Run(f, t) => AttemptAbsorbed(log, instance, h.before.db, f, t, w, later);
        case PurgeFacts(_, keys) =>
          MineLess(h.before.db.facts, keys, instance);
          AbsorbedLess(Mine(h.before.db.facts, instance), Settled(h.before, instance), keys,
                       RowsOf(instance, w, Fetched(log, later)));
        case _ =>
      }
    }
  }

  /** What a success makes of the instance's rows. */
  lemma SuccessMerges(log: seq<Logged>, instance: string, h: History)
    requires Serial(log, instance, h) && h.Next? && Succeeds(h.action)
    ensures Mine(h.db.facts, instance)
         == UpsertAll(Mine(h.before.db.facts, instance), RowsAt(log, instance, h.before.db, h.action.fetchAt))
  {
    var rows := RowsAt(log, instance, h.before.db, h.action.fetchAt);
    RowsBelong(instance, MarkOf(h.before.db, instance), Fetched(log, h.action.fetchAt));
    RunAddsMine(instance, h.before.db, h.action.trace, rows);
    assert rows[..h.action.trace.kept] == rows;
  }

  /** The attempts before a success have read what it reads, as far as the window is concerned. */
  ghost predicate SuccessAgrees(log: seq<Logged>, instance: string, h: History)
    requires h.Next? && Succeeds(h.action)
  {
    AttemptsAgree(log, instance, h.before, MarkOf(h.before.db, instance), h.action.fetchAt)
  }

  /**
   Failure erasure: after any number of failed, crashed or dry attempts, a success leaves the instance's rows
   exactly as if it alone had run on the rows the previous success left.
   */
  lemma FailureErasure(log: seq<Logged>, instance: string, h: History)
    requires Serial(log, instance, h) && h.Next? && Succeeds(h.action)
    requires Appended(log) && SuccessAgrees(log, instance, h)
    ensures Mine(h.db.facts, instance)
         == UpsertAll(Settled(h.before, instance), RowsAt(log, instance, h.before.db, h.action.fetchAt))
  {
    AttemptsAbsorbed(log, instance, h.before, MarkOf(h.before.db, instance), h.action.fetchAt);
    SuccessMerges(log, instance, h);
  }

  /** Nothing but a purge of the table takes a row of the instance away. */
  lemma KeysStay(log: seq<Logged>, instance: string, h: History)
    requires Serial(log, instance, h) && h.Next? && !h.action.PurgeFacts?
    ensures Mine(h.before.db.facts, instance).Keys <= Mine(h.db.facts, instance).Keys
  {
    if h.action.Run? {
      var rows := RowsAt(log, instance, h.before.db, h.action.fetchAt);
      RowsBelong(instance, MarkOf(h.before.db, instance), Fetched(log, h.action.fetchAt));
      RunAddsMine(instance, h.before.db, h.action.trace, rows);
      UpsertAllKeys(Mine(h.before.db.facts, instance), rows[..h.action.trace.kept]);
    }
  }

  /** An attempt that does not agree has left a row in a window that a batch read at `f` does not write. */
  lemma {:induction false} StaleRow(log: seq<Logged>, instance: string, h: History, w: Option<int>, f: int)
    returns (k: FactKey)
    requires Serial(log, instance, h) && KeepsNewest(h, instance) && KeepsRows(h)
    requires MarkOf(h.db, instance) == w && !AttemptsAgree(log, instance, h, w, f)
    ensures w.None? && k in Mine(h.db.facts, instance) && OldestOf(Fetched(log, f)) != Some(k.window)
  {
    WatermarkMoves(log, instance, h);
    KeysStay(log, instance, h);
    if !AttemptsAgree(log, instance, h.before, w, f) {
      k := StaleRow(log, instance, h.before, w, f);
    } else {
      var rows := RowsAt(log, instance, h.before.db, h.action.fetchAt);
      RowsBelong(instance, w, Fetched(log, h.action.fetchAt));
      NewerThanNothing(Fetched(log, h.action.fetchAt));
      RunAddsMine(instance, h.before.db, h.action.trace, rows);
      k := rows[0].key;
      assert rows[0] in rows && rows[..h.action.trace.kept][0] == rows[0];
      UpsertAllAt(Mine(h.before.db.facts, instance), rows[..h.action.trace.kept], k);
    }
  }

  /** With a watermark that no purge has touched, attempts always agree. */
  lemma {:induction false} WatermarkedAttemptsAgree(log: seq<Logged>, instance: string, h: History, f: int)
    requires Serial(log, instance, h) && KeepsNewest(h, instance) && MarkOf(h.db, instance).Some?
    ensures AttemptsAgree(log, instance, h, MarkOf(h.db, instance), f)
  {
    if h.Next? && !Succeeds(h.action) {
      WatermarkMoves(log, instance, h);
      WatermarkedAttemptsAgree(log, instance, h.before, f);
    }
  }

  /** At every success, the attempts before it agree. */
  ghost predicate AlwaysAgree(log: seq<Logged>, instance: string, h: History) {
    h.Next? ==>
      && AlwaysAgree(log, instance, h.before)
      && (Succeeds(h.action) ==> SuccessAgrees(log, instance, h))
  }

  /** A log whose first event is its oldest is enough for that. */
  lemma {:induction false} OldestFirstSuffices(log: seq<Logged>, instance: string, h: History)
    requires Serial(log, instance, h) && KeepsNewest(h, instance) && Appended(log) && OldestFirst(log)
    ensures AlwaysAgree(log, instance, h)
  {
    if h.Next? {
      OldestFirstSuffices(log, instance, h.before);
      if Succeeds(h.action) {
        OldestFirstAgrees(log, instance, h.before, MarkOf(h.before.db, instance), h.action.fetchAt);
      }
    }
  }

  lemma {:induction false} OldestFirstAgrees(log: seq<Logged>, instance: string, h: History, w: Option<int>, f: int)
    requires Serial(log, instance, h) && KeepsNewest(h, instance) && Appended(log) && OldestFirst(log)
    requires MarkOf(h.db, instance) == w && Clock(h) <= f
    ensures AttemptsAgree(log, instance, h, w, f)
  {
    if h.Next? && !Succeeds(h.action) {
      WatermarkMoves(log, instance, h);
      OldestFirstAgrees(log, instance, h.before, w, f);
      if h.action.Run? && h.action.trace.kept > 0 && w.None? {
        NewerThanNothing(Fetched(log, h.action.fetchAt));
        FetchedGrows(log, h.action.fetchAt, f);
        FirstIsOldest(log, h.action.fetchAt);
        FirstIsOldest(log, f);
      }
    }
  }

  lemma FirstIsOldest(log: seq<Logged>, f: int)
    requires Appended(log) && OldestFirst(log) && Fetched(log, f) != []
    ensures MinTime(Fetched(log, f)) == log[0].event.time
  {
    var events := Fetched(log, f);
    FetchedFromLog(log, f);
    var i :| 0 <= i < |events| && events[i].time == MinTime(events);
    assert events[i] in events && MinTime(events) <= events[0].time;
  }

  // ---------- When exactly, from a clean start ----------

  /** A history that begins with neither a success nor a row of the instance, over a log without future events. */
  ghost predicate CleanStart(log: seq<Logged>, instance: string, h: History) {
    match h
    case Begin(db, _) =>
      && MarkOf(db, instance).None? && Mine(db.facts, instance) == map[]
      && forall x :: x in log ==> x.event.time <= x.visibleAt
    case Next(before, _, _) => CleanStart(log, instance, before)
  }

  lemma {:induction false} CleanBeginning(log: seq<Logged>, instance: string, h: History)
    requires CleanStart(log, instance, h)
    ensures MarkOf(Beginning(h), instance).None?
    ensures forall x :: x in log ==> x.event.time <= x.visibleAt
  {
    if h.Next? { CleanBeginning(log, instance, h.before); }
  }

  /** A run writes to a window that opened before it fetched. */
  lemma WindowInThePast(log: seq<Logged>, instance: string, w: Option<int>, f: int)
    requires forall x :: x in log ==> x.event.time <= x.visibleAt
    requires w.Some? ==> w.value <= f
    ensures forall r :: r in RowsOf(instance, w, Fetched(log, f)) ==> r.key.window <= f
  {
    var events := Newer(Fetched(log, f), w);
    RowsBelong(instance, w, Fetched(log, f));
    if w.None? && events != [] {
      NewerThanNothing(Fetched(log, f));
      FetchedMembers(log, f);
      var i :| 0 <= i < |events| && events[i].time == MinTime(events);
      assert events[i] in Fetched(log, f);
    }
  }

  /** Every row of the instance, a failed attempt's too, was written for a past window and counts something. */
  lemma {:induction false} RowsOfThePast(log: seq<Logged>, instance: string, h: History)
    requires Serial(log, instance, h) && CleanStart(log, instance, h)
    ensures forall k :: k in Mine(h.db.facts, instance) ==>
                          k.window <= Clock(h) && Mine(h.db.facts, instance)[k].measured.execs >= 1
  {
    match h
    case Begin(_, _) =>
    case Next(before, a, db) =>
      RowsOfThePast(log, instance, before);
      if a.Run? {
        RunOfThePast(log, instance, h);
      }
  }

  lemma RunOfThePast(log: seq<Logged>, instance: string, h: History)
    requires Serial(log, instance, h) && CleanStart(log, instance, h) && h.Next? && h.action.Run?
    requires var t := Mine(h.before.db.facts, instance);
             forall k :: k in t ==> k.window <= Clock(h.before) && t[k].measured.execs >= 1
    ensures forall k :: k in Mine(h.db.facts, instance) ==>
                          k.window <= Clock(h) && Mine(h.db.facts, instance)[k].measured.execs >= 1
  {
    var w, f := MarkOf(h.before.db, instance), h.action.fetchAt;
    var rows := RowsAt(log, instance, h.before.db, f);
    var t, part := Mine(h.before.db.facts, instance), rows[..h.action.trace.kept];
    CleanBeginning(log, instance, h);
    NoRunAhead(log, instance, h.before);
    RowsBelong(instance, w, Fetched(log, f));
    RowsCount(instance, w, Fetched(log, f));
    WindowInThePast(log, instance, w, f);
    RunAddsMine(instance, h.before.db, h.action.trace, rows);
    forall k | k in UpsertAll(t, part)
      ensures k.window <= Clock(h) && UpsertAll(t, part)[k].measured.execs >= 1
    {
      UpsertAllAt(t, part, k);
      if Mentions(part, k) {
        assert part[LastAt(part, k)] in rows;
      }
    }
  }

  /** Every window a success has settled lies strictly before the watermark, so the next one is new. */
  lemma {:induction false} WindowsBehindWatermark(log: seq<Logged>, instance: string, h: History)
    requires Serial(log, instance, h) && KeepsNewest(h, instance) && CleanStart(log, instance, h)
    ensures forall k :: k in Settled(h, instance) ==>
                          MarkOf(h.db, instance).Some? && k.window < MarkOf(h.db, instance).value
  {
    match h
    case Begin(_, _) =>
    case Next(before, a, db) =>
      WindowsBehindWatermark(log, instance, before);
      WatermarkMoves(log, instance, h);
      if Succeeds(a) {
        NewWindowBehind(log, instance, h);
      }
  }

  lemma NewWindowBehind(log: seq<Logged>, instance: string, h: History)
    requires Serial(log, instance, h) && CleanStart(log, instance, h) && h.Next? && Succeeds(h.action)
    ensures forall k :: k in Settled(h, instance) ==> k.window < h.action.trace.startAt
  {
    var w, f := MarkOf(h.before.db, instance), h.action.fetchAt;
    CleanBeginning(log, instance, h);
    NoRunAhead(log, instance, h.before);
    RowsOfThePast(log, instance, h.before);
    WindowInThePast(log, instance, w, f);
    SuccessMerges(log, instance, h);
    UpsertAllKeys(Mine(h.before.db.facts, instance), RowsAt(log, instance, h.before.db, f));
  }

  lemma NothingSettled(log: seq<Logged>, instance: string, h: History)
    requires Serial(log, instance, h) && KeepsNewest(h, instance) && CleanStart(log, instance, h)
    requires MarkOf(h.db, instance).None?
    ensures Settled(h, instance) == map[]
  {
    WindowsBehindWatermark(log, instance, h);
  }

  /**
   Failure erasure, exactly: from a clean start, the leftovers of failed attempts are gone after a success if and
   only if every attempt that committed rows had read the same oldest event as the success, or a watermark.
   */
  lemma ErasureExact(log: seq<Logged>, instance: string, h: History)
    requires Serial(log, instance, h) && KeepsNewest(h, instance) && KeepsRows(h) && CleanStart(log, instance, h)
    requires Appended(log) && h.Next? && Succeeds(h.action)
    ensures Mine(h.db.facts, instance)
         == UpsertAll(Settled(h.before, instance), RowsAt(log, instance, h.before.db, h.action.fetchAt))
         <==> SuccessAgrees(log, instance, h)
  {
    var w, f := MarkOf(h.before.db, instance), h.action.fetchAt;
    if SuccessAgrees(log, instance, h) {
      FailureErasure(log, instance, h);
    } else {
      var k := StaleRow(log, instance, h.before, w, f);
      KeysStay(log, instance, h);
      NothingSettled(log, instance, h.before);
      RowsBelong(instance, w, Fetched(log, f));
      NewerThanNothing(Fetched(log, f));
      UpsertAllKeys(map[], RowsAt(log, instance, h.before.db, f));
    }
  }

  predicate NoSuccess(h: History) {
    h.Next? ==> NoSuccess(h.before) && !Succeeds(h.action)
  }

  /** Every attempt that committed rows had read the oldest event `oldest`. */
  predicate AttemptsRead(log: seq<Logged>, h: History, oldest: Option<int>) {
    h.Next? ==>
      && AttemptsRead(log, h.before, oldest)
      && (h.action.Run? && h.action.trace.kept > 0 ==> OldestOf(Fetched(log, h.action.fetchAt)) == oldest)
  }

  /**
   The first success: after any attempts and purges of runs, the instance's rows are that success's batch and nothing
   else if and only if every attempt that committed rows had read the same oldest event.
   */
  lemma FirstWindowErasure(log: seq<Logged>, instance: string, h: History)
    requires Serial(log, instance, h) && CleanStart(log, instance, h) && Appended(log) && KeepsRows(h)
    requires h.Next? && Succeeds(h.action) && NoSuccess(h.before)
    ensures Mine(h.db.facts, instance) == UpsertAll(map[], RowsAt(log, instance, h.before.db, h.action.fetchAt))
            <==> AttemptsRead(log, h.before, OldestOf(Fetched(log, h.action.fetchAt)))
  {
    BeforeTheFirst(log, instance, h.before, h.action.fetchAt);
    WatermarkMoves(log, instance, h);
    NothingSettled(log, instance, h.before);
    ErasureExact(log, instance, h);
  }

  lemma {:induction false} BeforeTheFirst(log: seq<Logged>, instance: string, h: History, f: int)
    requires Serial(log, instance, h) && CleanStart(log, instance, h) && NoSuccess(h)
    ensures KeepsNewest(h, instance) && MarkOf(h.db, instance).None?
    ensures AttemptsAgree(log, instance, h, None, f) <==> AttemptsRead(log, h, OldestOf(Fetched(log, f)))
  {
    if h.Next? {
      BeforeTheFirst(log, instance, h.before, f);
      WatermarkMoves(log, instance, h);
    }
  }
}
