/** The run lifecycle shared by all collectors: Collector.run and _persist of base.py. */
module Collector {
  import opened Common
  import opened Merge
  import opened Repository

  /** How a call of run ends for its caller. */
  datatype Reply = Returned(rowCount: nat) | Raised | Died

  /** What a run leaves in collection_run. */
  datatype Mark = NoRun | LeftRunning | MarkedFailed | MarkedSuccess

  /** Everything about a run that the repository shows afterwards. */
  datatype Trace = Trace(instance: string, task: string, startAt: int, endAt: int, error: string, mark: Mark, kept: nat)

  ghost predicate Possible<K, A, M>(t: Trace, rows: seq<Row<K, A, M>>) {
    && t.kept <= |rows|
    && (t.mark.NoRun? ==> t.kept == 0)
    && (t.mark.LeftRunning? ==> t.kept == 0 || t.kept == |rows|)
    && (t.mark.MarkedSuccess? ==> t.kept == |rows|)
  }

  /** What a started run makes of the repository: a prefix of its rows, and its run row in some state. */
  function Conclude<K, A, M>(started: Db<K, A, M>, id: nat, mark: Mark, kept: nat, rows: seq<Row<K, A, M>>,
                             endAt: int, error: string): Db<K, A, M>
    requires kept <= |rows|
  {
    var merged := MergeRows(started, rows[..kept]);
    match mark
    case MarkedFailed => Perform(merged, UpdateRun(id, endAt, Failed, None, Some(error)))
    case MarkedSuccess => Perform(merged, UpdateRun(id, endAt, Success, Some(|rows|), None))
    case _ => merged
  }

  /** The durable effect of a whole run. */
  function RunEffect<K, A, M>(db: Db<K, A, M>, t: Trace, rows: seq<Row<K, A, M>>): Db<K, A, M>
    requires t.kept <= |rows|
  {
    if t.mark.NoRun? then db
    else Conclude(Perform(db, InsertRun(t.instance, t.task, t.startAt)), db.nextRun, t.mark, t.kept, rows,
                  t.endAt, t.error)
  }

  /** The run's own row in collection_run, and nothing but it; a prefix of the rows merged, and nothing but it. */
  lemma RunLeaves<K, A, M>(db: Db<K, A, M>, t: Trace, rows: seq<Row<K, A, M>>)
    requires FreshIds(db) && Possible(t, rows)
    ensures
      var after := RunEffect(db, t, rows);
      && after.facts == UpsertAll(db.facts, rows[..t.kept])
      && after.runs ==
         (match t.mark
          case NoRun => db.runs
          case LeftRunning => db.runs[db.nextRun := RunRow(t.instance, t.task, t.startAt, None, Running, None, None)]
          case MarkedFailed => db.runs[db.nextRun := RunRow(t.instance, t.task, t.startAt, Some(t.endAt), Failed,
                                                            None, Some(t.error))]
          case MarkedSuccess => db.runs[db.nextRun := RunRow(t.instance, t.task, t.startAt, Some(t.endAt), Success,
                                                             Some(|rows|), None)])
      && db.nextRun !in db.runs
  {
  }

  /** A run adds to the successful starts at most its own, and keeps run ids fresh. */
  lemma EffectOnRuns<K, A, M>(db: Db<K, A, M>, t: Trace, rows: seq<Row<K, A, M>>, instance: string, task: string)
    requires FreshIds(db) && Possible(t, rows)
    ensures FreshIds(RunEffect(db, t, rows))
    ensures SuccessTimes(RunEffect(db, t, rows).runs, instance, task)
         == SuccessTimes(db.runs, instance, task)
            + if t.mark.MarkedSuccess? && t.instance == instance && t.task == task then {t.startAt} else {}
  {
    RunLeaves(db, t, rows);
    var after := RunEffect(db, t, rows);
    if !t.mark.NoRun? {
      var id := db.nextRun;
      assert forall i :: i in after.runs <==> i in db.runs || i == id;
      assert forall i :: i in db.runs ==> after.runs[i] == db.runs[i];
      assert after.runs[id].status == Success <==> t.mark.MarkedSuccess?;
    }
  }

  /** A run leaves the watermarks of other tasks and other instances alone. */
  lemma OtherWatermarks<K, A, M>(db: Db<K, A, M>, t: Trace, rows: seq<Row<K, A, M>>, instance: string, task: string)
    requires FreshIds(db) && Possible(t, rows) && (t.task != task || t.instance != instance)
    ensures Watermark(RunEffect(db, t, rows).runs, instance, task) == Watermark(db.runs, instance, task)
  {
    EffectOnRuns(db, t, rows, instance, task);
    assert SuccessTimes(RunEffect(db, t, rows).runs, instance, task) == SuccessTimes(db.runs, instance, task);
  }

  // ---------- How the calls decide the end ----------

  /** How a run ends: for its caller, in collection_run, and in how many of its rows the repository kept. */
  datatype Ending = Ending(reply: Reply, mark: Mark, kept: nat)

  function EndBy(s: Signal): Reply
    requires s.Fault?
  {
    if s.kills then Died else Raised
  }

  /** finish_run(failed): commits the rows still pending with the mark, and re-raises. */
  function FailedEnding(script: seq<Signal>, pending: nat, durable: nat): Ending {
    var update, commit := SignalAt(script, 0), SignalAt(script, 1);
    if update.Fault? then Ending(EndBy(update), LeftRunning, durable)
    else if TookEffect(commit) then Ending(if commit.Ok? then Raised else EndBy(commit), MarkedFailed, pending)
    else Ending(EndBy(commit), LeftRunning, durable)
  }

  /** finish_run(success), all n rows being durable. */
  function SuccessEnding(script: seq<Signal>, n: nat): Ending {
    var update, commit := SignalAt(script, 0), SignalAt(script, 1);
    if update.Fault? then Ending(EndBy(update), LeftRunning, n)
    else if TookEffect(commit) then Ending(if commit.Ok? then Returned(n) else EndBy(commit), MarkedSuccess, n)
    else Ending(EndBy(commit), LeftRunning, n)
  }

  /** The MERGEs from the `done`-th on, their commit, and the finish. */
  function PersistEnding(script: seq<Signal>, n: nat, done: nat): Ending
    requires done <= n
    decreases n - done
  {
    var s, rest := SignalAt(script, 0), Rest(script, 1);
    if done < n then
      if s.Ok? then PersistEnding(rest, n, done + 1)
      else if s.kills then Ending(Died, LeftRunning, 0)
      else FailedEnding(rest, Settle(s, 0, done, done + 1), 0)
    else if s.Ok? then SuccessEnding(rest, n)
    else
      var durable := if TookEffect(s) then n else 0;
      if s.kills then Ending(Died, LeftRunning, durable) else FailedEnding(rest, Settle(s, durable, n, n), durable)
  }

  /** The whole run of n rows: insert and commit of the run row, and what follows. */
  function RunEnding(script: seq<Signal>, n: nat): Ending {
    var insert, commit := SignalAt(script, 0), SignalAt(script, 1);
    if insert.Fault? then Ending(EndBy(insert), NoRun, 0)
    else if commit.Fault? then Ending(EndBy(commit), if TookEffect(commit) then LeftRunning else NoRun, 0)
    else PersistEnding(Rest(script, 2), n, 0)
  }

  /** A run over `n` rows, none when they could not be read or transformed. */
  function EndingOf(script: seq<Signal>, n: Option<nat>, dryRun: bool): Ending {
    if n.None? then Ending(Raised, NoRun, 0)
    else if dryRun then Ending(Returned(n.value), NoRun, 0)
    else RunEnding(script, n.value)
  }

  predicate AllOk(script: seq<Signal>, calls: nat) {
    forall i :: 0 <= i < calls ==> SignalAt(script, i).Ok?
  }

  predicate SomeKill(script: seq<Signal>, calls: nat) {
    exists i :: 0 <= i < calls && SignalAt(script, i).Fault? && SignalAt(script, i).kills
  }

  lemma RestOf(script: seq<Signal>, i: nat)
    ensures forall j: nat :: SignalAt(Rest(script, i), j) == SignalAt(script, i + j)
    ensures forall j: nat :: Rest(Rest(script, i), j) == Rest(script, i + j)
  {
  }

  /** After `at` successful MERGEs the rest decides. */
  lemma {:induction false} PersistEndingAt(script: seq<Signal>, n: nat, done: nat, at: nat)
    requires done + at <= n && AllOk(script, at)
    ensures PersistEnding(script, n, done) == PersistEnding(Rest(script, at), n, done + at)
    decreases at
  {
    if at > 0 {
      RestOf(script, 1);
      assert AllOk(Rest(script, 1), at - 1) by {
        forall i | 0 <= i < at - 1 ensures SignalAt(Rest(script, 1), i).Ok? {
          assert SignalAt(script, 1 + i).Ok?;
        }
      }
      PersistEndingAt(Rest(script, 1), n, done + 1, at - 1);
    }
  }

  /** After a fault at call i in _persist: death, or finish_run(failed) with the calls after it. */
  function FailedAt(script: seq<Signal>, i: nat, pending: nat, durable: nat): Ending
    requires SignalAt(script, i).Fault?
  {
    if SignalAt(script, i).kills then Ending(Died, LeftRunning, durable)
    else FailedEnding(Rest(script, i + 1), pending, durable)
  }

  /**
   What the first fault, at the i-th call, decides. The calls are: insert and commit of the run row, one MERGE per
   row, the commit of the rows, update and commit of the run row. An error in the loop commits the rows merged so
   far as part of the failed run; a kill gives them up; after the rows' commit they stay, whatever happens to the
   run row.
   */
  function AfterFault(script: seq<Signal>, n: nat, i: nat): Ending
    requires SignalAt(script, i).Fault? && i < n + 5
  {
    var s := SignalAt(script, i);
    if i == 0 then Ending(EndBy(s), NoRun, 0)
    else if i == 1 then Ending(EndBy(s), if s.effect.Applied? then LeftRunning else NoRun, 0)
    else if i < n + 2 then
      FailedAt(script, i, if s.effect.RolledBack? then 0 else if s.effect.Applied? then i - 1 else i - 2, 0)
    else if i == n + 2 then
      FailedAt(script, i, if s.effect.RolledBack? then 0 else n, if s.effect.Applied? then n else 0)
    else if i == n + 3 then Ending(EndBy(s), LeftRunning, n)
    else Ending(EndBy(s), if s.effect.Applied? then MarkedSuccess else LeftRunning, n)
  }

  /** The first fault decides, and without one the run succeeds. */
  lemma FirstFaultDecides(script: seq<Signal>, n: nat, i: nat)
    requires i <= n + 5 && AllOk(script, i) && (i < n + 5 ==> SignalAt(script, i).Fault?)
    ensures RunEnding(script, n)
         == if i < n + 5 then AfterFault(script, n, i) else Ending(Returned(n), MarkedSuccess, n)
  {
    if i >= 2 {
      var at := if i - 2 < n then i - 2 else n;
      AfterMerges(script, n, at);
      NextCall(script, 2 + at);
      NextCall(script, 3 + at);
    }
  }

  /** After the run row and `at` successful MERGEs the rest decides. */
  lemma AfterMerges(script: seq<Signal>, n: nat, at: nat)
    requires at <= n && AllOk(script, 2 + at)
    ensures RunEnding(script, n) == PersistEnding(Rest(script, 2 + at), n, at)
  {
    var rest := Rest(script, 2);
    RestOf(script, 2);
    assert AllOk(rest, at) by {
      forall i | 0 <= i < at ensures SignalAt(rest, i).Ok? {
        assert SignalAt(script, 2 + i).Ok?;
      }
    }
    PersistEndingAt(rest, n, 0, at);
  }

  lemma NextCall(script: seq<Signal>, i: nat)
    ensures SignalAt(Rest(script, i), 0) == SignalAt(script, i)
    ensures SignalAt(Rest(script, i), 1) == SignalAt(script, i + 1)
    ensures Rest(Rest(script, i), 1) == Rest(script, i + 1)
  {
  }

  lemma {:induction false} FirstFault(script: seq<Signal>, calls: nat) returns (i: nat)
    ensures i <= calls && AllOk(script, i) && (i < calls ==> SignalAt(script, i).Fault?)
  {
    i := 0;
    if calls > 0 {
      i := FirstFault(script, calls - 1);
      if i == calls - 1 && SignalAt(script, i).Ok? {
        i := calls;
      }
    }
  }

  /**
   A run returns exactly when all of its n + 5 calls succeed; it is on record as a success exactly when all but the
   last do and that one takes effect; it dies only by a kill, and surely if its first fault is one.
   */
  lemma RunEndings(script: seq<Signal>, n: nat)
    ensures
      var e := RunEnding(script, n);
      && (e.reply.Returned? <==> AllOk(script, n + 5))
      && (e.reply.Returned? ==> e == Ending(Returned(n), MarkedSuccess, n))
      && (e.mark.MarkedSuccess? <==>
            AllOk(script, n + 4) && (SignalAt(script, n + 4).Ok? || SignalAt(script, n + 4).effect.Applied?))
      && (e.mark.NoRun? <==>
            !AllOk(script, 1) || !(SignalAt(script, 1).Ok? || SignalAt(script, 1).effect.Applied?))
      && (e.reply.Died? ==> SomeKill(script, n + 5))
      && (forall i :: 0 <= i < n + 5 && AllOk(script, i) && SignalAt(script, i).Fault? && SignalAt(script, i).kills
            ==> e.reply.Died?)
  {
    var i := FirstFault(script, n + 5);
    FirstFaultDecides(script, n, i);
    if i < n + 5 {
      NextCall(script, i + 1);
    }
    forall j | 0 <= j < n + 5 && AllOk(script, j) && SignalAt(script, j).Fault? ensures j == i {
    }
  }

  lemma RunEndingPossible<K, A, M>(script: seq<Signal>, t: Trace, rows: seq<Row<K, A, M>>)
    requires RunEnding(script, |rows|).mark == t.mark && RunEnding(script, |rows|).kept == t.kept
    ensures Possible(t, rows)
  {
    var i := FirstFault(script, |rows| + 5);
    FirstFaultDecides(script, |rows|, i);
  }

  ghost predicate OneFaultAt(script: seq<Signal>, i: nat) {
    forall j: nat :: SignalAt(script, j).Ok? <==> j != i
  }

  /**
   A single fault in the loop: a kill or a rollback leaves no rows; an error leaves exactly the rows merged before
   it, and the row itself if the statement had taken effect; all but the kill are recorded with a failed row.
   */
  lemma OneErrorInTheLoop(script: seq<Signal>, n: nat, i: nat)
    requires 2 <= i < n + 2 && OneFaultAt(script, i)
    ensures
      var s, e := SignalAt(script, i), RunEnding(script, n);
      && e.kept == (if s.kills || s.effect == RolledBack then 0 else if s.effect == Applied then i - 1 else i - 2)
      && e.mark == (if s.kills then LeftRunning else MarkedFailed)
      && e.reply == (if s.kills then Died else Raised)
  {
    FirstFaultDecides(script, n, i);
    NextCall(script, i + 1);
  }

  /**
   A single fault at the commit of the rows: they stay if it took effect, or if it was skipped and finish_run commits
   them with the failed row; a kill before it took effect or a rollback loses them.
   */
  lemma OneErrorAtTheCommit(script: seq<Signal>, n: nat)
    requires OneFaultAt(script, n + 2)
    ensures
      var s, e := SignalAt(script, n + 2), RunEnding(script, n);
      && e.kept == (if s.effect == Applied || (s.effect == Skipped && !s.kills) then n else 0)
      && e.mark == (if s.kills then LeftRunning else MarkedFailed)
      && e.reply == (if s.kills then Died else Raised)
  {
    FirstFaultDecides(script, n, n + 2);
    NextCall(script, n + 3);
  }

  /** A single fault before or after the rows: none of them is kept, or all. */
  lemma OneErrorElsewhere(script: seq<Signal>, n: nat, i: nat)
    requires OneFaultAt(script, i) && (i < 2 || n + 3 <= i < n + 5)
    ensures
      var s, e := SignalAt(script, i), RunEnding(script, n);
      && e.kept == (if i < 2 then 0 else n)
      && e.mark == (if i == 1 && s.effect == Applied then LeftRunning else if i < 2 then NoRun
                    else if i == n + 4 && s.effect == Applied then MarkedSuccess else LeftRunning)
      && e.reply == (if s.kills then Died else Raised)
  {
    FirstFaultDecides(script, n, i);
  }

  // ---------- The code ----------

  /** Where _persist stopped decides the rest. */
  lemma PersistStops(script: seq<Signal>, n: nat, s: Signal, at: nat)
    requires at <= n + 1 && AllOk(script, at) && (s.Ok? <==> at == n + 1)
    requires s.Fault? ==> s == SignalAt(script, at)
    ensures s.Ok? ==> PersistEnding(script, n, 0) == SuccessEnding(Rest(script, at), n)
    ensures s.Fault? ==>
              var durable := if at == n && TookEffect(s) then n else 0;
              var pending := if at < n then Settle(s, 0, at, at + 1) else Settle(s, durable, at, at);
              PersistEnding(script, n, 0) == if s.kills then Ending(Died, LeftRunning, durable)
                                             else FailedEnding(Rest(script, at + 1), pending, durable)
  {
    var merged := if at < n then at else n;
    PersistEndingAt(script, n, 0, merged);
    assert SignalAt(Rest(script, merged), 0) == SignalAt(script, merged);
    assert Rest(Rest(script, merged), 1) == Rest(script, merged + 1) by { RestOf(script, merged); }
  }

  /** _persist: MERGE the rows one by one, then commit. `at` is the call that failed. */
  method Persist<K, A, M>(conn: Connection<K, A, M>, rows: seq<Row<K, A, M>>)
    returns (s: Signal, ghost at: nat, ghost pending: nat, ghost durable: nat)
    requires conn.working == conn.server.committed
    modifies conn`script, conn`working, conn.server`committed
    ensures pending <= |rows| && durable <= |rows|
    ensures conn.working == MergeRows(old(conn.working), rows[..pending])
    ensures conn.server.committed == MergeRows(old(conn.working), rows[..durable])
    ensures at <= |rows| + 1 && (s.Ok? <==> at == |rows| + 1)
    ensures forall j :: 0 <= j < at ==> SignalAt(old(conn.script), j).Ok?
    ensures s.Ok? ==> pending == durable == |rows| && conn.script == Rest(old(conn.script), at)
    ensures s.Fault? ==> s == SignalAt(old(conn.script), at) && conn.script == Rest(old(conn.script), at + 1)
    ensures s.Fault? ==> durable == if at == |rows| && s.effect.Applied? then |rows| else 0
    ensures s.Fault? && at < |rows| ==>
              pending == if s.kills || s.effect.RolledBack? then 0 else if s.effect.Applied? then at + 1 else at
    ensures s.Fault? && at == |rows| ==>
              pending == if s.effect.Applied? || (s.effect.Skipped? && !s.kills) then |rows| else 0
  {
    s, pending, durable := Ok, 0, 0;
    var i := 0;
    while i < |rows|
      invariant 0 <= i <= |rows|
      invariant conn.working == MergeRows(old(conn.working), rows[..i])
      invariant conn.server.committed == old(conn.server.committed)
      invariant conn.script == Rest(old(conn.script), i)
      invariant forall j :: 0 <= j < i ==> SignalAt(old(conn.script), j).Ok?
    {
      s := conn.Execute(MergeRow(rows[i]));
      assert rows[..i + 1][..i] == rows[..i];
      if !s.Ok? {
        at, pending := i, Settle(s, 0, i, i + 1);
        return;
      }
      i := i + 1;
    }
    assert rows[..|rows|] == rows;
    s := conn.Commit();
    at, durable := |rows|, if TookEffect(s) then |rows| else 0;
    pending := Settle(s, durable, |rows|, |rows|);
    if s.Ok? {
      at := |rows| + 1;
    }
  }

  /** The try/except/else of run: persist, then record how it went. */
  method PersistAndFinish<K, A, M>(conn: Connection<K, A, M>, id: nat, rows: seq<Row<K, A, M>>, endAt: int,
                                   error: string)
    returns (reply: Reply, ghost mark: Mark, ghost kept: nat)
    requires conn.working == conn.server.committed
    modifies conn`script, conn`working, conn.server`committed
    ensures Ending(reply, mark, kept) == PersistEnding(old(conn.script), |rows|, 0)
    ensures kept <= |rows| && !mark.NoRun?
    ensures conn.server.committed == Conclude(old(conn.server.committed), id, mark, kept, rows, endAt, error)
  {
    ghost var script := conn.script;
    var n := |rows|;
    var s;
    ghost var at, pending, durable;
    s, at, pending, durable := Persist(conn, rows);
    PersistStops(script, n, s, at);
    ghost var update, commit := SignalAt(conn.script, 0), SignalAt(conn.script, 1);
    mark, kept := LeftRunning, durable;
    if s.Ok? {
      s := conn.FinishRun(id, endAt, Success, Some(n), None);
      if update.Ok? && TookEffect(commit) {
        mark := MarkedSuccess;
      }
      reply := if s.Ok? then Returned(n) else EndBy(s);
      return;
    }
    if s.kills {
      return Died, mark, kept;
    }
    s := conn.FinishRun(id, endAt, Failed, None, Some(error));
    if update.Ok? && TookEffect(commit) {
      mark, kept := MarkedFailed, pending;
    }
    reply := if s.Ok? then Raised else EndBy(s);
  }

  /**
   Collector.run from the moment the rows are known; `transformed` is None when reading the source or
   transforming it raised. How it ends, for the caller, in collection_run and in the fact table, is decided by how
   its driver calls end (`RunEndings`, `FirstFaultDecides`), and the repository shows that end and nothing else.
   */
  method Run<K, A, M>(conn: Connection<K, A, M>, instance: string, task: string,
                      transformed: Option<seq<Row<K, A, M>>>, dryRun: bool, startAt: int, endAt: int, error: string)
    returns (reply: Reply, ghost t: Trace)
    requires conn.working == conn.server.committed && FreshIds(conn.working)
    modifies conn`script, conn`working, conn.server`committed
    ensures (t.instance, t.task, t.startAt, t.endAt, t.error) == (instance, task, startAt, endAt, error)
    ensures Ending(reply, t.mark, t.kept)
         == EndingOf(old(conn.script), if transformed.Some? then Some(|transformed.value|) else None, dryRun)
    ensures var rows := if transformed.Some? then transformed.value else [];
            Possible(t, rows) && conn.server.committed == RunEffect(old(conn.server.committed), t, rows)
    ensures transformed.None? ==> reply.Raised? && t.mark.NoRun?
    ensures transformed.Some? && dryRun ==> reply == Returned(|transformed.value|) && t.mark.NoRun?
    ensures transformed.Some? && !dryRun ==>
              var n := |transformed.value|;
              && (reply.Returned? <==> AllOk(old(conn.script), n + 5))
              && (reply.Returned? ==> reply.rowCount == n && t.mark.MarkedSuccess?)
              && (reply.Died? ==> SomeKill(old(conn.script), n + 5))
    ensures dryRun ==> conn.working == old(conn.working) && conn.script == old(conn.script)
  {
    t := Trace(instance, task, startAt, endAt, error, NoRun, 0);
    if transformed.None? {
      return Raised, t;
    }
    var rows := transformed.value;
    var rowCount := |rows|;
    if dryRun {
      return Returned(rowCount), t;
    }
    ghost var script := conn.script;
    RunEndings(script, rowCount);
    var s, id := conn.StartRun(instance, task, startAt);
    if !s.Ok? {
      if SignalAt(script, 0).Ok? && TookEffect(SignalAt(script, 1)) {
        t := t.(mark := LeftRunning);
      }
      return EndBy(s), t;
    }
    ghost var mark, kept;
    reply, mark, kept := PersistAndFinish(conn, id, rows, endAt, error);
    t := t.(mark := mark, kept := kept);
    RunEndingPossible(script, t, rows);
  }
}
