/**
 The repository database and a connection to it: what the statements of db.py do to the rows a connection
 sees, what a commit makes durable, and what is left when a statement fails or the process dies.
 */
module Repository {
  import opened Common
  import opened Merge

  datatype Status = Running | Success | Failed

  /** One row of collection_run. */
  datatype RunRow = RunRow(instance: string, task: string, startedAt: int, endedAt: Option<int>,
                           status: Status, rowCount: Option<nat>, error: Option<string>)

  /** collection_run with its identity counter, and the fact table of the collector at hand. */
  datatype Db<K, A, M> = Db(runs: map<nat, RunRow>, nextRun: nat, facts: Table<K, A, M>)

  ghost predicate FreshIds<K, A, M>(db: Db<K, A, M>) {
    forall id :: id in db.runs ==> id < db.nextRun
  }

  datatype Statement<K, A, M> =
    | InsertRun(instance: string, task: string, now: int)
    | UpdateRun(id: nat, now: int, status: Status, rowCount: Option<nat>, error: Option<string>)
    | MergeRow(row: Row<K, A, M>)

  function Perform<K, A, M>(db: Db<K, A, M>, s: Statement<K, A, M>): Db<K, A, M> {
    match s
    case InsertRun(instance, task, now) =>
      db.(runs := db.runs[db.nextRun := RunRow(instance, task, now, None, Running, None, None)],
          nextRun := db.nextRun + 1)
    case UpdateRun(id, now, status, rowCount, error) =>
      if id in db.runs then
        var row := db.runs[id];
        db.(runs := db.runs[id := row.(endedAt := Some(now), status := status, rowCount := rowCount, error := error)])
      else db
    case MergeRow(row) => db.(facts := Upsert(db.facts, row))
  }

  function MergeRows<K, A, M>(db: Db<K, A, M>, rows: seq<Row<K, A, M>>): Db<K, A, M> {
    db.(facts := UpsertAll(db.facts, rows))
  }

  // ---------- Watermark ----------

  predicate Succeeded(run: RunRow, instance: string, task: string) {
    run.instance == instance && run.task == task && run.status == Success
  }

  function SuccessTimes(runs: map<nat, RunRow>, instance: string, task: string): set<int> {
    set id | id in runs && Succeeded(runs[id], instance, task) :: runs[id].startedAt
  }

  /** The latest start among the successful runs of a task on an instance. */
  function Watermark(runs: map<nat, RunRow>, instance: string, task: string): Option<int> {
    MaxOf(SuccessTimes(runs, instance, task))
  }

  /** `w` is the MAX over the successful starts, and so the watermark. */
  ghost predicate IsNewestSuccess(runs: map<nat, RunRow>, instance: string, task: string, w: Option<int>) {
    match w
    case None => forall id :: id in runs ==> !Succeeded(runs[id], instance, task)
    case Some(m) =>
      && (exists id :: id in runs && Succeeded(runs[id], instance, task) && runs[id].startedAt == m)
      && (forall id :: id in runs && Succeeded(runs[id], instance, task) ==> runs[id].startedAt <= m)
  }

  lemma WatermarkIsNewestSuccess(runs: map<nat, RunRow>, instance: string, task: string, w: Option<int>)
    ensures IsNewestSuccess(runs, instance, task, w) <==> w == Watermark(runs, instance, task)
  {
    var times := SuccessTimes(runs, instance, task);
    assert forall id :: id in runs && Succeeded(runs[id], instance, task) ==> runs[id].startedAt in times;
    if IsNewestSuccess(runs, instance, task, w) && w.Some? {
      MaxIsUnique(times, w.value);
    }
  }

  // ---------- Faults ----------

  /** What a failing call did before it failed: its work, nothing, or a rollback of the open transaction. */
  datatype Effect = Applied | Skipped | RolledBack

  /** How one driver call ends. A kill takes the process with it, and the server rolls the connection back. */
  datatype Signal = Ok | Fault(effect: Effect, kills: bool)

  function Settle<T>(s: Signal, committed: T, before: T, after: T): T {
    match s
    case Ok => after
    case Fault(effect, kills) =>
      if kills || effect == RolledBack then committed else if effect == Applied then after else before
  }

  /** The signal of the i-th call from now; past the end of the script calls succeed. */
  function SignalAt(script: seq<Signal>, i: nat): Signal {
    if i < |script| then script[i] else Ok
  }

  function Rest(script: seq<Signal>, i: nat): seq<Signal> {
    if i <= |script| then script[i..] else []
  }

  /** A commit takes effect when it succeeds, and when it fails only after having taken effect. */
  predicate TookEffect(s: Signal) {
    s.Ok? || s.effect.Applied?
  }

  class Server<K(==), A, M> {
    var committed: Db<K, A, M>

    constructor (db: Db<K, A, M>)
      ensures committed == db
    {
      committed := db;
    }
  }

  /** A connection with autocommit off. `script` decides how its next calls end; once used up, they succeed. */
  class Connection<K(==), A, M> {
    const server: Server<K, A, M>
    var working: Db<K, A, M>
    var script: seq<Signal>
    var closes: nat

    constructor (server: Server<K, A, M>, script: seq<Signal>)
      ensures this.server == server && working == server.committed
      ensures this.script == script && closes == 0
    {
      this.server := server;
      working := server.committed;
      this.script := script;
      closes := 0;
    }

    method NextSignal() returns (s: Signal)
      modifies this`script
      ensures s == SignalAt(old(script), 0) && script == Rest(old(script), 1)
    {
      if script == [] {
        s := Ok;
      } else {
        s, script := script[0], script[1..];
      }
    }

    method Execute(statement: Statement<K, A, M>) returns (s: Signal)
      modifies this`script, this`working
      ensures s == SignalAt(old(script), 0) && script == Rest(old(script), 1)
      ensures s.Ok? || (s.effect.Applied? && !s.kills) ==> working == Perform(old(working), statement)
      ensures s.Fault? && s.effect.Skipped? && !s.kills ==> working == old(working)
      ensures s.Fault? && (s.effect.RolledBack? || s.kills) ==> working == server.committed
    {
      s := NextSignal();
      working := Settle(s, server.committed, working, Perform(working, statement));
    }

    /** The one call that makes rows durable; a fault may strike before or after it took effect. */
    method Commit() returns (s: Signal)
      modifies this`script, this`working, server`committed
      ensures s == SignalAt(old(script), 0) && script == Rest(old(script), 1)
      ensures server.committed == if s.Ok? || s.effect.Applied? then old(working) else old(server.committed)
      ensures working == if s.Fault? && (s.effect.RolledBack? || s.kills) then server.committed else old(working)
    {
      s := NextSignal();
      if TookEffect(s) {
        server.committed := working;
      }
      working := Settle(s, server.committed, working, working);
    }

    /** Closing gives up whatever was not committed. */
    method Close()
      modifies this`working, this`closes
      ensures closes == old(closes) + 1 && working == server.committed
    {
      working := server.committed;
      closes := closes + 1;
    }

    /** Inserts the 'running' row and commits it at once. */
    method StartRun(instance: string, task: string, now: int) returns (s: Signal, id: nat)
      requires working == server.committed
      modifies this`script, this`working, server`committed
      ensures id == old(working.nextRun)
      ensures
        var insert, commit := SignalAt(old(script), 0), SignalAt(old(script), 1);
        var started := Perform(old(working), InsertRun(instance, task, now));
        if !insert.Ok? then s == insert && server.committed == old(server.committed)
        else s == commit && script == Rest(old(script), 2)
             && server.committed == (if commit.Ok? || commit.effect.Applied? then started else old(server.committed))
             && (s.Ok? ==> working == started)
    {
      id := working.nextRun;
      s := Execute(InsertRun(instance, task, now));
      if s.Ok? {
        s := Commit();
      }
    }

    /** Commits the status change together with everything pending on the connection. */
    method FinishRun(id: nat, now: int, status: Status, rowCount: Option<nat>, error: Option<string>)
      returns (s: Signal)
      modifies this`script, this`working, server`committed
      ensures
        var update, commit := SignalAt(old(script), 0), SignalAt(old(script), 1);
        var finished := Perform(old(working), UpdateRun(id, now, status, rowCount, error));
        if !update.Ok? then s == update && server.committed == old(server.committed)
        else s == commit
             && server.committed == (if commit.Ok? || commit.effect.Applied? then finished else old(server.committed))
             && (s.Ok? ==> working == finished)
    {
      s := Execute(UpdateRun(id, now, status, rowCount, error));
      if s.Ok? {
        s := Commit();
      }
    }
  }
}
