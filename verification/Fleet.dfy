/** The main loop of run.py over the monitored instances, here for the workload collector. */
module Fleet {
  import opened Common
  import opened Attribution
  import opened Merge
  import opened WorkloadMetrics
  import opened Workload
  import opened Repository
  import opened Collector
  import opened WorkloadCollection
  import opened History
  import opened Erasure

  /** One configured instance and how things go for it: connections, source reads, and repository calls. */
  datatype Job = Job(instance: string, sourceUp: bool, repositoryUp: bool, readFails: bool, log: seq<Logged>,
                     fetchAt: int, startAt: int, endAt: int, error: string, script: seq<Signal>)

  /** One turn of the loop: whose, what the repository shows of it, and how it ended for the loop. */
  datatype FleetRun = FleetRun(job: Job, trace: Trace, reply: Reply)

  ghost predicate Fits(db: Repo, r: FleetRun) {
    && r.trace.instance == r.job.instance && r.trace.task == TASK
    && Possible(r.trace, RowsAt(r.job.log, r.job.instance, db, r.job.fetchAt))
  }

  function Effect(db: Repo, r: FleetRun): Repo {
    var rows := RowsAt(r.job.log, r.job.instance, db, r.job.fetchAt);
    if r.trace.kept <= |rows| then RunEffect(db, r.trace, rows) else db
  }

  function Effects(db: Repo, runs: seq<FleetRun>): Repo {
    if runs == [] then db else Effect(Effects(db, runs[..|runs| - 1]), runs[|runs| - 1])
  }

  ghost predicate AllFit(db: Repo, runs: seq<FleetRun>) {
    runs == [] || (AllFit(db, runs[..|runs| - 1]) && Fits(Effects(db, runs[..|runs| - 1]), runs[|runs| - 1]))
  }

  // ---------- Isolation ----------

  /** What one instance can see of the repository: its rows and its watermark. */
  datatype InstanceView = InstanceView(facts: Facts, watermark: Option<int>)

  function ViewOf(db: Repo, instance: string): InstanceView {
    InstanceView(Mine(db.facts, instance), MarkOf(db, instance))
  }

  lemma EffectKeepsIds(db: Repo, r: FleetRun)
    requires FreshIds(db) && Fits(db, r)
    ensures FreshIds(Effect(db, r))
  {
    EffectOnRuns(db, r.trace, RowsAt(r.job.log, r.job.instance, db, r.job.fetchAt), r.job.instance, TASK);
  }

  lemma EffectFacts(db: Repo, r: FleetRun)
    requires FreshIds(db) && Fits(db, r)
    ensures Effect(db, r).facts
         == UpsertAll(db.facts, RowsAt(r.job.log, r.job.instance, db, r.job.fetchAt)[..r.trace.kept])
  {
    RunLeaves(db, r.trace, RowsAt(r.job.log, r.job.instance, db, r.job.fetchAt));
  }

  lemma {:induction false} MineElsewhere(t: Facts, rows: seq<FactRow>, instance: string)
    requires forall r :: r in rows ==> r.key.instance != instance
    ensures Mine(UpsertAll(t, rows), instance) == Mine(t, instance)
  {
    if rows != [] {
      MineElsewhere(t, rows[..|rows| - 1], instance);
      assert rows[|rows| - 1] in rows;
    }
  }

  /** A run touches no other instance's rows and no other instance's watermark. */
  lemma EffectElsewhere(db: Repo, r: FleetRun, instance: string)
    requires FreshIds(db) && Fits(db, r) && r.job.instance != instance
    ensures ViewOf(Effect(db, r), instance) == ViewOf(db, instance)
  {
    var rows := RowsAt(r.job.log, r.job.instance, db, r.job.fetchAt);
    RowsBelong(r.job.instance, MarkOf(db, r.job.instance), Fetched(r.job.log, r.job.fetchAt));
    EffectFacts(db, r);
    MineElsewhere(db.facts, rows[..r.trace.kept], instance);
    EffectOnRuns(db, r.trace, rows, instance, TASK);
    assert SuccessTimes(Effect(db, r).runs, instance, TASK) == SuccessTimes(db.runs, instance, TASK);
  }

  /** In the history of one instance, its own runs are steps of their kind, and those of others happen elsewhere. */
  lemma FleetRunsAreSteps(db: Repo, r: FleetRun, instance: string)
    requires FreshIds(db) && Fits(db, r)
    ensures r.job.instance == instance ==>
              Step(r.job.log, instance, db, Action.Run(r.job.fetchAt, r.trace), Effect(db, r))
    ensures r.job.instance != instance ==> Step(r.job.log, instance, db, Elsewhere, Effect(db, r))
  {
    if r.job.instance != instance {
      EffectElsewhere(db, r, instance);
      EffectKeepsIds(db, r);
      EffectOnRuns(db, r.trace, RowsAt(r.job.log, r.job.instance, db, r.job.fetchAt), instance, TASK);
    }
  }

  lemma MaxOfWith(s: set<int>, t: set<int>, x: int)
    requires MaxOf(s) == MaxOf(t)
    ensures MaxOf(s + {x}) == MaxOf(t + {x})
  {
    var m := if MaxOf(s).Some? && MaxOf(s).value > x then MaxOf(s).value else x;
    MaxIsUnique(s + {x}, m);
    MaxIsUnique(t + {x}, m);
  }

  /** What a run does to its own instance depends on nothing but that instance's view. */
  lemma EffectIsLocal(db: Repo, other: Repo, r: FleetRun)
    requires FreshIds(db) && FreshIds(other) && Fits(db, r)
    requires ViewOf(db, r.job.instance) == ViewOf(other, r.job.instance)
    ensures Fits(other, r)
    ensures ViewOf(Effect(db, r), r.job.instance) == ViewOf(Effect(other, r), r.job.instance)
  {
    var instance := r.job.instance;
    var rows := RowsAt(r.job.log, instance, db, r.job.fetchAt);
    RowsBelong(instance, MarkOf(db, instance), Fetched(r.job.log, r.job.fetchAt));
    EffectFacts(db, r);
    EffectFacts(other, r);
    MineUpsertAll(db.facts, rows[..r.trace.kept], instance);
    MineUpsertAll(other.facts, rows[..r.trace.kept], instance);
    EffectOnRuns(db, r.trace, rows, instance, TASK);
    EffectOnRuns(other, r.trace, rows, instance, TASK);
    var s, t := SuccessTimes(db.runs, instance, TASK), SuccessTimes(other.runs, instance, TASK);
    if r.trace.mark.MarkedSuccess? {
      MaxOfWith(s, t, r.trace.startAt);
    } else {
      assert s + {} == s && t + {} == t;
    }
  }

  ghost predicate DistinctNames(runs: seq<FleetRun>) {
    forall i, j :: 0 <= i < j < |runs| ==> runs[i].job.instance != runs[j].job.instance
  }

  lemma {:induction false} EffectsElsewhere(db: Repo, runs: seq<FleetRun>, instance: string)
    requires FreshIds(db) && AllFit(db, runs)
    requires forall r :: r in runs ==> r.job.instance != instance
    ensures FreshIds(Effects(db, runs))
    ensures ViewOf(Effects(db, runs), instance) == ViewOf(db, instance)
  {
    if runs != [] {
      var front, last := runs[..|runs| - 1], runs[|runs| - 1];
      EffectsElsewhere(db, front, instance);
      assert last in runs;
      EffectKeepsIds(Effects(db, front), last);
      EffectElsewhere(Effects(db, front), last, instance);
    }
  }

  /** Every instance ends with the rows and the watermark that its run alone would have left. */
  lemma {:induction false} FleetIsolation(db: Repo, runs: seq<FleetRun>, i: nat)
    requires FreshIds(db) && AllFit(db, runs) && DistinctNames(runs) && i < |runs|
    ensures Fits(db, runs[i])
    ensures ViewOf(Effects(db, runs), runs[i].job.instance) == ViewOf(Effect(db, runs[i]), runs[i].job.instance)
  {
    var n := |runs| - 1;
    var front, last := runs[..n], runs[n];
    if i == n {
      forall r | r in front ensures r.job.instance != last.job.instance {
        var j :| 0 <= j < n && front[j] == r;
        assert runs[j] == r;
      }
      EffectsElsewhere(db, front, last.job.instance);
      EffectIsLocal(Effects(db, front), db, last);
    } else {
      assert front[i] == runs[i];
      FleetIsolation(db, front, i);
      EffectsKeepIds(db, front);
      EffectElsewhere(Effects(db, front), last, runs[i].job.instance);
    }
  }

  lemma {:induction false} EffectsKeepIds(db: Repo, runs: seq<FleetRun>)
    requires FreshIds(db) && AllFit(db, runs)
    ensures FreshIds(Effects(db, runs))
  {
    if runs != [] {
      EffectsKeepIds(db, runs[..|runs| - 1]);
      EffectKeepsIds(Effects(db, runs[..|runs| - 1]), runs[|runs| - 1]);
    }
  }

  // ---------- The turns ----------

  function EndingFor(db: Repo, job: Job, dryRun: bool): Ending {
    var rows := RowsAt(job.log, job.instance, db, job.fetchAt);
    EndingOf(job.script, if job.sourceUp && job.repositoryUp && !job.readFails then Some(|rows|) else None, dryRun)
  }

  /** The turn of one job over `db`. */
  function RunOf(db: Repo, job: Job, dryRun: bool): FleetRun {
    var e := EndingFor(db, job, dryRun);
    FleetRun(job, Trace(job.instance, TASK, job.startAt, job.endAt, job.error, e.mark, e.kept), e.reply)
  }

  /** The repository after some turns, and the turns. */
  datatype Account = Account(db: Repo, runs: seq<FleetRun>)

  /** The turns of the jobs, one after another. */
  function Serve(db: Repo, jobs: seq<Job>, dryRun: bool): Account {
    if jobs == [] then Account(db, [])
    else
      var before := Serve(db, jobs[..|jobs| - 1], dryRun);
      var run := RunOf(before.db, jobs[|jobs| - 1], dryRun);
      Account(Effect(before.db, run), before.runs + [run])
  }

  lemma RunOfFits(db: Repo, job: Job, dryRun: bool)
    ensures Fits(db, RunOf(db, job, dryRun))
  {
    var rows := RowsAt(job.log, job.instance, db, job.fetchAt);
    if job.sourceUp && job.repositoryUp && !job.readFails && !dryRun {
      RunEndingPossible(job.script, RunOf(db, job, dryRun).trace, rows);
    }
  }

  lemma {:induction false} ServeEffects(db: Repo, jobs: seq<Job>, dryRun: bool)
    requires FreshIds(db)
    ensures
      var now := Serve(db, jobs, dryRun);
      AllFit(db, now.runs) && now.db == Effects(db, now.runs) && FreshIds(now.db)
  {
    if jobs != [] {
      ServeEffects(db, jobs[..|jobs| - 1], dryRun);
      var before, last := Serve(db, jobs[..|jobs| - 1], dryRun), jobs[|jobs| - 1];
      assert Fits(before.db, RunOf(before.db, last, dryRun)) by { RunOfFits(before.db, last, dryRun); }
      EffectsSnoc(db, before.runs, RunOf(before.db, last, dryRun));
    }
  }

  lemma EffectsSnoc(db: Repo, runs: seq<FleetRun>, run: FleetRun)
    requires FreshIds(db) && AllFit(db, runs) && Fits(Effects(db, runs), run)
    ensures AllFit(db, runs + [run]) && Effects(db, runs + [run]) == Effect(Effects(db, runs), run)
    ensures FreshIds(Effects(db, runs + [run]))
  {
    assert (runs + [run])[..|runs|] == runs;
    EffectsKeepIds(db, runs + [run]);
  }

  ghost predicate DistinctInstances(jobs: seq<Job>) {
    forall i, j :: 0 <= i < j < |jobs| ==> jobs[i].instance != jobs[j].instance
  }

  /** A turn depends on nothing but its own instance's view. */
  lemma RunOfIsLocal(db: Repo, other: Repo, job: Job, dryRun: bool)
    requires ViewOf(db, job.instance) == ViewOf(other, job.instance)
    ensures RunOf(db, job, dryRun) == RunOf(other, job, dryRun)
  {
  }

  lemma {:induction false} JobsInOrder(db: Repo, jobs: seq<Job>, dryRun: bool)
    ensures |Serve(db, jobs, dryRun).runs| == |jobs|
    ensures forall i :: 0 <= i < |jobs| ==> Serve(db, jobs, dryRun).runs[i].job == jobs[i]
  {
    if jobs != [] {
      var n := |jobs| - 1;
      JobsInOrder(db, jobs[..n], dryRun);
      var before := Serve(db, jobs[..n], dryRun);
      var last := RunOf(before.db, jobs[n], dryRun);
      assert Serve(db, jobs, dryRun).runs == before.runs + [last] && last.job == jobs[n];
    }
  }

  /** The i-th turn, over what the turns before it have left. */
  lemma {:induction false} TurnAt(db: Repo, jobs: seq<Job>, dryRun: bool, i: nat)
    requires i <= |jobs|
    ensures |Serve(db, jobs, dryRun).runs| == |jobs|
    ensures i < |jobs| ==> Serve(db, jobs, dryRun).runs[i] == RunOf(Serve(db, jobs[..i], dryRun).db, jobs[i], dryRun)
  {
    if jobs != [] {
      var n := |jobs| - 1;
      if i < n {
        TurnAt(db, jobs[..n], dryRun, i);
        assert jobs[..n][..i] == jobs[..i];
      } else {
        TurnAt(db, jobs[..n], dryRun, n);
      }
    }
  }

  lemma TurnIsItsOwn(db: Repo, jobs: seq<Job>, dryRun: bool, i: nat)
    requires FreshIds(db) && DistinctInstances(jobs) && i < |jobs|
    ensures RunOf(Serve(db, jobs[..i], dryRun).db, jobs[i], dryRun) == RunOf(db, jobs[i], dryRun)
  {
    forall job | job in jobs[..i] ensures job.instance != jobs[i].instance {
      var j :| 0 <= j < i && jobs[j] == job;
    }
    UnservedKeep(db, jobs[..i], dryRun, jobs[i].instance);
    RunOfIsLocal(Serve(db, jobs[..i], dryRun).db, db, jobs[i], dryRun);
  }

  /**
   Over distinctly named instances every turn is the one its instance would have had alone, whatever becomes of the
   others; it leaves that instance the rows and the watermark it alone would have left.
   */
  lemma ServedAlone(db: Repo, jobs: seq<Job>, dryRun: bool, i: nat)
    requires FreshIds(db) && DistinctInstances(jobs) && i < |jobs|
    ensures
      var now, alone := Serve(db, jobs, dryRun), RunOf(db, jobs[i], dryRun);
      && |now.runs| == |jobs| && now.runs[i] == alone
      && ViewOf(now.db, jobs[i].instance) == ViewOf(Effect(db, alone), jobs[i].instance)
  {
    var runs := Serve(db, jobs, dryRun).runs;
    TurnAt(db, jobs, dryRun, i);
    TurnIsItsOwn(db, jobs, dryRun, i);
    ServeEffects(db, jobs, dryRun);
    JobsInOrder(db, jobs, dryRun);
    FleetIsolation(db, runs, i);
  }

  /** The instances without a turn keep what they had. */
  lemma UnservedKeep(db: Repo, jobs: seq<Job>, dryRun: bool, instance: string)
    requires FreshIds(db) && forall job :: job in jobs ==> job.instance != instance
    ensures ViewOf(Serve(db, jobs, dryRun).db, instance) == ViewOf(db, instance)
  {
    var runs := Serve(db, jobs, dryRun).runs;
    JobsInOrder(db, jobs, dryRun);
    forall r | r in runs ensures r.job.instance != instance {
      var j :| 0 <= j < |runs| && runs[j] == r;
      assert r.job in jobs;
    }
    ServeEffects(db, jobs, dryRun);
    EffectsElsewhere(db, runs, instance);
  }

  // ---------- The loop ----------

  type RepoServer = Server<FactKey, Who, Metrics>
  type RepoConnection = Connection<FactKey, Who, Metrics>

  /** One pass of the try/except/finally in the loop. `sources` and `repos` are the connections it opened. */
  method RunInstance(server: RepoServer, job: Job, dryRun: bool)
    returns (reply: Reply, ghost t: Trace, ghost sources: set<Source>, ghost repos: set<RepoConnection>)
    requires FreshIds(server.committed)
    modifies server`committed
    ensures FleetRun(job, t, reply) == RunOf(old(server.committed), job, dryRun)
    ensures server.committed == Effect(old(server.committed), FleetRun(job, t, reply))
    ensures fresh(sources) && fresh(repos)
    ensures |sources| == (if job.sourceUp then 1 else 0)
    ensures |repos| == (if job.sourceUp && job.repositoryUp then 1 else 0)
    ensures !reply.Died? ==> ClosedOnce(sources, repos)
    ensures !job.sourceUp || !job.repositoryUp || job.readFails ==> reply.Raised? && t.mark.NoRun?
    ensures dryRun ==> t.mark.NoRun? && server.committed == old(server.committed)
    ensures reply.Returned? ==> t.mark == if dryRun then NoRun else MarkedSuccess
    ensures reply.Died? ==> exists s :: s in job.script && s.Fault? && s.kills
    ensures t.startAt == job.startAt && t.endAt == job.endAt && t.error == job.error
    ensures
      var n := |RowsFor(old(server.committed), job)|;
      job.sourceUp && job.repositoryUp && !job.readFails ==>
        && (dryRun ==> reply == Returned(n))
        && (!dryRun ==> (reply.Returned? <==> AllOk(job.script, n + 5)) && (reply.Returned? ==> reply.rowCount == n))
    ensures !dryRun && reply.Returned? ==>
              var rows := RowsFor(old(server.committed), job);
              && server.committed.runs == old(server.committed.runs)[old(server.committed.nextRun) :=
                   RunRow(job.instance, "workload", job.startAt, Some(job.endAt), Success, Some(|rows|), None)]
              && server.committed.facts == UpsertAll(old(server.committed.facts), rows)
  {
    TurnEnds(server.committed, job, dryRun);
    TurnLeaves(server.committed, job, dryRun);
    t := Trace(job.instance, TASK, job.startAt, job.endAt, job.error, NoRun, 0);
    sources, repos := {}, {};
    var collector := new WorkloadCollector(job.instance);
    if !job.sourceUp {
      return Raised, t, sources, repos;
    }
    var source := new Source(job.log);
    sources := {source};
    if !job.repositoryUp {
      source.Close();
      return Raised, t, sources, repos;
    }
    var repo := new Connection(server, job.script);
    repos := {repo};
    reply, t := collector.Run(source, repo, dryRun, job.readFails, job.fetchAt, job.startAt, job.endAt, job.error);
    if reply.Died? {
      return;
    }
    source.Close();
    repo.Close();
  }

  /** The rows of a turn: of what is visible when it fetches, what lies above its own watermark. */
  function RowsFor(db: Repo, job: Job): seq<FactRow> {
    RowsOf(job.instance, Watermark(db.runs, job.instance, "workload"), Fetched(job.log, job.fetchAt))
  }

  /** The row in collection_run that a successful turn of the job leaves. */
  function SuccessRow(job: Job, rowCount: nat): RunRow {
    RunRow(job.instance, "workload", job.startAt, Some(job.endAt), Success, Some(rowCount), None)
  }

  /** A turn that returned and was not dry is on record, and its rows are merged. */
  lemma TurnLeaves(db: Repo, job: Job, dryRun: bool)
    requires FreshIds(db)
    ensures
      var run, n := RunOf(db, job, dryRun), |RowsFor(db, job)|;
      && (run.trace.startAt, run.trace.endAt, run.trace.error) == (job.startAt, job.endAt, job.error)
      && (job.sourceUp && job.repositoryUp && !job.readFails ==>
            && (dryRun ==> run.reply == Returned(n))
            && (!dryRun ==> (run.reply.Returned? <==> AllOk(job.script, n + 5))
                            && (run.reply.Returned? ==> run.reply.rowCount == n)))
      && (!dryRun && run.reply.Returned? ==>
            && Effect(db, run).runs == db.runs[db.nextRun := SuccessRow(job, n)]
            && Effect(db, run).facts == UpsertAll(db.facts, RowsFor(db, job)))
  {
    var run, rows := RunOf(db, job, dryRun), RowsAt(job.log, job.instance, db, job.fetchAt);
    RunEndings(job.script, |rows|);
    RunOfFits(db, job, dryRun);
    RunLeaves(db, run.trace, rows);
    assert rows[..|rows|] == rows;
  }

  lemma TurnEnds(db: Repo, job: Job, dryRun: bool)
    ensures
      var run := RunOf(db, job, dryRun);
      && (dryRun ==> run.trace.mark.NoRun? && Effect(db, run) == db)
      && (run.reply.Returned? ==> run.trace.mark == if dryRun then NoRun else MarkedSuccess)
      && (run.reply.Died? ==> exists s :: s in job.script && s.Fault? && s.kills)
  {
    var n := |RowsAt(job.log, job.instance, db, job.fetchAt)|;
    RunEndings(job.script, n);
    if RunEnding(job.script, n).reply.Died? {
      var i :| 0 <= i < n + 5 && SignalAt(job.script, i).Fault? && SignalAt(job.script, i).kills;
      assert job.script[i] in job.script;
    }
  }

  ghost predicate ClosedOnce(sources: set<Source>, repos: set<RepoConnection>)
    reads sources, repos
  {
    (forall c :: c in sources ==> c.closes == 1) && (forall c :: c in repos ==> c.closes == 1)
  }

  function SourcesOpened(jobs: seq<Job>): nat {
    if jobs == [] then 0 else SourcesOpened(jobs[..|jobs| - 1]) + if jobs[|jobs| - 1].sourceUp then 1 else 0
  }

  function ReposOpened(jobs: seq<Job>): nat {
    if jobs == [] then 0
    else
      var job := jobs[|jobs| - 1];
      ReposOpened(jobs[..|jobs| - 1]) + if job.sourceUp && job.repositoryUp then 1 else 0
  }

  /** The loop has served `jobs`, none of them fatally. */
  ghost predicate Served(db: Repo, jobs: seq<Job>, dryRun: bool, now: Repo, runs: seq<FleetRun>, exitCode: nat) {
    && Account(now, runs) == Serve(db, jobs, dryRun) && FreshIds(now) && |runs| == |jobs|
    && NoneDied(runs) && exitCode == if AllReturned(runs) then 0 else 1
  }

  /** The loop has served `jobs`, and the last turn was the end of the process. */
  ghost predicate Stopped(db: Repo, jobs: seq<Job>, dryRun: bool, now: Repo, runs: seq<FleetRun>) {
    && Account(now, runs) == Serve(db, jobs, dryRun) && |runs| == |jobs|
    && runs != [] && runs[|runs| - 1].reply.Died? && NoneDied(runs[..|runs| - 1])
  }

  ghost predicate Opened(jobs: seq<Job>, sources: set<Source>, repos: set<RepoConnection>) {
    |sources| == SourcesOpened(jobs) && |repos| == ReposOpened(jobs)
  }

  /** A turn, with the connections it opened added to the earlier ones. */
  method Turn(server: RepoServer, job: Job, dryRun: bool, ghost sources: set<Source>, ghost repos: set<RepoConnection>)
    returns (reply: Reply, ghost run: FleetRun, ghost sources': set<Source>, ghost repos': set<RepoConnection>)
    requires FreshIds(server.committed) && ClosedOnce(sources, repos)
    modifies server`committed
    ensures reply == run.reply && run == RunOf(old(server.committed), job, dryRun)
    ensures server.committed == Effect(old(server.committed), run)
    ensures sources <= sources' && fresh(sources' - sources)
    ensures repos <= repos' && fresh(repos' - repos)
    ensures |sources'| == |sources| + (if job.sourceUp then 1 else 0)
    ensures |repos'| == |repos| + (if job.sourceUp && job.repositoryUp then 1 else 0)
    ensures !run.reply.Died? ==> ClosedOnce(sources', repos')
  {
    ghost var t, newSources, newRepos;
    reply, t, newSources, newRepos := RunInstance(server, job, dryRun);
    run := FleetRun(job, t, reply);
    sources', repos' := sources + newSources, repos + newRepos;
  }

  /** One pass of the loop: what the turn means for the exit code and for the account so far. */
  method Pass(server: RepoServer, job: Job, dryRun: bool, exitCode: nat, ghost db: Repo, ghost served: seq<Job>,
              ghost runs: seq<FleetRun>, ghost sources: set<Source>, ghost repos: set<RepoConnection>)
    returns (exitCode': nat, died: bool, ghost runs': seq<FleetRun>,
             ghost sources': set<Source>, ghost repos': set<RepoConnection>)
    requires FreshIds(db) && Served(db, served, dryRun, server.committed, runs, exitCode)
    requires Opened(served, sources, repos) && ClosedOnce(sources, repos)
    modifies server`committed
    ensures if died then Stopped(db, served + [job], dryRun, server.committed, runs')
            else Served(db, served + [job], dryRun, server.committed, runs', exitCode')
    ensures Opened(served + [job], sources', repos')
    ensures sources <= sources' && fresh(sources' - sources) && repos <= repos' && fresh(repos' - repos)
    ensures !died ==> ClosedOnce(sources', repos')
  {
    var reply;
    ghost var run;
    reply, run, sources', repos' := Turn(server, job, dryRun, sources, repos);
    ServedNext(db, served, dryRun, job);
    Append(runs, run);
    runs' := runs + [run];
    died := reply.Died?;
    exitCode' := if reply.Returned? then exitCode else 1;
  }

  lemma ServedNext(db: Repo, jobs: seq<Job>, dryRun: bool, job: Job)
    requires FreshIds(db)
    ensures
      var before := Serve(db, jobs, dryRun);
      var run := RunOf(before.db, job, dryRun);
      && Serve(db, jobs + [job], dryRun) == Account(Effect(before.db, run), before.runs + [run])
      && FreshIds(Effect(before.db, run))
    ensures SourcesOpened(jobs + [job]) == SourcesOpened(jobs) + if job.sourceUp then 1 else 0
    ensures ReposOpened(jobs + [job]) == ReposOpened(jobs) + if job.sourceUp && job.repositoryUp then 1 else 0
  {
    assert (jobs + [job])[..|jobs|] == jobs;
    ServeEffects(db, jobs + [job], dryRun);
  }

  /**
   main: the instances one after another. Each has exactly its turn. A failing instance only sets the exit code,
   which is 0 exactly when every turn returned; only a death ends the loop early, and unless the process dies every
   connection that was opened has been closed exactly once.
   */
  method RunAll(server: RepoServer, jobs: seq<Job>, dryRun: bool)
    returns (exitCode: nat, died: bool, ghost served: seq<Job>, ghost runs: seq<FleetRun>,
             ghost sources: set<Source>, ghost repos: set<RepoConnection>)
    requires FreshIds(server.committed)
    modifies server`committed
    ensures served <= jobs && (!died ==> served == jobs)
    ensures if died then Stopped(old(server.committed), served, dryRun, server.committed, runs)
            else Served(old(server.committed), served, dryRun, server.committed, runs, exitCode)
    ensures fresh(sources) && fresh(repos) && Opened(served, sources, repos)
    ensures !died ==> ClosedOnce(sources, repos)
    ensures Recorded(served, dryRun, server.committed, runs)
  {
    exitCode, died, served, runs, sources, repos := 0, false, [], [], {}, {};
    for i := 0 to |jobs|
      invariant served == jobs[..i]
      invariant !died && Served(old(server.committed), served, dryRun, server.committed, runs, exitCode)
      invariant Opened(served, sources, repos) && ClosedOnce(sources, repos)
      invariant fresh(sources) && fresh(repos)
    {
      exitCode, died, runs, sources, repos :=
        Pass(server, jobs[i], dryRun, exitCode, old(server.committed), served, runs, sources, repos);
      TakeSnoc(jobs, i);
      served := served + [jobs[i]];
      if died {
        ServeRecords(old(server.committed), served, dryRun);
        return;
      }
    }
    ServeRecords(old(server.committed), served, dryRun);
  }

  // ---------- What the loop leaves on record ----------

  /** Every turn has its job's times and error, and one that returned and was not dry is on record as a success. */
  ghost predicate Recorded(jobs: seq<Job>, dryRun: bool, now: Repo, runs: seq<FleetRun>) {
    && |runs| == |jobs|
    && forall i :: 0 <= i < |jobs| ==> OnRecord(jobs[i], dryRun, now, runs[i])
  }

  ghost predicate OnRecord(job: Job, dryRun: bool, now: Repo, run: FleetRun) {
    && run.job == job && run.trace.instance == job.instance
    && run.trace.startAt == job.startAt && run.trace.endAt == job.endAt && run.trace.error == job.error
    && (!dryRun && run.reply.Returned? ==>
          exists id :: id in now.runs
                       && now.runs[id] == RunRow(job.instance, "workload", job.startAt, Some(job.endAt), Success,
                                                 Some(run.reply.rowCount), None))
  }

  /** No turn touches an earlier run's row. */
  lemma RecordStays(db: Repo, job: Job, dryRun: bool, earlier: Job, run: FleetRun)
    requires FreshIds(db) && OnRecord(earlier, dryRun, db, run)
    ensures OnRecord(earlier, dryRun, Effect(db, RunOf(db, job, dryRun)), run)
  {
    RunOfFits(db, job, dryRun);
    var after := Effect(db, RunOf(db, job, dryRun));
    RunLeaves(db, RunOf(db, job, dryRun).trace, RowsAt(job.log, job.instance, db, job.fetchAt));
    assert forall id :: id in db.runs ==> id in after.runs && after.runs[id] == db.runs[id];
  }

  lemma RecordMade(db: Repo, job: Job, dryRun: bool)
    requires FreshIds(db)
    ensures OnRecord(job, dryRun, Effect(db, RunOf(db, job, dryRun)), RunOf(db, job, dryRun))
  {
    TurnLeaves(db, job, dryRun);
    var run := RunOf(db, job, dryRun);
    if !dryRun && run.reply.Returned? {
      assert Effect(db, run).runs[db.nextRun] == SuccessRow(job, run.reply.rowCount);
    }
  }

  lemma RecordedNext(db: Repo, jobs: seq<Job>, dryRun: bool, runs: seq<FleetRun>, job: Job)
    requires FreshIds(db) && Recorded(jobs, dryRun, db, runs)
    ensures
      var run := RunOf(db, job, dryRun);
      Recorded(jobs + [job], dryRun, Effect(db, run), runs + [run])
  {
    var run := RunOf(db, job, dryRun);
    var after := Effect(db, run);
    assert OnRecord(job, dryRun, after, run) by { RecordMade(db, job, dryRun); }
    forall i | 0 <= i < |jobs| ensures OnRecord(jobs[i], dryRun, after, runs[i]) {
      RecordStays(db, job, dryRun, jobs[i], runs[i]);
    }
    RecordedSnoc(jobs, dryRun, after, runs, job, run);
  }

  lemma RecordedSnoc(jobs: seq<Job>, dryRun: bool, now: Repo, runs: seq<FleetRun>, job: Job, run: FleetRun)
    requires Recorded(jobs, dryRun, now, runs) && OnRecord(job, dryRun, now, run)
    ensures Recorded(jobs + [job], dryRun, now, runs + [run])
  {
  }

  lemma {:induction false} ServeRecords(db: Repo, jobs: seq<Job>, dryRun: bool)
    requires FreshIds(db)
    ensures Recorded(jobs, dryRun, Serve(db, jobs, dryRun).db, Serve(db, jobs, dryRun).runs)
  {
    if jobs != [] {
      var front, last := jobs[..|jobs| - 1], jobs[|jobs| - 1];
      ServeRecords(db, front, dryRun);
      ServeEffects(db, front, dryRun);
      var before := Serve(db, front, dryRun);
      RecordedNext(before.db, front, dryRun, before.runs, last);
      assert jobs == front + [last];
    }
  }

  // ---------- Scheduled invocations as a history ----------

  /** The turns of the jobs as the history of one instance; those of other instances happen elsewhere. */
  function HistoryOf(instance: string, db: Repo, at: int, jobs: seq<Job>, dryRun: bool): History {
    if jobs == [] then Begin(db, at)
    else
      var h, last := HistoryOf(instance, db, at, jobs[..|jobs| - 1], dryRun), jobs[|jobs| - 1];
      var run := RunOf(h.db, last, dryRun);
      Next(h, if last.instance == instance then Action.Run(last.fetchAt, run.trace) else Elsewhere, Effect(h.db, run))
  }

  function LastStart(instance: string, at: int, jobs: seq<Job>): int {
    if jobs == [] then at
    else if jobs[|jobs| - 1].instance == instance then jobs[|jobs| - 1].startAt
    else LastStart(instance, at, jobs[..|jobs| - 1])
  }

  /** The instance's jobs read its log, one after another: each fetches after the last start and before its own. */
  ghost predicate TimesInOrder(log: seq<Logged>, instance: string, at: int, jobs: seq<Job>) {
    jobs != [] ==>
      var front, last := jobs[..|jobs| - 1], jobs[|jobs| - 1];
      && TimesInOrder(log, instance, at, front)
      && (last.instance == instance ==>
            last.log == log && LastStart(instance, at, front) <= last.fetchAt < last.startAt)
  }

  /** Whatever the invocations, each instance's turns form a serial history, and it ends where the loop leaves off. */
  lemma {:induction false} TurnsAreSerial(log: seq<Logged>, instance: string, db: Repo, at: int, jobs: seq<Job>,
                                          dryRun: bool)
    requires FreshIds(db) && TimesInOrder(log, instance, at, jobs)
    requires forall t :: t in SuccessTimes(db.runs, instance, "workload") ==> t <= at
    ensures
      var h := HistoryOf(instance, db, at, jobs, dryRun);
      && Serial(log, instance, h) && KeepsNewest(h, instance) && KeepsRows(h) && FreshIds(h.db)
      && Clock(h) <= LastStart(instance, at, jobs) && h.db == Serve(db, jobs, dryRun).db && Beginning(h) == db
  {
    if jobs != [] {
      var front, last := jobs[..|jobs| - 1], jobs[|jobs| - 1];
      TurnsAreSerial(log, instance, db, at, front, dryRun);
      var h := HistoryOf(instance, db, at, front, dryRun);
      var run := RunOf(h.db, last, dryRun);
      assert Fits(h.db, run) by { RunOfFits(h.db, last, dryRun); }
      FleetRunsAreSteps(h.db, run, instance);
      EffectKeepsIds(h.db, run);
    }
  }

  /** However often the loop is invoked, an event is aggregated or lost at most once, and not before it is passed. */
  lemma InvocationsIngestOnce(log: seq<Logged>, instance: string, db: Repo, at: int, jobs: seq<Job>, dryRun: bool,
                              e: Logged)
    requires FreshIds(db) && TimesInOrder(log, instance, at, jobs) && e.event.time <= e.visibleAt
    requires forall t :: t in SuccessTimes(db.runs, instance, "workload") ==> t <= at
    requires !Passed(db, instance, e)
    ensures
      var h := HistoryOf(instance, db, at, jobs, dryRun);
      TimesIngested(h, instance, e) + TimesLost(h, instance, e)
      == if Passed(Serve(db, jobs, dryRun).db, instance, e) then 1 else 0
  {
    var h := HistoryOf(instance, db, at, jobs, dryRun);
    TurnsAreSerial(log, instance, db, at, jobs, dryRun);
    KeepingNewestReopensNothing(h, instance, e);
    Ledger(log, instance, h, e);
  }

  predicate NoneDied(runs: seq<FleetRun>) {
    forall r :: r in runs ==> !r.reply.Died?
  }

  predicate AllReturned(runs: seq<FleetRun>) {
    forall r :: r in runs ==> r.reply.Returned?
  }

  lemma Append(runs: seq<FleetRun>, run: FleetRun)
    ensures (runs + [run])[..|runs|] == runs && (runs + [run])[|runs|] == run
    ensures NoneDied(runs + [run]) <==> NoneDied(runs) && !run.reply.Died?
    ensures AllReturned(runs + [run]) <==> AllReturned(runs) && run.reply.Returned?
  {
    assert run in runs + [run];
    assert forall r :: r in runs ==> r in runs + [run];
  }
}
