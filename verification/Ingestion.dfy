/**
 What fact_workload adds up to against what was ingested: exact if and only if no success met a row in a window ahead
 of its own and no two groups shared an attribution key, over histories with any failures and any purges of runs.
 */
module Ingestion {
  import opened Common
  import opened Attribution
  import opened Merge
  import opened WorkloadMetrics
  import opened Workload
  import opened WorkloadCollection
  import opened History
  import opened Erasure
  import opened Provenance

  // ---------- The truth ----------

  /** Some success has aggregated the event. */
  predicate Ingested(h: History, instance: string, x: Logged) {
    TimesIngested(h, instance, x) > 0
  }

  /**
   For every event that the watermark had not reached at the beginning and no purge has reopened: it is ingested if
   it was seen and not lost, and a success turns it ingested exactly when its own window admits it.
   */
  lemma IngestedStep(log: seq<Logged>, instance: string, h: History, e: Logged)
    requires Serial(log, instance, h) && h.Next? && e.event.time <= e.visibleAt
    requires !Passed(Beginning(h), instance, e) && TimesReopened(h, instance, e) == 0
    ensures Ingested(h, instance, e) <==> Seen(h, e) && !Lost(h, e)
    ensures Succeeds(h.action) && Admits(h.before.db, instance, h.action.fetchAt, e) ==>
              Ingested(h, instance, e) && !Ingested(h.before, instance, e)
    ensures !(Succeeds(h.action) && Admits(h.before.db, instance, h.action.fetchAt, e)) ==>
              (Ingested(h, instance, e) <==> Ingested(h.before, instance, e))
  {
    ExactAccounting(log, instance, h, e);
    ExactAccounting(log, instance, h.before, e);
  }

  /** The true totals: over the log, every ingested event once. */
  function TotalIngested(log: seq<Logged>, instance: string, h: History): Metrics {
    if log == [] then ZERO
    else
      var n := |log| - 1;
      var before := TotalIngested(log[..n], instance, h);
      if Ingested(h, instance, log[n]) then Plus(before, One(log[n].event)) else before
  }

  lemma AdmittedLater(log: seq<Logged>, instance: string, h: History, x: Logged, k: FactKey)
    requires Serial(log, instance, h) && h.Next? && Succeeds(h.action)
    requires x in log && x.event.time <= x.visibleAt && StoredUnder(log, instance, h.before, x, k)
    requires IsNewer(x.event, MarkOf(h.before.db, instance))
    ensures Admits(h.before.db, instance, h.action.fetchAt, x)
  {
    StoredPlaced(log, instance, h.before, x, k);
  }

  /** A stored event has been ingested or is still above the watermark. */
  lemma {:induction false} StoredIsIngested(log: seq<Logged>, instance: string, h: History, x: Logged, k: FactKey)
    requires Serial(log, instance, h) && x in log && x.event.time <= x.visibleAt
    requires StoredUnder(log, instance, h, x, k)
    ensures Ingested(h, instance, x) || IsNewer(x.event, MarkOf(h.db, instance))
  {
    WatermarkMoves(log, instance, h);
    if StoredUnder(log, instance, h.before, x, k) {
      StoredIsIngested(log, instance, h.before, x, k);
      if Succeeds(h.action) && !Ingested(h.before, instance, x) { AdmittedLater(log, instance, h, x, k); }
    }
  }

  /** Right after a success nothing that is stored lies above the watermark. */
  lemma SettledIsPassed(log: seq<Logged>, instance: string, h: History, x: Logged, k: FactKey)
    requires Serial(log, instance, h) && h.Next? && Succeeds(h.action)
    requires x in log && x.event.time <= x.visibleAt && StoredUnder(log, instance, h, x, k)
    ensures !IsNewer(x.event, MarkOf(h.db, instance))
  {
    StoredPlaced(log, instance, h, x, k);
    WatermarkMoves(log, instance, h);
  }

  /** A success commits a row for every event it admits. */
  lemma SuccessStores(log: seq<Logged>, instance: string, h: History, x: Logged) returns (k: FactKey)
    requires Serial(log, instance, h) && h.Next? && Succeeds(h.action) && x in log
    requires Admits(h.before.db, instance, h.action.fetchAt, x)
    ensures Stores(log, instance, h, x, k) && x.event in Admitted(log, instance, h)
    ensures k == FactKey(instance, WindowWritten(log, instance, h), Code(x.event.who))
  {
    BatchNames(log, instance, h.before.db, h.action.fetchAt, x);
    k := FactKey(instance, WindowWritten(log, instance, h), Code(x.event.who));
    var rows := RowsAt(log, instance, h.before.db, h.action.fetchAt);
    assert rows[..h.action.trace.kept] == rows;
  }

  lemma {:induction false} IngestedIsStored(log: seq<Logged>, instance: string, h: History, x: Logged)
    returns (k: FactKey)
    requires Serial(log, instance, h) && KeepsRows(h) && x in log && Ingested(h, instance, x)
    ensures StoredUnder(log, instance, h, x, k)
  {
    if Ingested(h.before, instance, x) {
      k := IngestedIsStored(log, instance, h.before, x);
    } else {
      k := SuccessStores(log, instance, h, x);
    }
  }

  // ---------- When an event comes to be counted in two windows ----------

  /** A row in a window after the one that a run over `db` would write, in any other one if there is no watermark. */
  predicate Ahead(log: seq<Logged>, instance: string, db: Repo, f: int, k: FactKey) {
    k in Mine(db.facts, instance) &&
    match MarkOf(db, instance)
    case Some(w) => k.window > w
    case None => OldestOf(Fetched(log, f)) != Some(k.window)
  }

  ghost predicate RowsAhead(log: seq<Logged>, instance: string, db: Repo, f: int) {
    exists k :: Ahead(log, instance, db, f, k)
  }

  /** The success stores under one key an event that is stored under another. */
  ghost predicate Doubles(log: seq<Logged>, instance: string, h: History, x: Logged, k: FactKey, k': FactKey)
    requires h.Next? && h.action.Run?
  {
    x in log && k != k' && StoredUnder(log, instance, h.before, x, k) && Stores(log, instance, h, x, k')
  }

  /** A run that finds the watermark `w` and reads at `f` writes this window. */
  predicate OpensWindow(log: seq<Logged>, w: Option<int>, f: int, window: int) {
    if w.Some? then window == w.value else OldestOf(Fetched(log, f)) == Some(window)
  }

  lemma OwnWindow(log: seq<Logged>, instance: string, h: History, x: Logged, k': FactKey)
    requires Serial(log, instance, h) && h.Next? && h.action.Run? && x in log && Stores(log, instance, h, x, k')
    ensures k'.instance == instance && k'.code == Code(x.event.who)
    ensures OpensWindow(log, MarkOf(h.before.db, instance), h.action.fetchAt, k'.window)
  {
    RunWrites(log, instance, h);
    NewerThanNothing(Fetched(log, h.action.fetchAt));
  }

  lemma DoubledIsAhead(log: seq<Logged>, instance: string, h: History, x: Logged, k: FactKey, k': FactKey)
    requires Serial(log, instance, h) && CleanStart(log, instance, h) && h.Next? && h.action.Run?
    requires Doubles(log, instance, h, x, k, k')
    ensures Ahead(log, instance, h.before.db, h.action.fetchAt, k)
  {
    CleanBeginning(log, instance, h);
    OwnWindow(log, instance, h, x, k');
    StoredHasRow(log, instance, h.before, x, k);
    Readmitted(log, instance, h.before, h.action.fetchAt, x, k);
  }

  lemma AheadIsDoubled(log: seq<Logged>, instance: string, h: History, k: FactKey) returns (x: Logged, k': FactKey)
    requires Serial(log, instance, h) && CleanStart(log, instance, h) && h.Next? && Succeeds(h.action)
    requires Ahead(log, instance, h.before.db, h.action.fetchAt, k)
    ensures Doubles(log, instance, h, x, k, k')
  {
    CleanBeginning(log, instance, h);
    x := EveryRowNamesAnEvent(log, instance, h.before, k);
    Readmitted(log, instance, h.before, h.action.fetchAt, x, k);
    k' := SuccessStores(log, instance, h, x);
    OwnWindow(log, instance, h, x, k');
  }

  /** A success counts a stored event once more, in another window, exactly when it meets a row ahead. */
  lemma DoublesIffAhead(log: seq<Logged>, instance: string, h: History)
    requires Serial(log, instance, h) && CleanStart(log, instance, h) && h.Next? && Succeeds(h.action)
    ensures (exists x, k, k' :: Doubles(log, instance, h, x, k, k'))
            <==> RowsAhead(log, instance, h.before.db, h.action.fetchAt)
  {
    if x, k, k' :| Doubles(log, instance, h, x, k, k') {
      DoubledIsAhead(log, instance, h, x, k, k');
    }
    if k :| Ahead(log, instance, h.before.db, h.action.fetchAt, k) {
      var x, k' := AheadIsDoubled(log, instance, h, k);
    }
  }

  /** No success met a row ahead. */
  ghost predicate NeverAhead(log: seq<Logged>, instance: string, h: History) {
    h.Next? ==>
      && NeverAhead(log, instance, h.before)
      && (Succeeds(h.action) ==> !RowsAhead(log, instance, h.before.db, h.action.fetchAt))
  }

  /** Then an event in two rows is there by attempts that no success has followed, above the watermark. */
  lemma {:induction false} InTwoRows(log: seq<Logged>, instance: string, h: History, x: Logged, k: FactKey, k': FactKey)
    requires Serial(log, instance, h) && CleanStart(log, instance, h) && NeverAhead(log, instance, h) && x in log
    requires k != k' && StoredUnder(log, instance, h, x, k) && StoredUnder(log, instance, h, x, k')
    ensures IsNewer(x.event, MarkOf(h.db, instance))
  {
    CleanBeginning(log, instance, h);
    WatermarkMoves(log, instance, h);
    if StoredUnder(log, instance, h.before, x, k) && StoredUnder(log, instance, h.before, x, k') {
      InTwoRows(log, instance, h.before, x, k, k');
      if Succeeds(h.action) {
        AdmittedLater(log, instance, h, x, k);
        var q := SuccessStores(log, instance, h, x);
        DoubledIsAhead(log, instance, h, x, if q == k then k' else k, q);
      }
    } else if Succeeds(h.action) {
      NewlyInTwoRows(log, instance, h, x, k, k');
    }
  }

  lemma NewlyInTwoRows(log: seq<Logged>, instance: string, h: History, x: Logged, k: FactKey, k': FactKey)
    requires Serial(log, instance, h) && CleanStart(log, instance, h) && h.Next? && Succeeds(h.action) && x in log
    requires k != k' && StoredUnder(log, instance, h, x, k) && StoredUnder(log, instance, h, x, k')
    requires !(StoredUnder(log, instance, h.before, x, k) && StoredUnder(log, instance, h.before, x, k'))
    ensures RowsAhead(log, instance, h.before.db, h.action.fetchAt)
  {
    if Stores(log, instance, h, x, k) && Stores(log, instance, h, x, k') {
      OwnWindow(log, instance, h, x, k);
      OwnWindow(log, instance, h, x, k');
      assert false;
    } else if Stores(log, instance, h, x, k) {
      DoubledIsAhead(log, instance, h, x, k', k);
    } else {
      DoubledIsAhead(log, instance, h, x, k, k');
    }
  }

  lemma {:induction false} OnceAhead(log: seq<Logged>, instance: string, h: History)
    returns (x: Logged, k: FactKey, k': FactKey)
    requires Serial(log, instance, h) && CleanStart(log, instance, h) && KeepsRows(h) && !NeverAhead(log, instance, h)
    ensures x in log && k != k' && StoredUnder(log, instance, h, x, k) && StoredUnder(log, instance, h, x, k')
  {
    if !NeverAhead(log, instance, h.before) {
      x, k, k' := OnceAhead(log, instance, h.before);
    } else {
      k :| Ahead(log, instance, h.before.db, h.action.fetchAt, k);
      x, k' := AheadIsDoubled(log, instance, h, k);
    }
  }

  /** The rows of the instance that count the event. */
  ghost function Homes(log: seq<Logged>, instance: string, h: History, x: Logged): set<FactKey> {
    Holding(log, instance, h, Mine(h.db.facts, instance).Keys, x)
  }

  ghost predicate OneHome(log: seq<Logged>, instance: string, h: History, x: Logged) {
    |Homes(log, instance, h, x)| <= 1
  }

  lemma HomeOf(log: seq<Logged>, instance: string, h: History, x: Logged, k: FactKey)
    requires Serial(log, instance, h)
    ensures k in Homes(log, instance, h, x) <==> StoredUnder(log, instance, h, x, k)
  {
    if StoredUnder(log, instance, h, x, k) { StoredHasRow(log, instance, h, x, k); }
  }

  lemma TwoOfThem<T>(s: set<T>) returns (a: T, b: T)
    requires |s| >= 2
    ensures a in s && b in s && a != b
  {
    a := AnyOf(s);
    assert |s - {a}| == |s| - 1;
    b := AnyOf(s - {a});
  }

  lemma SizeOfTwo<T>(s: set<T>, a: T, b: T)
    requires a in s && b in s && a != b
    ensures |s| >= 2
  {
    assert |s - {a}| == |s| - 1;
    assert b in s - {a};
  }

  /** After a success every event has at most one home exactly when no success met a row ahead. */
  lemma OneHomeIffNeverAhead(log: seq<Logged>, instance: string, h: History)
    requires Serial(log, instance, h) && CleanStart(log, instance, h) && KeepsRows(h) && h.Next? && Succeeds(h.action)
    ensures (forall x :: x in log ==> OneHome(log, instance, h, x)) <==> NeverAhead(log, instance, h)
  {
    CleanBeginning(log, instance, h);
    if NeverAhead(log, instance, h) {
      forall x | x in log ensures OneHome(log, instance, h, x) {
        if !OneHome(log, instance, h, x) {
          var k, k' := TwoOfThem(Homes(log, instance, h, x));
          InTwoRows(log, instance, h, x, k, k');
          SettledIsPassed(log, instance, h, x, k);
        }
      }
    } else {
      var x, k, k' := OnceAhead(log, instance, h);
      HomeOf(log, instance, h, x, k);
      HomeOf(log, instance, h, x, k');
      SizeOfTwo(Homes(log, instance, h, x), k, k');
    }
  }

  // ---------- The sums ----------

  lemma OvercountsStep(copies: Metrics, truth: Metrics, exact: bool, n: nat, one: Metrics)
    requires Overcounts(copies, truth, exact) && one.execs == 1 && n >= 1
    ensures Overcounts(Plus(copies, Times(n, one)), Plus(truth, one), exact && n == 1)
  {
    TimesExecs(n, one);
    if n == 1 { assert Times(1, one) == Plus(Times(0, one), one); }
  }

  lemma {:induction false} TimesExecs(n: nat, one: Metrics)
    requires one.execs == 1
    ensures Times(n, one).execs == n
  {
    if n > 0 { TimesExecs(n - 1, one); }
  }

  lemma {:induction false} CopiesOfIngested(part: seq<Logged>, log: seq<Logged>, instance: string, h: History)
    requires forall x :: x in part ==> (Homes(log, instance, h, x) != {} <==> Ingested(h, instance, x))
    ensures Overcounts(SumCopies(part, log, instance, h, Mine(h.db.facts, instance).Keys),
                       TotalIngested(part, instance, h),
                       forall x :: x in part ==> OneHome(log, instance, h, x))
  {
    if part != [] {
      var n := |part| - 1;
      var front, x := part[..n], part[n];
      assert part == front + [x];
      CopiesOfIngested(front, log, instance, h);
      var copies := SumCopies(front, log, instance, h, Mine(h.db.facts, instance).Keys);
      var truth := TotalIngested(front, instance, h);
      var exact := forall y :: y in front ==> OneHome(log, instance, h, y);
      assert (forall y :: y in part ==> OneHome(log, instance, h, y)) == (exact && OneHome(log, instance, h, x));
      if Ingested(h, instance, x) {
        OvercountsStep(copies, truth, exact, |Homes(log, instance, h, x)|, One(x.event));
      } else {
        PlusAssociates(copies, ZERO, ZERO);
      }
    }
  }

  /** After a success the copies are those of the ingested events, each once exactly when no success met a row ahead. */
  lemma CopiesAreIngested(log: seq<Logged>, instance: string, h: History)
    requires Serial(log, instance, h) && CleanStart(log, instance, h) && KeepsRows(h) && h.Next? && Succeeds(h.action)
    ensures Overcounts(SumCopies(log, log, instance, h, Mine(h.db.facts, instance).Keys),
                       TotalIngested(log, instance, h), NeverAhead(log, instance, h))
  {
    CleanBeginning(log, instance, h);
    forall x | x in log ensures Homes(log, instance, h, x) != {} <==> Ingested(h, instance, x) {
      if Homes(log, instance, h, x) != {} {
        var k := AnyOf(Homes(log, instance, h, x));
        StoredIsIngested(log, instance, h, x, k);
        SettledIsPassed(log, instance, h, x, k);
      }
      if Ingested(h, instance, x) {
        var k := IngestedIsStored(log, instance, h, x);
        HomeOf(log, instance, h, x, k);
      }
    }
    CopiesOfIngested(log, log, instance, h);
    OneHomeIffNeverAhead(log, instance, h);
  }

  /** In every successful window, distinct groups carry distinct attribution keys. */
  ghost predicate AlwaysSeparable(log: seq<Logged>, instance: string, h: History) {
    h.Next? ==>
      && AlwaysSeparable(log, instance, h.before)
      && (Succeeds(h.action) ==> Separable(Admitted(log, instance, h)))
  }

  /** Two groups under one key are there by attempts that no success has followed, above the watermark. */
  lemma {:induction false} SharedIsNew(log: seq<Logged>, instance: string, h: History, x: Logged, y: Logged, k: FactKey)
    requires Serial(log, instance, h) && CleanStart(log, instance, h) && AlwaysSeparable(log, instance, h)
    requires x in log && y in log && x.event.who != y.event.who
    requires StoredUnder(log, instance, h, x, k) && StoredUnder(log, instance, h, y, k)
    ensures IsNewer(x.event, MarkOf(h.db, instance)) && IsNewer(y.event, MarkOf(h.db, instance))
  {
    CleanBeginning(log, instance, h);
    WatermarkMoves(log, instance, h);
    StoredHasRow(log, instance, h, x, k);
    StoredHasRow(log, instance, h, y, k);
    if StoredUnder(log, instance, h.before, x, k) && StoredUnder(log, instance, h.before, y, k) {
      SharedIsNew(log, instance, h.before, x, y, k);
      if Succeeds(h.action) {
        AdmittedLater(log, instance, h, x, k);
        AdmittedLater(log, instance, h, y, k);
        AdmittedTogether(log, instance, h, x, y);
      }
    } else {
      StoredWhenWritten(log, instance, h, x, k);
      StoredWhenWritten(log, instance, h, y, k);
      if Succeeds(h.action) { AdmittedTogether(log, instance, h, x, y); }
    }
  }

  lemma AdmittedTogether(log: seq<Logged>, instance: string, h: History, x: Logged, y: Logged)
    requires Serial(log, instance, h) && h.Next? && Succeeds(h.action) && Separable(Admitted(log, instance, h))
    requires x in log && y in log && Code(x.event.who) == Code(y.event.who)
    requires Admits(h.before.db, instance, h.action.fetchAt, x) && Admits(h.before.db, instance, h.action.fetchAt, y)
    ensures x.event.who == y.event.who
  {
    var k := SuccessStores(log, instance, h, x);
    var k' := SuccessStores(log, instance, h, y);
    SeparableWhos(Admitted(log, instance, h), x.event, y.event);
  }

  lemma {:induction false} InseparableIsShared(log: seq<Logged>, instance: string, h: History)
    returns (x: Logged, y: Logged, k: FactKey)
    requires Serial(log, instance, h) && KeepsRows(h) && !AlwaysSeparable(log, instance, h)
    ensures x in log && y in log && x.event.who != y.event.who
    ensures StoredUnder(log, instance, h, x, k) && StoredUnder(log, instance, h, y, k)
  {
    if !AlwaysSeparable(log, instance, h.before) {
      x, y, k := InseparableIsShared(log, instance, h.before);
    } else {
      var events := Admitted(log, instance, h);
      var a, b :| a in Whos(events) && b in Whos(events) && Code(a) == Code(b) && a != b;
      var i :| 0 <= i < |events| && events[i].who == a;
      var j :| 0 <= j < |events| && events[j].who == b;
      x := InLog(log, MarkOf(h.before.db, instance), h.action.fetchAt, events[i]);
      y := InLog(log, MarkOf(h.before.db, instance), h.action.fetchAt, events[j]);
      k := SuccessStores(log, instance, h, x);
      var k' := SuccessStores(log, instance, h, y);
    }
  }

  /** After a success no key is shared exactly when every successful window was separable. */
  lemma NoneSharedIffSeparable(log: seq<Logged>, instance: string, h: History)
    requires Serial(log, instance, h) && CleanStart(log, instance, h) && KeepsRows(h) && h.Next? && Succeeds(h.action)
    ensures NoneShared(log, instance, h, Mine(h.db.facts, instance).Keys) <==> AlwaysSeparable(log, instance, h)
  {
    CleanBeginning(log, instance, h);
    if AlwaysSeparable(log, instance, h) {
      forall k, x, y | x in log && y in log
                       && StoredUnder(log, instance, h, x, k) && StoredUnder(log, instance, h, y, k)
        ensures x.event.who == y.event.who
      {
        if x.event.who != y.event.who {
          SharedIsNew(log, instance, h, x, y, k);
          SettledIsPassed(log, instance, h, x, k);
        }
      }
    } else {
      var x, y, k := InseparableIsShared(log, instance, h);
      StoredHasRow(log, instance, h, x, k);
    }
  }

  /**
   End to end, after every success: if no success met a row ahead, the instance's rows add up to exactly the ingested
   events if no two groups of one window shared an attribution key, and executions are missing exactly when two did.
   */
  lemma EndToEnd(log: seq<Logged>, instance: string, h: History)
    requires Serial(log, instance, h) && CleanStart(log, instance, h) && KeepsRows(h) && h.Next? && Succeeds(h.action)
    requires NeverAhead(log, instance, h)
    ensures Accounts(SumTable(Mine(h.db.facts, instance)), TotalIngested(log, instance, h),
                     AlwaysSeparable(log, instance, h))
  {
    TableAccounts(log, instance, h);
    CopiesAreIngested(log, instance, h);
    NoneSharedIffSeparable(log, instance, h);
  }

  /**
   As long as groups have keys of their own, the sums are exact if and only if no success met a row ahead; otherwise
   executions are counted twice.
   */
  lemma ExactIffNeverAhead(log: seq<Logged>, instance: string, h: History)
    requires Serial(log, instance, h) && CleanStart(log, instance, h) && KeepsRows(h) && h.Next? && Succeeds(h.action)
    requires AlwaysSeparable(log, instance, h)
    ensures Overcounts(SumTable(Mine(h.db.facts, instance)), TotalIngested(log, instance, h),
                       NeverAhead(log, instance, h))
  {
    TableAccounts(log, instance, h);
    CopiesAreIngested(log, instance, h);
    NoneSharedIffSeparable(log, instance, h);
  }

  /** For a log whose fields are present and free of bars, they are exact if and only if no success met a row ahead. */
  lemma BarFreeLogAccounted(log: seq<Logged>, instance: string, h: History)
    requires Serial(log, instance, h) && CleanStart(log, instance, h) && KeepsRows(h) && h.Next? && Succeeds(h.action)
    requires forall x :: x in log ==> BarFree(x.event.who) && NonNull(x.event.who)
    ensures SumTable(Mine(h.db.facts, instance)) == TotalIngested(log, instance, h) <==> NeverAhead(log, instance, h)
  {
    BarFreeLogSeparable(log, instance, h);
    ExactIffNeverAhead(log, instance, h);
  }

  lemma {:induction false} BarFreeLogSeparable(log: seq<Logged>, instance: string, h: History)
    requires forall x :: x in log ==> BarFree(x.event.who) && NonNull(x.event.who)
    ensures AlwaysSeparable(log, instance, h)
  {
    if h.Next? {
      BarFreeLogSeparable(log, instance, h.before);
      if Succeeds(h.action) {
        NewerMembers(Fetched(log, h.action.fetchAt), MarkOf(h.before.db, instance));
        FetchedMembers(log, h.action.fetchAt);
        BarFreeSeparable(Admitted(log, instance, h));
      }
    }
  }

  // ---------- What attempts have changed ----------

  /** Unsuccessful attempts may add rows to what the last success left and change numbers, but no attribution. */
  lemma {:induction false} SettledStays(log: seq<Logged>, instance: string, h: History, k: FactKey)
    requires Serial(log, instance, h) && k in Settled(h, instance)
    ensures k in Mine(h.db.facts, instance) && Mine(h.db.facts, instance)[k].fixed == Settled(h, instance)[k].fixed
  {
    if h.Next? && !Succeeds(h.action) {
      SettledStays(log, instance, h.before, k);
      match h.action {
        case Run(_, _) =>
          RunWrites(log, instance, h);
          UpsertAllAt(Mine(h.before.db.facts, instance), Committed(log, instance, h), k);
        case PurgeFacts(_, keys) => MineLess(h.before.db.facts, keys, instance);
        case _ =>
      }
    }
  }

  /** The attempts since the last success have changed the row. */
  ghost predicate Changed(instance: string, h: History, k: FactKey) {
    !SameRow(Mine(h.db.facts, instance), Settled(h, instance), k)
  }

  lemma ChangedHasRow(log: seq<Logged>, instance: string, h: History, k: FactKey)
    requires Serial(log, instance, h) && Changed(instance, h, k)
    ensures k in Mine(h.db.facts, instance)
  {
    if k in Settled(h, instance) { SettledStays(log, instance, h, k); }
  }

  /** A row of the batch is the same over the attempts' leftovers and without them. */
  lemma RenewedRow(log: seq<Logged>, instance: string, h: History, k: FactKey)
    requires Serial(log, instance, h) && CleanStart(log, instance, h) && h.Next? && Succeeds(h.action)
    requires Separable(Admitted(log, instance, h))
    requires k in KeysOf(RowsAt(log, instance, h.before.db, h.action.fetchAt))
    ensures
      var batch := RowsAt(log, instance, h.before.db, h.action.fetchAt);
      SameRow(UpsertAll(Mine(h.before.db.facts, instance), batch), UpsertAll(Settled(h.before, instance), batch), k)
  {
    var w, f := MarkOf(h.before.db, instance), h.action.fetchAt;
    var batch := RowsAt(log, instance, h.before.db, f);
    var t, s := Mine(h.before.db.facts, instance), Settled(h.before, instance);
    UpsertAllAt(t, batch, k);
    UpsertAllAt(s, batch, k);
    UpsertAllKeys(map[], batch);
    UpsertAllAt(map[], batch, k);
    var r := batch[FirstAt(batch, k)];
    assert r in batch;
    RowsBelong(instance, w, Fetched(log, f));
    RowOfGroup(instance, w, Fetched(log, f), r);
    if k in s {
      SettledStays(log, instance, h.before, k);
    } else if k in t {
      WindowRenewed(log, instance, h, k);
      var d :| d in Admitted(log, instance, h) && Code(d.who) == k.code && d.who == h.before.db.facts[k].fixed;
      var e :| e in Admitted(log, instance, h) && e.who == r.fixed;
      SeparableWhos(Admitted(log, instance, h), d, e);
    }
  }

  /**
   Failure erasure over any purges: a success whose groups are separable leaves no trace of the attempts before it if
   and only if every row they have changed lies in the window that it writes.
   */
  lemma ErasedIffInWindow(log: seq<Logged>, instance: string, h: History)
    requires Serial(log, instance, h) && CleanStart(log, instance, h) && h.Next? && Succeeds(h.action)
    requires Separable(Admitted(log, instance, h))
    ensures Mine(h.db.facts, instance)
         == UpsertAll(Settled(h.before, instance), RowsAt(log, instance, h.before.db, h.action.fetchAt))
         <==> forall k :: Changed(instance, h.before, k) ==>
                Admitted(log, instance, h) != [] && k.window == WindowWritten(log, instance, h)
  {
    var batch := RowsAt(log, instance, h.before.db, h.action.fetchAt);
    var a, b := UpsertAll(Mine(h.before.db.facts, instance), batch), UpsertAll(Settled(h.before, instance), batch);
    SuccessMerges(log, instance, h);
    RowsBelong(instance, MarkOf(h.before.db, instance), Fetched(log, h.action.fetchAt));
    forall k ensures SameRow(a, b, k) <==> !Changed(instance, h.before, k) || k in KeysOf(batch) {
      RowAfterBatch(log, instance, h, k);
    }
    forall k | Changed(instance, h.before, k) && Admitted(log, instance, h) != []
               && k.window == WindowWritten(log, instance, h)
      ensures k in KeysOf(batch)
    {
      ChangedHasRow(log, instance, h.before, k);
      WindowRenewed(log, instance, h, k);
    }
    if forall k :: Changed(instance, h.before, k) ==> k in KeysOf(batch) {
      SameRows(a, b);
    }
  }

  lemma RowAfterBatch(log: seq<Logged>, instance: string, h: History, k: FactKey)
    requires Serial(log, instance, h) && CleanStart(log, instance, h) && h.Next? && Succeeds(h.action)
    requires Separable(Admitted(log, instance, h))
    ensures
      var batch := RowsAt(log, instance, h.before.db, h.action.fetchAt);
      SameRow(UpsertAll(Mine(h.before.db.facts, instance), batch), UpsertAll(Settled(h.before, instance), batch), k)
      <==> !Changed(instance, h.before, k) || k in KeysOf(batch)
  {
    var batch := RowsAt(log, instance, h.before.db, h.action.fetchAt);
    if k in KeysOf(batch) {
      RenewedRow(log, instance, h, k);
    } else {
      NotInBatch(Mine(h.before.db.facts, instance), batch, k);
      NotInBatch(Settled(h.before, instance), batch, k);
    }
  }

  // ---------- Windows of successes ----------

  /** Some success stored the event under the key, and no purge has taken that row since. */
  ghost predicate StoredBySuccess(log: seq<Logged>, instance: string, h: History, x: Logged, k: FactKey) {
    match h
    case Begin(_, _) => false
    case Next(before, Run(_, _), _) =>
      (Succeeds(h.action) && Stores(log, instance, h, x, k)) || StoredBySuccess(log, instance, before, x, k)
    case Next(before, PurgeFacts(_, keys), _) => k !in keys && StoredBySuccess(log, instance, before, x, k)
    case Next(before, _, _) => StoredBySuccess(log, instance, before, x, k)
  }

  /** What attempts that agree with a read at `f` have stored lies in the window that it opens. */
  lemma {:induction false} AgreeingStores(log: seq<Logged>, instance: string, h: History, x: Logged, k: FactKey,
                                          w: Option<int>, f: int)
    requires Serial(log, instance, h) && CleanStart(log, instance, h) && AlwaysAgree(log, instance, h) && x in log
    requires AttemptsAgree(log, instance, h, w, f) && StoredUnder(log, instance, h, x, k)
    ensures StoredBySuccess(log, instance, h, x, k) || OpensWindow(log, w, f, k.window)
    decreases h, 1
  {
    if h.action.Run? && Stores(log, instance, h, x, k) {
      OwnWindow(log, instance, h, x, k);
    } else if Succeeds(h.action) {
      StoresOfSuccess(log, instance, h, x, k);
    } else {
      AgreeingStores(log, instance, h.before, x, k, w, f);
    }
  }

  /** With attempts that agree, what is stored after a success was stored by successes. */
  lemma {:induction false} StoresOfSuccess(log: seq<Logged>, instance: string, h: History, x: Logged, k: FactKey)
    requires Serial(log, instance, h) && CleanStart(log, instance, h) && AlwaysAgree(log, instance, h) && x in log
    requires h.Next? && Succeeds(h.action)
    ensures StoredUnder(log, instance, h, x, k) <==> StoredBySuccess(log, instance, h, x, k)
    decreases h, 0
  {
    if StoredUnder(log, instance, h.before, x, k) {
      AgreeingStores(log, instance, h.before, x, k, MarkOf(h.before.db, instance), h.action.fetchAt);
      CleanBeginning(log, instance, h);
      Readmitted(log, instance, h.before, h.action.fetchAt, x, k);
      StoredHasRow(log, instance, h.before, x, k);
      if !StoredBySuccess(log, instance, h.before, x, k) {
        var q := SuccessStores(log, instance, h, x);
        OwnWindow(log, instance, h, x, q);
      }
    }
    if StoredBySuccess(log, instance, h, x, k) { BySuccessIsStored(log, instance, h, x, k); }
  }

  lemma {:induction false} BySuccessIsStored(log: seq<Logged>, instance: string, h: History, x: Logged, k: FactKey)
    requires StoredBySuccess(log, instance, h, x, k)
    ensures StoredUnder(log, instance, h, x, k)
  {
    if StoredBySuccess(log, instance, h.before, x, k) { BySuccessIsStored(log, instance, h.before, x, k); }
  }

  // ---------- With the newest success kept ----------

  /** No row lies ahead of a watermark that purges leave alone. */
  lemma {:induction false} RowsUpToMark(log: seq<Logged>, instance: string, h: History)
    requires Serial(log, instance, h) && KeepsNewest(h, instance) && CleanStart(log, instance, h)
    requires MarkOf(h.db, instance).Some?
    ensures forall k :: k in Mine(h.db.facts, instance) ==> k.window <= MarkOf(h.db, instance).value
  {
    WatermarkMoves(log, instance, h);
    if Succeeds(h.action) {
      RowsOfThePast(log, instance, h);
    } else {
      RowsUpToMark(log, instance, h.before);
      match h.action {
        case Run(_, _) =>
          RunWrites(log, instance, h);
          UpsertAllKeys(Mine(h.before.db.facts, instance), Committed(log, instance, h));
        case PurgeFacts(_, keys) => MineLess(h.before.db.facts, keys, instance);
        case _ =>
      }
    }
  }

  /** Before the first success, attempts that agree with a read have written only the window it opens. */
  lemma {:induction false} AgreeingRows(log: seq<Logged>, instance: string, h: History, f: int)
    requires Serial(log, instance, h) && KeepsNewest(h, instance) && CleanStart(log, instance, h)
    requires MarkOf(h.db, instance).None? && AttemptsAgree(log, instance, h, None, f)
    ensures forall k :: k in Mine(h.db.facts, instance) ==> OldestOf(Fetched(log, f)) == Some(k.window)
  {
    if h.Next? {
      WatermarkMoves(log, instance, h);
      AgreeingRows(log, instance, h.before, f);
      match h.action {
        case Run(g, _) =>
          RunWrites(log, instance, h);
          NewerThanNothing(Fetched(log, g));
          UpsertAllKeys(Mine(h.before.db.facts, instance), Committed(log, instance, h));
        case PurgeFacts(_, keys) => MineLess(h.before.db.facts, keys, instance);
        case _ =>
      }
    }
  }

  /** As long as purges keep the newest success and the rows, a success meets a row ahead unless the attempts agree. */
  lemma AgreesIffNotAhead(log: seq<Logged>, instance: string, h: History)
    requires Serial(log, instance, h) && KeepsNewest(h, instance) && KeepsRows(h) && CleanStart(log, instance, h)
    requires h.Next? && Succeeds(h.action)
    ensures SuccessAgrees(log, instance, h) <==> !RowsAhead(log, instance, h.before.db, h.action.fetchAt)
  {
    var w, f := MarkOf(h.before.db, instance), h.action.fetchAt;
    if w.Some? {
      RowsUpToMark(log, instance, h.before);
      WatermarkedAttemptsAgree(log, instance, h.before, f);
    } else if SuccessAgrees(log, instance, h) {
      AgreeingRows(log, instance, h.before, f);
    } else {
      var k := StaleRow(log, instance, h.before, w, f);
      assert Ahead(log, instance, h.before.db, f, k);
    }
  }

  lemma {:induction false} AlwaysAgreeIffNeverAhead(log: seq<Logged>, instance: string, h: History)
    requires Serial(log, instance, h) && KeepsNewest(h, instance) && KeepsRows(h) && CleanStart(log, instance, h)
    ensures AlwaysAgree(log, instance, h) <==> NeverAhead(log, instance, h)
  {
    if h.Next? {
      AlwaysAgreeIffNeverAhead(log, instance, h.before);
      if Succeeds(h.action) { AgreesIffNotAhead(log, instance, h); }
    }
  }
}
