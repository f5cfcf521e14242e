/** Concrete histories that show the exceptions in the accounting really occur. */
module Counterexamples {
  import opened Common
  import opened Attribution
  import opened Merge
  import opened WorkloadMetrics
  import opened Workload
  import opened Repository
  import opened Collector
  import opened WorkloadCollection
  import opened History
  import opened Erasure
  import opened Ingestion

  const INSTANCE := "PROD-SQL-01"
  const WHO := Who(Some("svc"), Some("App"), Some("HOST"), Some("Db"))

  function At(time: int): Event {
    Event(time, WHO, 1, 1, 1, 1, 1)
  }

  function SuccessAt(startAt: int, rows: nat): Trace {
    Trace(INSTANCE, TASK, startAt, startAt + 1, "", MarkedSuccess, rows)
  }

  /** A success of `h` extended by one more. */
  function Extend(log: seq<Logged>, h: History, fetchAt: int, startAt: int): History {
    var rows := RowsAt(log, INSTANCE, h.db, fetchAt);
    var t := SuccessAt(startAt, |rows|);
    Next(h, Run(fetchAt, t), RunEffect(h.db, t, rows))
  }

  const EMPTY: History := Begin(Db(map[], 0, map[]), 0)

  lemma ExtendIsSerial(log: seq<Logged>, h: History, fetchAt: int, startAt: int)
    requires Serial(log, INSTANCE, h) && Clock(h) <= fetchAt < startAt
    ensures var h' := Extend(log, h, fetchAt, startAt);
            && Serial(log, INSTANCE, h') && Succeeds(h'.action)
            && (KeepsNewest(h, INSTANCE) ==> KeepsNewest(h', INSTANCE))
            && MarkOf(h'.db, INSTANCE) == Some(startAt) && Clock(h') == startAt
    ensures (forall id :: id in h.db.runs ==> h.db.runs[id].startedAt <= startAt) ==>
              var h' := Extend(log, h, fetchAt, startAt);
              forall id :: id in h'.db.runs ==> h'.db.runs[id].startedAt <= startAt
  {
    var h' := Extend(log, h, fetchAt, startAt);
    WatermarkMoves(log, INSTANCE, h');
    NoRunAhead(log, INSTANCE, h);
    RunLeaves(h.db, h'.action.trace, RowsAt(log, INSTANCE, h.db, fetchAt));
  }

  lemma EmptyIsSerial(log: seq<Logged>)
    ensures Serial(log, INSTANCE, EMPTY) && KeepsNewest(EMPTY, INSTANCE) && MarkOf(EMPTY.db, INSTANCE) == None
    ensures Mine(EMPTY.db.facts, INSTANCE) == map[]
  {
  }

  /** An event dispatched between a fetch and the start that becomes the watermark is never aggregated. */
  lemma AnEventIsLost() returns (log: seq<Logged>, h: History, e: Logged)
    ensures Serial(log, INSTANCE, h) && KeepsNewest(h, INSTANCE) && CleanStart(log, INSTANCE, h)
    ensures e in log && Seen(h, e) && Lost(h, e) && TimesIngested(h, INSTANCE, e) == 0
  {
    e := Logged(At(5), 7);
    log := [e];
    EmptyIsSerial(log);
    var first := Extend(log, EMPTY, 6, 8);
    ExtendIsSerial(log, EMPTY, 6, 8);
    h := Extend(log, first, 10, 12);
    ExtendIsSerial(log, first, 10, 12);
    assert Lost(first, e);
    KeepingNewestReopensNothing(h, INSTANCE, e);
    ExactAccounting(log, INSTANCE, h, e);
  }

  // ---------- Tables of one group ----------

  function RowFor(window: int, events: seq<Event>): FactRow {
    Row(FactKey(INSTANCE, window, Code(WHO)), WHO, Total(events))
  }

  ghost predicate OneGroup(events: seq<Event>) {
    forall e :: e in events ==> e.who == WHO
  }

  lemma {:induction false} TotalOfOneGroup(events: seq<Event>)
    requires OneGroup(events)
    ensures TotalOf(events, WHO) == Total(events)
    ensures FirstOccurrences(Whos(events)) == if events == [] then [] else [WHO]
  {
    if events != [] {
      var n := |events| - 1;
      assert events[n] in events && Whos(events) == Whos(events[..n]) + [WHO];
      TotalOfOneGroup(events[..n]);
      FirstOccurrencesSnoc(Whos(events[..n]), WHO);
    }
  }

  lemma OneRow(w: Option<int>, fetched: seq<Event>)
    requires OneGroup(fetched) && Newer(fetched, w) != []
    ensures var events := Newer(fetched, w);
            RowsOf(INSTANCE, w, fetched) == [RowFor(WindowStart(events, w), events)]
  {
    NewerMembers(fetched, w);
    TotalOfOneGroup(Newer(fetched, w));
  }

  ghost predicate OneGroupLog(log: seq<Logged>) {
    forall x :: x in log ==> x.event.who == WHO && x.event.time <= x.visibleAt
  }

  lemma OneRowAt(log: seq<Logged>, h: History, fetchAt: int, events: seq<Event>)
    requires OneGroupLog(log) && events == Newer(Fetched(log, fetchAt), MarkOf(h.db, INSTANCE)) && events != []
    ensures RowsAt(log, INSTANCE, h.db, fetchAt) == [RowFor(WindowStart(events, MarkOf(h.db, INSTANCE)), events)]
  {
    FetchedMembers(log, fetchAt);
    OneRow(MarkOf(h.db, INSTANCE), Fetched(log, fetchAt));
  }

  lemma Upserted(t: Facts, r: FactRow)
    ensures UpsertAll(t, [r]) == Upsert(t, r)
  {
    assert [r][..0] == [];
    assert UpsertAll(t, []) == t;
  }

  // ---------- Steps ----------

  /** What is known of a history: its watermark, its clock and the instance's rows. */
  ghost predicate Reached(log: seq<Logged>, h: History, w: Option<int>, clock: int, t: Facts) {
    && Serial(log, INSTANCE, h) && CleanStart(log, INSTANCE, h) && OneGroupLog(log)
    && MarkOf(h.db, INSTANCE) == w && Clock(h) == clock && Mine(h.db.facts, INSTANCE) == t
    && forall id :: id in h.db.runs ==> h.db.runs[id].startedAt <= clock
  }

  /** Everything visible by then has been ingested. */
  ghost predicate SeenUpTo(h: History, f: int) {
    forall x: Logged :: x.visibleAt <= f ==> Ingested(h, INSTANCE, x)
  }

  lemma AtTheBeginning(log: seq<Logged>)
    requires OneGroupLog(log)
    ensures Reached(log, EMPTY, None, 0, map[]) && KeepsNewest(EMPTY, INSTANCE)
  {
    EmptyIsSerial(log);
  }

  lemma Succeed(log: seq<Logged>, h: History, w: Option<int>, clock: int, t: Facts, fetchAt: int, startAt: int,
                events: seq<Event>)
    returns (h': History)
    requires Reached(log, h, w, clock, t) && clock <= fetchAt < startAt
    requires events == Newer(Fetched(log, fetchAt), w) && events != []
    ensures Reached(log, h', Some(startAt), startAt, Upsert(t, RowFor(WindowStart(events, w), events)))
    ensures h'.Next? && Succeeds(h'.action) && (KeepsNewest(h, INSTANCE) ==> KeepsNewest(h', INSTANCE))
    ensures w.None? ==> SeenUpTo(h', fetchAt)
    ensures forall x :: TimesIngested(h', INSTANCE, x) == TimesIngested(h, INSTANCE, x)
                        + if x.visibleAt <= fetchAt && IsNewer(x.event, w) then 1 else 0
  {
    h' := Extend(log, h, fetchAt, startAt);
    ExtendIsSerial(log, h, fetchAt, startAt);
    SuccessMerges(log, INSTANCE, h');
    OneRowAt(log, h, fetchAt, events);
    Upserted(t, RowFor(WindowStart(events, w), events));
  }

  /** A run that fails after having committed all of its rows. */
  lemma Fail(log: seq<Logged>, h: History, w: Option<int>, clock: int, t: Facts, fetchAt: int, startAt: int,
             events: seq<Event>)
    returns (h': History)
    requires Reached(log, h, w, clock, t) && clock <= fetchAt < startAt
    requires events == Newer(Fetched(log, fetchAt), w) && events != []
    ensures Reached(log, h', w, startAt, Upsert(t, RowFor(WindowStart(events, w), events)))
    ensures h'.Next? && h'.action.Run? && (KeepsNewest(h, INSTANCE) ==> KeepsNewest(h', INSTANCE))
  {
    var rows := RowsAt(log, INSTANCE, h.db, fetchAt);
    var trace := Trace(INSTANCE, TASK, startAt, startAt + 1, "", MarkedFailed, |rows|);
    h' := Next(h, Run(fetchAt, trace), RunEffect(h.db, trace, rows));
    WatermarkMoves(log, INSTANCE, h');
    NoRunAhead(log, INSTANCE, h);
    RunLeaves(h.db, trace, rows);
    RowsBelong(INSTANCE, w, Fetched(log, fetchAt));
    RunAddsMine(INSTANCE, h.db, trace, rows);
    assert rows[..|rows|] == rows;
    OneRowAt(log, h, fetchAt, events);
    Upserted(t, RowFor(WindowStart(events, w), events));
  }

  /** A purge of every run. */
  lemma Purge(log: seq<Logged>, h: History, w: Option<int>, clock: int, t: Facts, cutoff: int) returns (h': History)
    requires Reached(log, h, w, clock, t) && clock < cutoff
    ensures Reached(log, h', None, clock, t) && h'.Next?
    ensures forall x :: TimesIngested(h', INSTANCE, x) == TimesIngested(h, INSTANCE, x)
  {
    h' := Next(h, PurgeRuns(cutoff, h.db.runs.Keys), h.db.(runs := map[]));
    assert h.db.runs - h.db.runs.Keys == map[];
  }

  lemma SumOfRow(t: Facts, window: int, events: seq<Event>)
    ensures
      var r := RowFor(window, events);
      && (r.key !in t ==> SumTable(Upsert(t, r)).execs == SumTable(t).execs + |events|)
      && (r.key in t ==> SumTable(Upsert(t, r)).execs == SumTable(t).execs + |events| - t[r.key].measured.execs)
      && Upsert(t, r)[r.key].measured.execs == |events|
  {
    SumUpsert(t, RowFor(window, events));
    TotalCountsEvents(events);
  }

  lemma OneEvent(log: seq<Logged>, f: int, w: Option<int>)
    requires |log| == 1 && log[0].visibleAt <= f && IsNewer(log[0].event, w)
    ensures Newer(Fetched(log, f), w) == [log[0].event]
  {
    assert log[..0] == [];
    NewerOne([log[0].event], w);
    assert Fetched(log, f) == [log[0].event];
  }

  lemma TwoEvents(log: seq<Logged>, f: int, w: Option<int>)
    requires |log| == 2 && log[0].visibleAt <= f
    ensures
      var a, b := log[0].event, log[1].event;
      var later := if log[1].visibleAt <= f && IsNewer(b, w) then [b] else [];
      Newer(Fetched(log, f), w) == (if IsNewer(a, w) then [a] else []) + later
  {
    var front := [log[0].event];
    var back := if log[1].visibleAt <= f then [log[1].event] else [];
    assert log[..1][..0] == [];
    assert Fetched(log[..1], f) == front;
    assert Fetched(log, f) == front + back;
    NewerDivides(front, back, w);
    NewerOne(front, w);
    NewerOne(back, w);
  }

  lemma ReadFirst(log: seq<Logged>, f: int, w: Option<int>)
    requires |log| == 2 && log[0].visibleAt <= f < log[1].visibleAt && IsNewer(log[0].event, w)
    ensures Newer(Fetched(log, f), w) == [log[0].event]
  {
    TwoEvents(log, f, w);
  }

  lemma ReadSecond(log: seq<Logged>, f: int, w: Option<int>)
    requires |log| == 2 && log[0].visibleAt <= f && log[1].visibleAt <= f
    requires !IsNewer(log[0].event, w) && IsNewer(log[1].event, w)
    ensures Newer(Fetched(log, f), w) == [log[1].event]
  {
    TwoEvents(log, f, w);
  }

  lemma ReadBoth(log: seq<Logged>, f: int, w: Option<int>)
    requires |log| == 2 && log[0].visibleAt <= f && log[1].visibleAt <= f
    requires IsNewer(log[0].event, w) && IsNewer(log[1].event, w)
    ensures Newer(Fetched(log, f), w) == [log[0].event, log[1].event]
  {
    TwoEvents(log, f, w);
  }

  lemma NewerOne(events: seq<Event>, w: Option<int>)
    requires |events| <= 1
    ensures Newer(events, w) == if events != [] && IsNewer(events[0], w) then events else []
  {
    if events != [] { assert events[..0] == [] && events == [events[0]]; }
  }

  lemma AllIngested(log: seq<Logged>, h: History)
    requires forall x :: x in log ==> Ingested(h, INSTANCE, x)
    ensures TotalIngested(log, INSTANCE, h).execs == |log|
  {
    if log != [] {
      assert log[|log| - 1] in log;
      AllIngested(log[..|log| - 1], h);
    }
  }

  lemma OneGroupPair(log: seq<Logged>)
    requires |log| == 2 && log[0].event.who == WHO && log[1].event.who == WHO
    requires log[0].event.time <= log[0].visibleAt && log[1].event.time <= log[1].visibleAt
    ensures OneGroupLog(log)
  {
    forall x | x in log ensures x == log[0] || x == log[1] {
    }
  }

  lemma BothIngested(log: seq<Logged>, h: History, f: int)
    requires |log| == 2 && log[0].visibleAt <= f && log[1].visibleAt <= f
    requires SeenUpTo(h, f)
    ensures TotalIngested(log, INSTANCE, h).execs == 2
  {
    AllIngested(log, h);
  }

  lemma Pair(a: Logged, b: Logged) returns (log: seq<Logged>)
    ensures |log| == 2 && log[0] == a && log[1] == b
  {
    log := [a, b];
  }

  // ---------- A failed attempt ----------

  lemma OldestOfTwo(a: Event, b: Event)
    ensures MinTime([a, b]) == if b.time < a.time then b.time else a.time
    ensures MinTime([a]) == a.time
  {
    assert [a, b][..1] == [a];
  }

  /** Two windows, one row each. */
  lemma TwoRows(early: seq<Event>, window: int, late: seq<Event>, window': int)
    requires window != window'
    ensures SumTable(Upsert(Upsert(map[], RowFor(window, early)), RowFor(window', late))).execs == |early| + |late|
  {
    SumOfRow(map[], window, early);
    SumOfRow(Upsert(map[], RowFor(window, early)), window', late);
  }

  lemma FailedOnce(log: seq<Logged>, early: seq<Event>, late: seq<Event>) returns (failed: History, t: Facts)
    requires OneGroupLog(log) && early != [] && late != [] && MinTime(early) != MinTime(late)
    requires Newer(Fetched(log, 7), None) == early
    ensures Reached(log, failed, None, 8, t) && KeepsNewest(failed, INSTANCE)
    ensures SumTable(Upsert(t, RowFor(MinTime(late), late))).execs == |early| + |late|
  {
    AtTheBeginning(log);
    t := Upsert(map[], RowFor(MinTime(early), early));
    failed := Fail(log, EMPTY, None, 0, map[], 7, 8, early);
    TwoRows(early, MinTime(early), late, MinTime(late));
  }

  lemma FailThenSucceed(log: seq<Logged>, early: seq<Event>, late: seq<Event>) returns (h: History)
    requires OneGroupLog(log) && early != [] && late != [] && MinTime(early) != MinTime(late)
    requires Newer(Fetched(log, 7), None) == early && Newer(Fetched(log, 9), None) == late
    ensures Serial(log, INSTANCE, h) && KeepsNewest(h, INSTANCE) && CleanStart(log, INSTANCE, h)
    ensures h.Next? && Succeeds(h.action)
    ensures SumTable(Mine(h.db.facts, INSTANCE)).execs == |early| + |late|
    ensures SeenUpTo(h, 9)
  {
    var failed, t := FailedOnce(log, early, late);
    h := Succeed(log, failed, None, 8, t, 9, 10, late);
  }

  lemma ReadsAroundAnOlderEvent(log: seq<Logged>, a: Logged, b: Logged) returns (early: seq<Event>, late: seq<Event>)
    requires |log| == 2 && log[0] == a && log[1] == b
    requires a.visibleAt <= 7 < b.visibleAt <= 9 && b.event.time < a.event.time
    ensures early == Newer(Fetched(log, 7), None) && |early| == 1
    ensures late == Newer(Fetched(log, 9), None) && |late| == 2 && MinTime(late) < MinTime(early)
  {
    ReadFirst(log, 7, None);
    ReadBoth(log, 9, None);
    OldestOfTwo(a.event, b.event);
    early, late := Newer(Fetched(log, 7), None), Newer(Fetched(log, 9), None);
  }

  /** For any two events of a group, the older one visible only after the attempt. */
  lemma AnOlderEventAppears(log: seq<Logged>, a: Logged, b: Logged) returns (h: History)
    requires |log| == 2 && log[0] == a && log[1] == b
    requires a.event.who == b.event.who == WHO && a.visibleAt <= 7 < b.visibleAt <= 9
    requires b.event.time < a.event.time <= a.visibleAt
    ensures Serial(log, INSTANCE, h) && KeepsNewest(h, INSTANCE) && CleanStart(log, INSTANCE, h)
    ensures h.Next? && Succeeds(h.action)
    ensures SumTable(Mine(h.db.facts, INSTANCE)).execs == 3 && TotalIngested(log, INSTANCE, h).execs == 2
  {
    OneGroupPair(log);
    var early, late := ReadsAroundAnOlderEvent(log, a, b);
    h := FailThenSucceed(log, early, late);
    BothIngested(log, h, 9);
  }

  /**
   Before the first success, an older event that shows up after a failed attempt makes two executions three: the
   attempt keeps its window and the success opens another.
   */
  lemma AnExecutionIsCountedTwice() returns (log: seq<Logged>, h: History)
    ensures Serial(log, INSTANCE, h) && KeepsNewest(h, INSTANCE) && CleanStart(log, INSTANCE, h)
    ensures h.Next? && Succeeds(h.action)
    ensures SumTable(Mine(h.db.facts, INSTANCE)).execs == 3 && TotalIngested(log, INSTANCE, h).execs == 2
  {
    log := Pair(Logged(At(5), 6), Logged(At(3), 8));
    h := AnOlderEventAppears(log, log[0], log[1]);
  }

  // ---------- A purge of the newest success ----------

  lemma TheSameRowAgain(log: seq<Logged>, e: Logged) returns (h: History)
    requires |log| == 1 && log[0] == e && e.event.who == WHO && e.event.time <= e.visibleAt <= 6
    ensures Serial(log, INSTANCE, h) && CleanStart(log, INSTANCE, h) && h.Next? && Succeeds(h.action)
    ensures e in log && TimesIngested(h, INSTANCE, e) == 2
    ensures SumTable(Mine(h.db.facts, INSTANCE)).execs == 1 && TotalIngested(log, INSTANCE, h).execs == 1
  {
    var events := ReadsOfOne(log, e);
    h := OnceThenAgain(log, events);
    OneIngested(log, h, 6);
  }

  lemma ReadsOfOne(log: seq<Logged>, e: Logged) returns (events: seq<Event>)
    requires |log| == 1 && log[0] == e && e.event.who == WHO && e.event.time <= e.visibleAt <= 6
    ensures OneGroupLog(log) && |events| == 1
    ensures events == Newer(Fetched(log, 6), None) && events == Newer(Fetched(log, 20), None)
  {
    OneEvent(log, 6, None);
    OneEvent(log, 20, None);
    events := Newer(Fetched(log, 6), None);
    forall x | x in log ensures x == log[0] {
    }
  }

  lemma OneIngested(log: seq<Logged>, h: History, f: int)
    requires |log| == 1 && log[0].visibleAt <= f
    requires forall x: Logged :: x.visibleAt <= f ==> TimesIngested(h, INSTANCE, x) == 2
    ensures TotalIngested(log, INSTANCE, h).execs == 1
  {
    forall x | x in log ensures Ingested(h, INSTANCE, x) {
      assert x == log[0];
    }
    AllIngested(log, h);
  }

  lemma OnceThenAgain(log: seq<Logged>, events: seq<Event>) returns (h: History)
    requires OneGroupLog(log) && events != []
    requires Newer(Fetched(log, 6), None) == events && Newer(Fetched(log, 20), None) == events
    ensures Serial(log, INSTANCE, h) && CleanStart(log, INSTANCE, h) && h.Next? && Succeeds(h.action)
    ensures SumTable(Mine(h.db.facts, INSTANCE)).execs == |events|
    ensures forall x: Logged :: x.visibleAt <= 6 ==> TimesIngested(h, INSTANCE, x) == 2
  {
    var window := MinTime(events);
    var t := Upsert(map[], RowFor(window, events));
    AtTheBeginning(log);
    var first := Succeed(log, EMPTY, None, 0, map[], 6, 8, events);
    var purged := Purge(log, first, Some(8), 8, t, 20);
    h := Succeed(log, purged, None, 8, t, 20, 21, events);
    SameRowTwice(window, events);
  }

  lemma SameRowTwice(window: int, events: seq<Event>)
    ensures SumTable(Upsert(Upsert(map[], RowFor(window, events)), RowFor(window, events))).execs == |events|
  {
    SumOfRow(map[], window, events);
    SumOfRow(Upsert(map[], RowFor(window, events)), window, events);
  }

  /** With the only success purged, an event is aggregated again, but into the row it has. */
  lemma AnEventIsIngestedTwice() returns (log: seq<Logged>, h: History, e: Logged)
    ensures Serial(log, INSTANCE, h) && CleanStart(log, INSTANCE, h) && h.Next? && Succeeds(h.action)
    ensures e in log && TimesIngested(h, INSTANCE, e) == 2
    ensures SumTable(Mine(h.db.facts, INSTANCE)).execs == 1 && TotalIngested(log, INSTANCE, h).execs == 1
  {
    e := Logged(At(5), 5);
    log := [e];
    h := TheSameRowAgain(log, e);
  }

  /** A window opened a second time, after another one. */
  lemma FirstWindowAgain(first: seq<Event>, window: int, second: seq<Event>, window': int, third: seq<Event>)
    requires window != window'
    ensures SumTable(Upsert(Upsert(Upsert(map[], RowFor(window, first)), RowFor(window', second)),
                            RowFor(window, third))).execs
         == |second| + |third|
  {
    var one := Upsert(map[], RowFor(window, first));
    SumOfRow(map[], window, first);
    SumOfRow(one, window', second);
    SumOfRow(Upsert(one, RowFor(window', second)), window, third);
  }

  lemma TwiceThenAgain(log: seq<Logged>, first: seq<Event>, second: seq<Event>, third: seq<Event>) returns (h: History)
    requires OneGroupLog(log) && first != [] && second != [] && third != []
    requires MinTime(first) == MinTime(third) != 8
    requires Newer(Fetched(log, 6), None) == first && Newer(Fetched(log, 11), Some(8)) == second
    requires Newer(Fetched(log, 20), None) == third
    ensures Serial(log, INSTANCE, h) && CleanStart(log, INSTANCE, h) && h.Next? && Succeeds(h.action)
    ensures SumTable(Mine(h.db.facts, INSTANCE)).execs == |second| + |third|
    ensures SeenUpTo(h, 20)
  {
    var purged, t := TwiceThenPurged(log, first, second, third);
    h := Succeed(log, purged, None, 12, t, 20, 21, third);
  }

  lemma TwiceThenPurged(log: seq<Logged>, first: seq<Event>, second: seq<Event>, third: seq<Event>)
    returns (purged: History, t: Facts)
    requires OneGroupLog(log) && first != [] && second != [] && MinTime(first) != 8
    requires Newer(Fetched(log, 6), None) == first && Newer(Fetched(log, 11), Some(8)) == second
    ensures Reached(log, purged, None, 12, t)
    ensures SumTable(Upsert(t, RowFor(MinTime(first), third))).execs == |second| + |third|
  {
    var one := Upsert(map[], RowFor(MinTime(first), first));
    AtTheBeginning(log);
    t := Upsert(one, RowFor(8, second));
    FirstWindowAgain(first, MinTime(first), second, 8, third);
    var h1 := Succeed(log, EMPTY, None, 0, map[], 6, 8, first);
    var h2 := Succeed(log, h1, Some(8), 8, one, 11, 12, second);
    purged := Purge(log, h2, Some(12), 12, t, 20);
  }

  lemma ReadsOfTwoWindows(log: seq<Logged>, a: Logged, b: Logged)
    returns (first: seq<Event>, second: seq<Event>, third: seq<Event>)
    requires |log| == 2 && log[0] == a && log[1] == b && a.event.time <= 6
    requires a.visibleAt <= 6 && 8 < b.event.time <= b.visibleAt <= 11
    ensures first == Newer(Fetched(log, 6), None) && |first| == 1
    ensures second == Newer(Fetched(log, 11), Some(8)) && |second| == 1
    ensures third == Newer(Fetched(log, 20), None) && |third| == 2 && MinTime(first) == MinTime(third) != 8
  {
    ReadFirst(log, 6, None);
    ReadSecond(log, 11, Some(8));
    ReadBoth(log, 20, None);
    OldestOfTwo(a.event, b.event);
    first, second := Newer(Fetched(log, 6), None), Newer(Fetched(log, 11), Some(8));
    third := Newer(Fetched(log, 20), None);
  }

  /** For any two events of a group, in the windows of two successes. */
  lemma TheFirstWindowAgain(log: seq<Logged>, a: Logged, b: Logged) returns (h: History)
    requires |log| == 2 && log[0] == a && log[1] == b
    requires a.event.who == b.event.who == WHO && a.event.time <= a.visibleAt <= 6
    requires 8 < b.event.time <= b.visibleAt <= 11
    ensures Serial(log, INSTANCE, h) && CleanStart(log, INSTANCE, h) && h.Next? && Succeeds(h.action)
    ensures SumTable(Mine(h.db.facts, INSTANCE)).execs == 3 && TotalIngested(log, INSTANCE, h).execs == 2
  {
    OneGroupPair(log);
    var first, second, third := ReadsOfTwoWindows(log, a, b);
    h := TwiceThenAgain(log, first, second, third);
    BothIngested(log, h, 20);
  }

  /**
   With both successes purged, the next one opens the first window again and takes in what the second window has:
   two executions make three.
   */
  lemma AnEventIsDoubled() returns (log: seq<Logged>, h: History)
    ensures Serial(log, INSTANCE, h) && CleanStart(log, INSTANCE, h) && h.Next? && Succeeds(h.action)
    ensures SumTable(Mine(h.db.facts, INSTANCE)).execs == 3 && TotalIngested(log, INSTANCE, h).execs == 2
  {
    log := Pair(Logged(At(5), 5), Logged(At(10), 10));
    h := TheFirstWindowAgain(log, log[0], log[1]);
  }
}
