/** The monitored instance's event files, and the collector that reads them: WorkloadCollector of workload.py. */
module WorkloadCollection {
  import opened Common
  import opened Attribution
  import opened Merge
  import opened WorkloadMetrics
  import opened Workload
  import opened Repository
  import opened Collector

  const TASK := "workload"

  /** An event in the files, and the moment from which a read of the files returns it. */
  datatype Logged = Logged(event: Event, visibleAt: int)

  /** What a read at `now` returns, in file order. */
  function Fetched(log: seq<Logged>, now: int): seq<Event> {
    if log == [] then []
    else
      var n := |log| - 1;
      Fetched(log[..n], now) + if log[n].visibleAt <= now then [log[n].event] else []
  }

  /** A connection to the monitored instance. */
  class Source {
    const log: seq<Logged>
    var closes: nat

    constructor (log: seq<Logged>)
      ensures this.log == log && closes == 0
    {
      this.log := log;
      closes := 0;
    }

    method FetchRows(now: int) returns (events: seq<Event>)
      ensures events == Fetched(log, now)
    {
      events := Fetched(log, now);
    }

    method Close()
      modifies this`closes
      ensures closes == old(closes) + 1
    {
      closes := closes + 1;
    }
  }

  /** The dictionary after the events: its key order, and each group's totals. */
  ghost predicate Grouped(events: seq<Event>, order: seq<Who>, groups: map<Who, Metrics>) {
    && order == FirstOccurrences(Whos(events))
    && (forall w :: w in groups <==> w in Whos(events))
    && (forall w :: w in groups ==> groups[w] == TotalOf(events, w))
  }

  /** A missing key starts from zeros, as in a defaultdict. */
  function Slot(groups: map<Who, Metrics>, w: Who): Metrics {
    if w in groups then groups[w] else ZERO
  }

  lemma GroupedStep(events: seq<Event>, order: seq<Who>, groups: map<Who, Metrics>, e: Event)
    requires Grouped(events, order, groups)
    ensures Grouped(events + [e], if e.who in groups then order else order + [e.who],
                    groups[e.who := Plus(Slot(groups, e.who), One(e))])
  {
    assert Whos(events + [e]) == Whos(events) + [e.who];
    FirstOccurrencesSnoc(Whos(events), e.who);
    FirstOccurrencesAreTheElements(Whos(events));
    var groups' := groups[e.who := Plus(Slot(groups, e.who), One(e))];
    forall w | w in groups' ensures groups'[w] == TotalOf(events + [e], w) {
      TotalOfSnoc(events, e, w);
      if w !in groups { TotalOfAbsent(events, w); }
    }
  }

  /** The dictionary pass of transform. */
  method GroupEvents(events: seq<Event>) returns (order: seq<Who>, groups: map<Who, Metrics>)
    ensures Grouped(events, order, groups)
  {
    order, groups := [], map[];
    for i := 0 to |events|
      invariant Grouped(events[..i], order, groups)
    {
      var e := events[i];
      GroupedStep(events[..i], order, groups, e);
      assert events[..i + 1] == events[..i] + [e];
      if e.who !in groups {
        order := order + [e.who];
      }
      groups := groups[e.who := Plus(Slot(groups, e.who), One(e))];
    }
    assert events[..|events|] == events;
  }

  class WorkloadCollector {
    const sourceInstance: string
    var watermark: Option<int>

    constructor (sourceInstance: string)
      ensures this.sourceInstance == sourceInstance && watermark == None
    {
      this.sourceInstance := sourceInstance;
      watermark := None;
    }

    method GetWatermark(conn: Connection<FactKey, Who, Metrics>) returns (w: Option<int>)
      ensures IsNewestSuccess(conn.working.runs, sourceInstance, "workload", w)
    {
      w := Watermark(conn.working.runs, sourceInstance, TASK);
      WatermarkIsNewestSuccess(conn.working.runs, sourceInstance, TASK, w);
    }

    method Transform(fetched: seq<Event>) returns (rows: seq<FactRow>)
      ensures rows == RowsOf(sourceInstance, watermark, fetched)
    {
      var events := Newer(fetched, watermark);
      if events == [] {
        return [];
      }
      var window := WindowStart(events, watermark);
      var order, groups := GroupEvents(events);
      FirstOccurrencesAreTheElements(Whos(events));
      rows := seq(|order|, i requires 0 <= i < |order| && order[i] in groups =>
                    Row(FactKey(sourceInstance, window, Code(order[i])), order[i], groups[order[i]]));
    }

    /**
     A run of the collector. `readFails` says that the watermark query, the fetch or the transform raises.
     It is the shared lifecycle on the rows above the watermark that the repository held before.
     */
    method Run(source: Source, conn: Connection<FactKey, Who, Metrics>, dryRun: bool, readFails: bool,
               fetchAt: int, startAt: int, endAt: int, error: string)
      returns (reply: Reply, ghost t: Trace)
      requires conn.working == conn.server.committed && FreshIds(conn.working)
      modifies this`watermark, conn`script, conn`working, conn.server`committed
      ensures (t.instance, t.task, t.startAt, t.endAt, t.error) == (sourceInstance, TASK, startAt, endAt, error)
      ensures
        var before := old(conn.server.committed);
        var rows := RowsOf(sourceInstance, Watermark(before.runs, sourceInstance, TASK), Fetched(source.log, fetchAt));
        && Possible(t, rows)
        && conn.server.committed == RunEffect(before, t, rows)
        && Ending(reply, t.mark, t.kept)
           == EndingOf(old(conn.script), if readFails then None else Some(|rows|), dryRun)
    {
      if readFails {
        reply, t := Collector.Run(conn, sourceInstance, TASK, None, dryRun, startAt, endAt, error);
        return;
      }
      watermark := GetWatermark(conn);
      WatermarkIsNewestSuccess(conn.working.runs, sourceInstance, TASK, watermark);
      var fetched := source.FetchRows(fetchAt);
      var rows := Transform(fetched);
      reply, t := Collector.Run(conn, sourceInstance, TASK, Some(rows), dryRun, startAt, endAt, error);
    }
  }
}
