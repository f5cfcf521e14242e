/**
 Restart-safe deltas: cumulative counters turned into per-window amounts with LAG, one partition at a time.
 All delta views share the rule and differ only in partition and column; a series is one column of one partition.
 */
module Deltas {
  import opened Common

  /** CASE WHEN cur >= prev THEN cur - prev ELSE cur END. */
  function Delta(prev: nat, cur: nat): nat {
    if cur >= prev then cur - prev else cur
  }

  /** The snapshots of one partition, by time; the primary key makes the times unique. */
  type Series = map<int, nat>

  function Earlier(s: Series, t: int): set<int> {
    set u | u in s && u < t
  }

  /** The row LAG ... ORDER BY time looks at. */
  function Prev(s: Series, t: int): Option<int> {
    MaxOf(Earlier(s, t))
  }

  /** The rows of the view: those with a predecessor, each with its delta. */
  function View(s: Series): map<int, nat> {
    map t | t in s && Prev(s, t).Some? :: Delta(s[Prev(s, t).value], s[t])
  }

  /** SUM over the rows of a view, in any order (`SumOfAt`). */
  ghost function SumOf(v: map<int, nat>): nat {
    if v == map[] then 0
    else
      var t := AnyOf(v.Keys);
      v[t] + SumOf(v - {t})
  }

  lemma {:induction false} SumOfAt(v: map<int, nat>, t: int)
    requires t in v
    ensures SumOf(v) == v[t] + SumOf(v - {t})
    decreases |v|
  {
    var u := AnyOf(v.Keys);
    if u != t {
      SumOfAt(v - {u}, t);
      SumOfAt(v - {t}, u);
      assert v - {u} - {t} == v - {t} - {u};
    }
  }

  ghost function Total(s: Series): nat {
    SumOf(View(s))
  }

  // ---------- Taking the view apart at its latest snapshot ----------

  ghost predicate IsLatest(s: Series, t: int) {
    t in s && forall u :: u in s ==> u <= t
  }

  lemma LatestExists(s: Series) returns (t: int)
    requires s != map[]
    ensures IsLatest(s, t)
  {
    t := MaxOf(s.Keys).value;
  }

  lemma PrevIs(s: Series, t: int, p: int)
    requires p in s && p < t && forall u :: u in s && u < t ==> u <= p
    ensures Prev(s, t) == Some(p)
  {
    MaxIsUnique(Earlier(s, t), p);
  }

  function Gain(s: Series, t: int): nat
    requires t in s
  {
    if Prev(s, t).Some? then Delta(s[Prev(s, t).value], s[t]) else 0
  }

  /** The latest row contributes its own delta and does not influence any other. */
  lemma TotalAtLatest(s: Series, t: int)
    requires IsLatest(s, t)
    ensures Total(s) == Total(s - {t}) + Gain(s, t)
  {
    var rest := s - {t};
    forall u | u in rest ensures Earlier(rest, u) == Earlier(s, u) {
    }
    if Prev(s, t).Some? {
      SumOfAt(View(s), t);
      assert View(s) - {t} == View(rest);
    } else {
      assert View(s) == View(rest);
    }
  }

  /** With the latest row go the series' end and its last delta. */
  lemma TotalAtLatestTwo(s: Series, p: int, t: int)
    requires IsLatest(s, t) && IsLatest(s - {t}, p)
    ensures Total(s) == Total(s - {t}) + Delta(s[p], s[t])
  {
    TotalAtLatest(s, t);
    assert forall u :: u in s && u < t ==> u in s - {t};
    PrevIs(s, t, p);
  }

  lemma TotalOfOne(s: Series, t: int)
    requires IsLatest(s, t) && forall u :: u in s ==> t <= u
    ensures Total(s) == 0
  {
    TotalAtLatest(s, t);
    assert s - {t} == map[];
    assert View(map[]) == map[];
    assert Earlier(s, t) == {};
  }

  // ---------- Dropping snapshots ----------

  /** The reset-aware delta obeys the triangle inequality. */
  lemma Triangle(a: nat, b: nat, c: nat)
    ensures Delta(a, c) <= Delta(a, b) + Delta(b, c)
  {
  }

  lemma {:induction false} DroppingOne(s: Series, x: int)
    requires x in s
    ensures Total(s - {x}) <= Total(s)
    decreases |s|
  {
    var t := LatestExists(s);
    if x == t {
      TotalAtLatest(s, t);
    } else if IsLatest(s - {t}, x) {
      DroppingBeforeLatest(s, x, t);
    } else {
      DroppingOne(s - {t}, x);
      DroppingFarther(s, x, t);
    }
  }

  /** Dropping a snapshot further back leaves the latest delta alone. */
  lemma DroppingFarther(s: Series, x: int, t: int)
    requires IsLatest(s, t) && x in s && x != t && !IsLatest(s - {t}, x)
    ensures Total(s) + Total(s - {t} - {x}) == Total(s - {x}) + Total(s - {t})
  {
    var rest := s - {t};
    var p := LatestExists(rest);
    TotalAtLatestTwo(s, p, t);
    assert (s - {x}) - {t} == rest - {x};
    TotalAtLatestTwo(s - {x}, p, t);
  }

  /** Dropping the last snapshot but one replaces two deltas by one. */
  lemma DroppingBeforeLatest(s: Series, x: int, t: int)
    requires IsLatest(s, t) && x != t && IsLatest(s - {t}, x)
    ensures Total(s - {x}) <= Total(s)
  {
    var rest := s - {t};
    var both := rest - {x};
    TotalAtLatestTwo(s, x, t);
    assert (s - {x}) - {t} == both;
    if both == map[] {
      assert forall u :: u in s - {x} && u != t ==> u in both;
      TotalOfOne(s - {x}, t);
    } else {
      var p := LatestExists(both);
      TotalAtLatestTwo(rest, p, x);
      TotalAtLatestTwo(s - {x}, p, t);
      Triangle(s[p], s[x], s[t]);
    }
  }

  /** Whatever snapshots are missing, the view never reports more than it does over all of them. */
  lemma {:induction false} DroppingMany(s: Series, gone: set<int>)
    ensures Total(s - gone) <= Total(s)
    decreases gone
  {
    if gone == {} {
      assert s - gone == s;
    } else {
      var x := AnyOf(gone);
      DroppingMany(s, gone - {x});
      var kept := s - (gone - {x});
      if x in s {
        assert kept - {x} == s - gone;
        DroppingOne(kept, x);
      } else {
        assert kept == s - gone;
      }
    }
  }

  // ---------- Telescoping ----------

  ghost predicate Monotone(s: Series) {
    forall t, u :: t in s && u in s && t <= u ==> s[t] <= s[u]
  }

  lemma MonotoneAtLatest(s: Series, p: int, t: int)
    requires IsLatest(s, t) && IsLatest(s - {t}, p)
    ensures Monotone(s) <==> Monotone(s - {t}) && s[p] <= s[t]
  {
    var rest := s - {t};
    assert forall u :: u in s ==> u == t || (u in rest && rest[u] == s[u]);
    if Monotone(rest) && s[p] <= s[t] {
      assert forall u :: u in rest ==> rest[u] <= rest[p];
    }
  }

  /**
   The deltas sum up to at least last minus first, and to exactly that when and only when no value ever fell.
   Two selections of snapshots with the same ends therefore agree as long as no reset shows.
   */
  lemma {:induction false} Telescope(s: Series, first: int, last: int)
    requires IsLatest(s, last) && first in s && forall t :: t in s ==> first <= t
    ensures Total(s) + s[first] >= s[last]
    ensures Total(s) + s[first] == s[last] <==> Monotone(s)
    decreases |s|
  {
    if first == last {
      TotalOfOne(s, first);
    } else {
      var rest := s - {last};
      assert first in rest;
      var p := LatestExists(rest);
      TotalAtLatestTwo(s, p, last);
      MonotoneAtLatest(s, p, last);
      Telescope(rest, first, p);
    }
  }

  // ---------- Against the true counter ----------

  /** What happens to a counter between two snapshots. */
  datatype Op = Add(amount: nat) | Restart

  /** A counter's life as the snapshots divide it. */
  datatype Meter =
    | First(at: int, start: nat)
    | Then(before: Meter, ops: seq<Op>, at: int)

  function Counter(value: nat, ops: seq<Op>): nat {
    if ops == [] then value
    else
      var before := Counter(value, ops[..|ops| - 1]);
      match ops[|ops| - 1]
      case Add(n) => before + n
      case Restart => 0
  }

  /** Everything that was really counted. */
  function Increments(ops: seq<Op>): nat {
    if ops == [] then 0
    else Increments(ops[..|ops| - 1]) + if ops[|ops| - 1].Add? then ops[|ops| - 1].amount else 0
  }

  /** The part of it that a later restart in the same interval wiped out. */
  function Wiped(ops: seq<Op>): nat {
    if ops == [] then 0
    else if ops[|ops| - 1].Restart? then Increments(ops)
    else Wiped(ops[..|ops| - 1])
  }

  /** What the view misses over one interval that begins at `value`. */
  function Missed(value: nat, ops: seq<Op>): nat {
    if Restart !in ops then 0
    else Wiped(ops) + if Counter(value, ops) >= value then value else 0
  }

  function Reading(m: Meter): nat {
    match m
    case First(_, start) => start
    case Then(before, ops, _) => Counter(Reading(before), ops)
  }

  function Snapshots(m: Meter): Series {
    match m
    case First(at, start) => map[at := start]
    case Then(before, _, at) => Snapshots(before)[at := Reading(m)]
  }

  predicate InOrder(m: Meter) {
    m.Then? ==> InOrder(m.before) && m.before.at < m.at
  }

  function TrueTotal(m: Meter): nat {
    match m
    case First(_, _) => 0
    case Then(before, ops, _) => TrueTotal(before) + Increments(ops)
  }

  function Shortfall(m: Meter): nat {
    match m
    case First(_, _) => 0
    case Then(before, ops, _) => Shortfall(before) + Missed(Reading(before), ops)
  }

  predicate NeverRestarted(m: Meter) {
    m.Then? ==> NeverRestarted(m.before) && Restart !in m.ops
  }

  lemma {:induction false} CounterSplits(value: nat, ops: seq<Op>)
    ensures Restart !in ops ==> Counter(value, ops) == value + Increments(ops) && Wiped(ops) == 0
    ensures Restart in ops ==> Counter(value, ops) + Wiped(ops) == Increments(ops)
  {
    if ops != [] {
      var n := |ops| - 1;
      CounterSplits(value, ops[..n]);
      assert ops == ops[..n] + [ops[n]];
    }
  }

  lemma {:induction false} SnapshotsEndAt(m: Meter)
    requires InOrder(m)
    ensures IsLatest(Snapshots(m), m.at) && Snapshots(m)[m.at] == Reading(m)
  {
    if m.Then? { SnapshotsEndAt(m.before); }
  }

  /**
   The view reports exactly what was counted minus the shortfall: per restarted interval, whatever the restart
   wiped out, and the whole previous reading as well when the counter has climbed back past it.
   */
  lemma {:induction false} ReportedPlusShortfall(m: Meter)
    requires InOrder(m)
    ensures Total(Snapshots(m)) + Shortfall(m) == TrueTotal(m)
    ensures NeverRestarted(m) ==> Total(Snapshots(m)) == TrueTotal(m)
  {
    if m.First? {
      TotalOfOne(Snapshots(m), m.at);
    } else {
      var before := m.before;
      ReportedPlusShortfall(before);
      CounterSplits(Reading(before), m.ops);
      SnapshotsStep(m);
    }
  }

  lemma SnapshotsStep(m: Meter)
    requires InOrder(m) && m.Then?
    ensures Total(Snapshots(m)) == Total(Snapshots(m.before)) + Delta(Reading(m.before), Reading(m))
  {
    SnapshotsEndAt(m);
    SnapshotsEndAt(m.before);
    assert Snapshots(m) - {m.at} == Snapshots(m.before);
    TotalAtLatestTwo(Snapshots(m), m.before.at, m.at);
  }

  /** No over-reporting, whichever snapshots a purge has removed. */
  lemma NoOverReporting(m: Meter, gone: set<int>)
    requires InOrder(m)
    ensures Total(Snapshots(m) - gone) <= TrueTotal(m)
  {
    ReportedPlusShortfall(m);
    DroppingMany(Snapshots(m), gone);
  }
}
