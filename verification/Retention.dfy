/** The bounded cleanup pass over the two journals, one short transaction at a time. */
module Retention {
  import opened Common
  import opened RetentionModel
  import opened RetentionRuns

  /** The first part of a newest-first listing; `rest` is still to be listed. */
  predicate Listed(q: seq<Row>, rows: set<Row>, rest: set<Row>) {
    && Distinct(q) && rest <= rows && Elements(q) == rows - rest
    && (forall i, j :: 0 <= i < j < |q| ==> Less(q[j], q[i]))
    && (forall i, r :: 0 <= i < |q| && r in rest ==> Less(r, q[i]))
  }

  lemma ListNext(q: seq<Row>, rows: set<Row>, rest: set<Row>, m: Row)
    requires UniqueIds(rows) && Listed(q, rows, rest) && m in rest && Newer(m, rest) == {}
    ensures Listed(q + [m], rows, rest - {m})
  {
    assert m !in Elements(q);
    assert Elements(q + [m]) == Elements(q) + {m};
    forall r | r in rest - {m} ensures Less(r, m) {
      assert r !in Newer(m, rest) && r.id != m.id;
    }
  }

  /** `ORDER BY timestamp DESC, identifier DESC`. */
  method NewestFirst(rows: set<Row>) returns (q: seq<Row>)
    requires UniqueIds(rows)
    ensures Distinct(q) && Elements(q) == rows && |q| == |rows|
    ensures forall i, j :: 0 <= i < j < |q| ==> Less(q[j], q[i])
  {
    q := [];
    var rest := rows;
    while rest != {}
      invariant Listed(q, rows, rest)
      decreases |rest|
    {
      NewestExists(rest);
      var m :| m in rest && Newer(m, rest) == {};
      ListNext(q, rows, rest, m);
      q := q + [m];
      rest := rest - {m};
    }
    DistinctSize(q);
  }

  lemma ListsNewest(q: seq<Row>, rows: set<Row>)
    requires Distinct(q) && Elements(q) == rows && forall i, j :: 0 <= i < j < |q| ==> Less(q[j], q[i])
    ensures ListsByStamp(q, rows)
    ensures (forall r, x :: r in rows && x in rows ==> r.stamp == x.stamp) ==> ListsById(q, rows)
  {
    assert forall i :: 0 <= i < |q| ==> q[i] in Elements(q);
  }

  /** The rows outside the newest `n`, found by boundary time and tie rank. */
  method SurplusRows(rows: set<Row>, n: nat) returns (out: set<Row>)
    requires UniqueIds(rows)
    ensures out == Surplus(rows, n)
  {
    if n == 0 {
      return rows;
    }
    var q := NewestFirst(rows);
    if |q| < n {
      TooFewRows(rows, n);
      return {};
    }
    var stamp := q[n - 1].stamp;
    var p := NewestFirst(Ties(rows, stamp));
    ListsNewest(q, rows);
    ListsNewest(p, Ties(rows, stamp));
    IndexedForm(rows, n, q, p);
    out := BelowBoundary(rows, stamp, p[n - 1 - |After(rows, stamp)|]);
  }

  /** `ORDER BY timestamp, identifier LIMIT ?`. */
  method OldestRows(candidates: set<Row>, limit: nat) returns (chunk: set<Row>)
    requires UniqueIds(candidates)
    ensures IsChunk(candidates, limit, chunk)
  {
    var q := NewestFirst(candidates);
    var size := if limit < |q| then limit else |q|;
    var tail := q[|q| - size..];
    chunk := Elements(tail);
    DistinctSize(tail);
    forall k | |q| - size <= k < |q| ensures q[k] in chunk {
      assert tail[k - (|q| - size)] == q[k];
    }
    forall c, r | c in chunk && r in candidates - chunk ensures Less(c, r) {
      var i :| 0 <= i < |tail| && tail[i] == c;
      assert r in Elements(q);
      var j :| 0 <= j < |q| && q[j] == r;
      assert j < |q| - size;
    }
    forall c | c in chunk ensures c in Elements(q) {
      var i :| 0 <= i < |tail| && tail[i] == c;
      assert q[|q| - size + i] == c;
    }
  }

  /** One transaction: remove at most `limit` of the oldest surplus rows of the class. */
  method DeleteChunk(table: set<Row>, n: nat, limit: nat) returns (rest: set<Row>, removed: nat)
    requires UniqueIds(table)
    ensures rest <= table && removed == |table - rest|
    ensures IsChunk(Surplus(Eligible(table), n), limit, table - rest)
    ensures removed == Min(limit, Max(0, |Eligible(table)| - n))
    ensures |Eligible(rest)| == |Eligible(table)| - removed
  {
    var surplus := SurplusRows(Eligible(table), n);
    var chunk := OldestRows(surplus, limit);
    rest, removed := table - chunk, |chunk|;
    assert table - rest == chunk;
    SurplusSize(Eligible(table), n);
    assert Eligible(table) == Eligible(rest) + chunk;
    DisjointUnionSize(Eligible(rest), chunk);
  }

  datatype Report = Report(rawTrades: nat, nonEntryDecisions: nat, moreEvents: bool, moreDecisions: bool)

  function ReportOf(p: Pass): Report {
    Report(p.events.removed, p.decisions.removed, p.events.more, p.decisions.more)
  }

  /** One transaction on one table. */
  method Reduce(p: Progress, n: nat, limit: nat) returns (out: Progress)
    requires UniqueIds(p.table)
    ensures Reduced(p, n, limit, out)
  {
    var rest, removed := DeleteChunk(p.table, n, limit);
    out := Progress(rest, p.removed + removed, p.more && removed >= limit);
  }

  /** The loop of the pass, over the two tables as values; `used` turns were taken. */
  method RunPass(limits: Limits, events: set<Row>, decisions: set<Row>, eventsFirst: bool, turns: seq<Turn>)
    returns (p: Pass, used: nat, ghost trace: seq<Pass>)
    requires UniqueIds(events + ArrivedEvents(turns)) && UniqueIds(decisions + ArrivedDecisions(turns))
    requires limits.perPass > 0 && limits.perChunk > 0
    ensures Traced(limits, events, decisions, eventsFirst, turns, trace) && |trace| == used + 1 && trace[used] == p
  {
    p, used := Begin(events, decisions, eventsFirst), 0;
    trace := [p];
    while Running(limits, p) && used < |turns|
      invariant used <= |turns| && |trace| == used + 1 && trace[used] == p && p.removed() <= limits.perPass
      invariant Steps(limits, events, decisions, eventsFirst, turns, trace)
      decreases |turns| - used
    {
      UniqueInside(limits, events, decisions, eventsFirst, turns, trace, used);
      var r := Received(p, turns[used]);
      if Stops(r, turns[used]) {
        p := r.(over := true);
      } else if TakesEvents(r) {
        var e := Reduce(r.events, limits.preserveEvents, Room(limits, r));
        p := r.(events := e, eventTurn := false);
      } else {
        var d := Reduce(r.decisions, limits.preserveDecisions, Room(limits, r));
        p := r.(decisions := d, eventTurn := true);
      }
      StepsExtend(limits, events, decisions, eventsFirst, turns, trace, p);
      trace, used := trace + [p], used + 1;
    }
  }

  class Journal {
    var events: set<Row>
    var decisions: set<Row>

    constructor (events: set<Row>, decisions: set<Row>)
      ensures this.events == events && this.decisions == decisions
    {
      this.events, this.decisions := events, decisions;
    }

    /**
     * One pass. It alternates between the classes while both have something to remove, and stops
     * at the row cap, on a halt (stop request, deadline, or target reached) or on an aborted
     * transaction. Invalid limits are refused. An identifier always names the same row.
     */
    method EnforceBudget(
      preserveEvents: int, preserveDecisions: int, rowsPerPass: int, rowsPerChunk: int, offset: int, turns: seq<Turn>)
      returns (report: Option<Report>, used: nat, ghost trace: seq<Pass>)
      requires UniqueIds(events + ArrivedEvents(turns)) && UniqueIds(decisions + ArrivedDecisions(turns))
      modifies this
      ensures report.None? <==>
                rowsPerPass < 1 || rowsPerChunk < 1 || preserveEvents < 0 || preserveDecisions < 0 || offset < 0
      ensures report.None? ==> unchanged(this)
      ensures used <= |turns|
      ensures report.Some? ==>
                && Traced(Limits(preserveEvents, preserveDecisions, rowsPerPass, rowsPerChunk),
                          old(events), old(decisions), offset % 2 == 0, turns, trace)
                && |trace| == used + 1 && events == trace[used].events.table && decisions == trace[used].decisions.table
                && report.value == ReportOf(trace[used])
      ensures report.Some? ==>
                && report.value.rawTrades + report.value.nonEntryDecisions <= rowsPerPass
                && Kept(events, old(events) + ArrivedEvents(turns[..used]), preserveEvents)
                && Kept(decisions, old(decisions) + ArrivedDecisions(turns[..used]), preserveDecisions)
      ensures report.Some? ==>
                || used == |turns| || Stopped(turns, used)
                || report.value.rawTrades + report.value.nonEntryDecisions == rowsPerPass
                || (!report.value.moreEvents && !report.value.moreDecisions)
      ensures report.Some? ==>
                && |old(events) + ArrivedEvents(turns[..used]) - events| <= report.value.rawTrades
                && |old(decisions) + ArrivedDecisions(turns[..used]) - decisions| <= report.value.nonEntryDecisions
      ensures report.Some? && !report.value.moreEvents && ArrivedEvents(turns[..used]) == {} ==>
                |Eligible(events)| <= preserveEvents
      ensures report.Some? && !report.value.moreDecisions && ArrivedDecisions(turns[..used]) == {} ==>
                |Eligible(decisions)| <= preserveDecisions
    {
      used, trace := 0, [];
      if rowsPerPass < 1 || rowsPerChunk < 1 || preserveEvents < 0 || preserveDecisions < 0 || offset < 0 {
        return None, 0, [];
      }
      var limits := Limits(preserveEvents, preserveDecisions, rowsPerPass, rowsPerChunk);
      var p;
      p, used, trace := RunPass(limits, events, decisions, offset % 2 == 0, turns);
      PassKeeps(limits, events, decisions, offset % 2 == 0, turns, trace);
      events, decisions := p.events.table, p.decisions.table;
      report := Some(ReportOf(p));
    }
  }
}
