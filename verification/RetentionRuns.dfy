/** A cleanup pass over the two journals as a run of turns: what it keeps, and what it removes. */
module RetentionRuns {
  import opened Common
  import opened RetentionModel

  /** What happens around one iteration: rows inserted meanwhile, and reasons to stop. */
  datatype Turn = Turn(events: set<Row>, decisions: set<Row>, halt: bool, aborted: bool)

  datatype Limits = Limits(preserveEvents: nat, preserveDecisions: nat, perPass: nat, perChunk: nat)

  /** One table during a pass: its rows, how many were removed, and whether more may be. */
  datatype Progress = Progress(table: set<Row>, removed: nat, more: bool)

  datatype Pass = Pass(events: Progress, decisions: Progress, eventTurn: bool, over: bool) {
    function removed(): nat {
      events.removed + decisions.removed
    }
  }

  function Begin(events: set<Row>, decisions: set<Row>, eventsFirst: bool): Pass {
    Pass(Progress(events, 0, true), Progress(decisions, 0, true), eventsFirst, false)
  }

  // ---------------------------------------------------------------- one turn

  predicate Running(limits: Limits, p: Pass) {
    !p.over && p.removed() < limits.perPass
  }

  /** The rows inserted by other threads since the last transaction. */
  function Received(p: Pass, t: Turn): Pass {
    p.(events := p.events.(table := p.events.table + t.events),
       decisions := p.decisions.(table := p.decisions.table + t.decisions))
  }

  predicate Stops(p: Pass, t: Turn) {
    t.halt || t.aborted || (!p.events.more && !p.decisions.more)
  }

  predicate TakesEvents(p: Pass) {
    p.events.more && (p.eventTurn || !p.decisions.more)
  }

  /** How many rows the next transaction may remove. */
  function Room(limits: Limits, p: Pass): nat {
    if p.removed() < limits.perPass
    then Min(Min(limits.perChunk, limits.perPass), limits.perPass - p.removed())
    else 0
  }

  /** One transaction: the oldest surplus rows of the class are gone, at most `limit` of them. */
  predicate Reduced(p: Progress, n: nat, limit: nat, out: Progress) {
    && out.table <= p.table && IsChunk(Surplus(Eligible(p.table), n), limit, p.table - out.table)
    && out.removed == p.removed + |p.table - out.table|
    && out.more == (p.more && |p.table - out.table| >= limit)
  }

  predicate Follows(limits: Limits, p: Pass, t: Turn, out: Pass) {
    var r := Received(p, t);
    if Stops(r, t) then out == r.(over := true)
    else if TakesEvents(r) then
      && Reduced(r.events, limits.preserveEvents, Room(limits, r), out.events)
      && out == r.(events := out.events, eventTurn := false)
    else
      && Reduced(r.decisions, limits.preserveDecisions, Room(limits, r), out.decisions)
      && out == r.(decisions := out.decisions, eventTurn := true)
  }

  /** The turn from trace[k] to trace[k + 1]. */
  predicate StepAt(limits: Limits, turns: seq<Turn>, trace: seq<Pass>, k: nat) {
    k + 1 < |trace| <= |turns| + 1 && Running(limits, trace[k]) && Follows(limits, trace[k], turns[k], trace[k + 1])
  }

  predicate Steps(
    limits: Limits, events: set<Row>, decisions: set<Row>, eventsFirst: bool, turns: seq<Turn>, trace: seq<Pass>)
  {
    && 0 < |trace| <= |turns| + 1 && trace[0] == Begin(events, decisions, eventsFirst)
    && forall k: nat :: k < |trace| - 1 ==> StepAt(limits, turns, trace, k)
  }

  /** A whole pass: it ends when it stops running or the turns are used up. */
  predicate Traced(
    limits: Limits, events: set<Row>, decisions: set<Row>, eventsFirst: bool, turns: seq<Turn>, trace: seq<Pass>)
  {
    && Steps(limits, events, decisions, eventsFirst, turns, trace)
    && (|trace| == |turns| + 1 || !Running(limits, trace[|trace| - 1]))
  }

  lemma StepsExtend(
    limits: Limits, events: set<Row>, decisions: set<Row>, eventsFirst: bool, turns: seq<Turn>, trace: seq<Pass>,
    out: Pass)
    requires Steps(limits, events, decisions, eventsFirst, turns, trace) && |trace| <= |turns|
    requires var last := |trace| - 1; Running(limits, trace[last]) && Follows(limits, trace[last], turns[last], out)
    ensures Steps(limits, events, decisions, eventsFirst, turns, trace + [out])
  {
    var more := trace + [out];
    forall k: nat | k < |more| - 1 ensures StepAt(limits, turns, more, k) {
      assert k < |trace| - 1 ==> StepAt(limits, turns, trace, k);
    }
  }

  // ---------------------------------------------------------------- arrivals

  function ArrivedEvents(turns: seq<Turn>): set<Row> {
    if turns == [] then {} else ArrivedEvents(turns[..|turns| - 1]) + turns[|turns| - 1].events
  }

  function ArrivedDecisions(turns: seq<Turn>): set<Row> {
    if turns == [] then {} else ArrivedDecisions(turns[..|turns| - 1]) + turns[|turns| - 1].decisions
  }

  lemma {:induction false} ArrivedSoFar(turns: seq<Turn>, k: nat)
    requires k <= |turns|
    ensures ArrivedEvents(turns[..k]) <= ArrivedEvents(turns)
    ensures ArrivedDecisions(turns[..k]) <= ArrivedDecisions(turns)
    decreases |turns|
  {
    if k < |turns| {
      ArrivedSoFar(turns[..|turns| - 1], k);
      assert turns[..|turns| - 1][..k] == turns[..k];
    } else {
      assert turns[..k] == turns;
    }
  }

  lemma ArrivedNext(turns: seq<Turn>, k: nat)
    requires k < |turns|
    ensures ArrivedEvents(turns[..k + 1]) == ArrivedEvents(turns[..k]) + turns[k].events
    ensures ArrivedDecisions(turns[..k + 1]) == ArrivedDecisions(turns[..k]) + turns[k].decisions
  {
    assert turns[..k + 1][..k] == turns[..k];
  }

  lemma UniqueNext(events: set<Row>, decisions: set<Row>, turns: seq<Turn>, k: nat)
    requires k < |turns|
    requires UniqueIds(events + ArrivedEvents(turns)) && UniqueIds(decisions + ArrivedDecisions(turns))
    ensures ArrivedEvents(turns[..k + 1]) == ArrivedEvents(turns[..k]) + turns[k].events
    ensures ArrivedDecisions(turns[..k + 1]) == ArrivedDecisions(turns[..k]) + turns[k].decisions
    ensures UniqueIds(events + (ArrivedEvents(turns[..k]) + turns[k].events))
    ensures UniqueIds(decisions + (ArrivedDecisions(turns[..k]) + turns[k].decisions))
  {
    ArrivedNext(turns, k);
    ArrivedSoFar(turns, k + 1);
  }

  // ---------------------------------------------------------------- one table

  /** What the pass maintains for one table; `more` says surplus rows may remain. */
  predicate Bounded(before: set<Row>, arrived: set<Row>, p: Progress, n: nat) {
    && UniqueIds(before + arrived) && Kept(p.table, before + arrived, n)
    && |(before + arrived) - p.table| <= p.removed
    && (!p.more && arrived == {} ==> |Eligible(p.table)| <= n)
  }

  lemma StartBounded(table: set<Row>, n: nat)
    requires UniqueIds(table)
    ensures Bounded(table, {}, Progress(table, 0, true), n)
  {
    assert table + {} == table;
    assert table - table == {};
  }

  lemma ArrivalKeeps(before: set<Row>, arrived: set<Row>, p: Progress, n: nat, batch: set<Row>)
    requires Bounded(before, arrived, p, n) && UniqueIds(before + (arrived + batch))
    ensures Bounded(before, arrived + batch, p.(table := p.table + batch), n)
  {
    var ever := before + arrived;
    assert before + (arrived + batch) == ever + batch;
    InsertKeeps(p.table, ever, n, batch);
    SubsetSize((ever + batch) - (p.table + batch), ever - p.table);
    assert arrived + batch == {} ==> batch == {} && p.table + batch == p.table;
  }

  /** How many rows of the class are outside the newest `n`. */
  function Excess(p: Progress, n: nat): nat {
    |Surplus(Eligible(p.table), n)|
  }

  /** A transaction removes the whole surplus or as much of it as it may. */
  lemma ReducedSize(p: Progress, n: nat, limit: nat, out: Progress)
    requires UniqueIds(p.table) && Reduced(p, n, limit, out)
    ensures |p.table - out.table| == Min(limit, Excess(p, n))
    ensures |Eligible(out.table)| == |Eligible(p.table)| - |p.table - out.table|
    ensures Excess(out, n) == Excess(p, n) - |p.table - out.table|
  {
    var gone := p.table - out.table;
    SurplusSize(Eligible(p.table), n);
    SurplusSize(Eligible(out.table), n);
    assert Eligible(p.table) == Eligible(out.table) + gone;
    DisjointUnionSize(Eligible(out.table), gone);
  }

  lemma ChunkKeeps(before: set<Row>, arrived: set<Row>, p: Progress, n: nat, limit: nat, out: Progress)
    requires Bounded(before, arrived, p, n) && Reduced(p, n, limit, out)
    ensures Bounded(before, arrived, out, n)
  {
    var gone := p.table - out.table;
    ReducedSize(p, n, limit, out);
    DeleteKeeps(p.table, before + arrived, n, gone);
    assert p.table - gone == out.table;
    RemovedMore(before + arrived, p.table, out.table);
    SurplusSize(Eligible(p.table), n);
    assert !out.more && arrived == {} && p.more ==> Excess(p, n) < limit;
  }

  lemma RemovedMore(ever: set<Row>, table: set<Row>, rest: set<Row>)
    requires rest <= table <= ever
    ensures |ever - rest| == |ever - table| + |table - rest|
  {
    assert ever - rest == (ever - table) + (table - rest);
    DisjointUnionSize(ever - table, table - rest);
  }

  // ---------------------------------------------------------------- every pass

  predicate BothBounded(
    limits: Limits, events: set<Row>, decisions: set<Row>, turns: seq<Turn>, k: nat, p: Pass)
    requires k <= |turns|
  {
    && Bounded(events, ArrivedEvents(turns[..k]), p.events, limits.preserveEvents)
    && Bounded(decisions, ArrivedDecisions(turns[..k]), p.decisions, limits.preserveDecisions)
    && p.removed() <= limits.perPass
    && (p.over ==> Stopped(turns, k) || (!p.events.more && !p.decisions.more))
  }

  /** The last turn ended the pass from outside. */
  predicate Stopped(turns: seq<Turn>, used: nat)
    requires used <= |turns|
  {
    used > 0 && (turns[used - 1].halt || turns[used - 1].aborted)
  }

  lemma ReceivedKeeps(
    limits: Limits, events: set<Row>, decisions: set<Row>, turns: seq<Turn>, k: nat, p: Pass)
    requires k < |turns| && BothBounded(limits, events, decisions, turns, k, p)
    requires UniqueIds(events + ArrivedEvents(turns)) && UniqueIds(decisions + ArrivedDecisions(turns))
    ensures var r := Received(p, turns[k]);
            && Bounded(events, ArrivedEvents(turns[..k + 1]), r.events, limits.preserveEvents)
            && Bounded(decisions, ArrivedDecisions(turns[..k + 1]), r.decisions, limits.preserveDecisions)
  {
    UniqueNext(events, decisions, turns, k);
    ArrivalKeeps(events, ArrivedEvents(turns[..k]), p.events, limits.preserveEvents, turns[k].events);
    ArrivalKeeps(decisions, ArrivedDecisions(turns[..k]), p.decisions, limits.preserveDecisions, turns[k].decisions);
  }

  lemma TurnKeeps(
    limits: Limits, events: set<Row>, decisions: set<Row>, turns: seq<Turn>, k: nat, p: Pass, out: Pass)
    requires k < |turns| && BothBounded(limits, events, decisions, turns, k, p)
    requires UniqueIds(events + ArrivedEvents(turns)) && UniqueIds(decisions + ArrivedDecisions(turns))
    requires Running(limits, p) && Follows(limits, p, turns[k], out)
    ensures BothBounded(limits, events, decisions, turns, k + 1, out)
  {
    var r := Received(p, turns[k]);
    ReceivedKeeps(limits, events, decisions, turns, k, p);
    if Stops(r, turns[k]) {
    } else if TakesEvents(r) {
      ChunkKeeps(events, ArrivedEvents(turns[..k + 1]), r.events, limits.preserveEvents, Room(limits, r), out.events);
    } else {
      ChunkKeeps(decisions, ArrivedDecisions(turns[..k + 1]), r.decisions, limits.preserveDecisions, Room(limits, r),
                 out.decisions);
    }
  }

  lemma {:induction false} StepsKeep(
    limits: Limits, events: set<Row>, decisions: set<Row>, eventsFirst: bool, turns: seq<Turn>, trace: seq<Pass>,
    k: nat)
    requires Steps(limits, events, decisions, eventsFirst, turns, trace) && k < |trace|
    requires UniqueIds(events + ArrivedEvents(turns)) && UniqueIds(decisions + ArrivedDecisions(turns))
    ensures BothBounded(limits, events, decisions, turns, k, trace[k])
  {
    if k == 0 {
      StartBounded(events, limits.preserveEvents);
      StartBounded(decisions, limits.preserveDecisions);
    } else {
      StepsKeep(limits, events, decisions, eventsFirst, turns, trace, k - 1);
      assert StepAt(limits, turns, trace, k - 1);
      TurnKeeps(limits, events, decisions, turns, k - 1, trace[k - 1], trace[k]);
    }
  }

  /** What every pass keeps, whatever arrives and however it ends. */
  lemma PassKeeps(
    limits: Limits, events: set<Row>, decisions: set<Row>, eventsFirst: bool, turns: seq<Turn>, trace: seq<Pass>)
    requires Traced(limits, events, decisions, eventsFirst, turns, trace)
    requires UniqueIds(events + ArrivedEvents(turns)) && UniqueIds(decisions + ArrivedDecisions(turns))
    ensures var used := |trace| - 1;
            && BothBounded(limits, events, decisions, turns, used, trace[used])
            && (|| used == |turns| || Stopped(turns, used) || trace[used].removed() == limits.perPass
                || (!trace[used].events.more && !trace[used].decisions.more))
  {
    StepsKeep(limits, events, decisions, eventsFirst, turns, trace, |trace| - 1);
  }

  lemma UniqueInside(
    limits: Limits, events: set<Row>, decisions: set<Row>, eventsFirst: bool, turns: seq<Turn>, trace: seq<Pass>,
    k: nat)
    requires Steps(limits, events, decisions, eventsFirst, turns, trace) && k < |trace| && k < |turns|
    requires UniqueIds(events + ArrivedEvents(turns)) && UniqueIds(decisions + ArrivedDecisions(turns))
    ensures var r := Received(trace[k], turns[k]); UniqueIds(r.events.table) && UniqueIds(r.decisions.table)
  {
    StepsKeep(limits, events, decisions, eventsFirst, turns, trace, k);
    ReceivedKeeps(limits, events, decisions, turns, k, trace[k]);
  }

  /**
   * A turn that is not stopped removes as many rows as it may: a chunk, what is left of the cap,
   * or the whole surplus of its class, whichever is least, and nothing of the other class.
   */
  lemma TurnRemovesExactly(
    limits: Limits, events: set<Row>, decisions: set<Row>, eventsFirst: bool, turns: seq<Turn>, trace: seq<Pass>,
    k: nat)
    requires Steps(limits, events, decisions, eventsFirst, turns, trace) && k < |trace| - 1
    requires UniqueIds(events + ArrivedEvents(turns)) && UniqueIds(decisions + ArrivedDecisions(turns))
    requires !trace[k + 1].over
    ensures var r, out := Received(trace[k], turns[k]), trace[k + 1];
            var left := Min(limits.perChunk, limits.perPass - r.removed());
            if TakesEvents(r) then
              && out.removed() == r.removed() + Min(left, Excess(r.events, limits.preserveEvents))
              && |r.events.table - out.events.table| == out.removed() - r.removed() && out.decisions == r.decisions
            else
              && out.removed() == r.removed() + Min(left, Excess(r.decisions, limits.preserveDecisions))
              && |r.decisions.table - out.decisions.table| == out.removed() - r.removed() && out.events == r.events
  {
    var r, out := Received(trace[k], turns[k]), trace[k + 1];
    UniqueInside(limits, events, decisions, eventsFirst, turns, trace, k);
    assert StepAt(limits, turns, trace, k);
    if TakesEvents(r) {
      ReducedSize(r.events, limits.preserveEvents, Room(limits, r), out.events);
    } else {
      ReducedSize(r.decisions, limits.preserveDecisions, Room(limits, r), out.decisions);
    }
  }

  /**
   * The classes alternate while both may have surplus rows: the events go first exactly on an
   * even offset, and a turn takes the class its predecessor did not take.
   */
  lemma ClassesAlternate(
    limits: Limits, events: set<Row>, decisions: set<Row>, eventsFirst: bool, turns: seq<Turn>, trace: seq<Pass>,
    k: nat)
    requires Steps(limits, events, decisions, eventsFirst, turns, trace) && k < |trace|
    requires trace[k].events.more && trace[k].decisions.more && !trace[k].over
    ensures TakesEvents(trace[k]) == (if k == 0 then eventsFirst else !TakesEvents(trace[k - 1]))
  {
    if k > 0 {
      assert StepAt(limits, turns, trace, k - 1);
    }
  }

  // ---------------------------------------------------------------- the reported numbers

  /** No inserted row was there before. */
  predicate FreshRows(events: set<Row>, decisions: set<Row>, turns: seq<Turn>) {
    forall k :: 0 <= k < |turns| ==>
      && turns[k].events !! events + ArrivedEvents(turns[..k])
      && turns[k].decisions !! decisions + ArrivedDecisions(turns[..k])
  }

  predicate Exact(before: set<Row>, arrived: set<Row>, p: Progress) {
    p.table <= before + arrived && |(before + arrived) - p.table| == p.removed
  }

  lemma ExactArrival(before: set<Row>, arrived: set<Row>, p: Progress, batch: set<Row>)
    requires Exact(before, arrived, p) && batch !! before + arrived
    ensures Exact(before, arrived + batch, p.(table := p.table + batch))
  {
    assert (before + (arrived + batch)) - (p.table + batch) == (before + arrived) - p.table;
  }

  lemma ExactChunk(before: set<Row>, arrived: set<Row>, p: Progress, n: nat, limit: nat, out: Progress)
    requires Exact(before, arrived, p) && Reduced(p, n, limit, out)
    ensures Exact(before, arrived, out)
  {
    RemovedMore(before + arrived, p.table, out.table);
  }

  /** Of each table exactly as many rows are gone as the pass reports. */
  lemma {:induction false} RemovedExactly(
    limits: Limits, events: set<Row>, decisions: set<Row>, eventsFirst: bool, turns: seq<Turn>, trace: seq<Pass>,
    k: nat)
    requires Steps(limits, events, decisions, eventsFirst, turns, trace) && k < |trace|
    requires FreshRows(events, decisions, turns)
    ensures Exact(events, ArrivedEvents(turns[..k]), trace[k].events)
    ensures Exact(decisions, ArrivedDecisions(turns[..k]), trace[k].decisions)
  {
    if k == 0 {
      assert events + {} - events == {} && decisions + {} - decisions == {};
    } else {
      RemovedExactly(limits, events, decisions, eventsFirst, turns, trace, k - 1);
      assert StepAt(limits, turns, trace, k - 1);
      ExactTurn(limits, events, decisions, turns, k - 1, trace[k - 1], trace[k]);
    }
  }

  lemma ExactTurn(
    limits: Limits, events: set<Row>, decisions: set<Row>, turns: seq<Turn>, k: nat, p: Pass, out: Pass)
    requires k < |turns| && FreshRows(events, decisions, turns) && Follows(limits, p, turns[k], out)
    requires Exact(events, ArrivedEvents(turns[..k]), p.events)
    requires Exact(decisions, ArrivedDecisions(turns[..k]), p.decisions)
    ensures Exact(events, ArrivedEvents(turns[..k + 1]), out.events)
    ensures Exact(decisions, ArrivedDecisions(turns[..k + 1]), out.decisions)
  {
    var r := Received(p, turns[k]);
    ArrivedNext(turns, k);
    ExactArrival(events, ArrivedEvents(turns[..k]), p.events, turns[k].events);
    ExactArrival(decisions, ArrivedDecisions(turns[..k]), p.decisions, turns[k].decisions);
    if Stops(r, turns[k]) {
    } else if TakesEvents(r) {
      ExactChunk(events, ArrivedEvents(turns[..k + 1]), r.events, limits.preserveEvents, Room(limits, r), out.events);
    } else {
      ExactChunk(decisions, ArrivedDecisions(turns[..k + 1]), r.decisions, limits.preserveDecisions, Room(limits, r),
                 out.decisions);
    }
  }

  // ---------------------------------------------------------------- a quiet pass

  /** Nothing arrives and nothing stops the pass from outside. */
  predicate Quiet(turns: seq<Turn>) {
    forall k :: 0 <= k < |turns| ==> turns[k] == Turn({}, {}, false, false)
  }

  function Left(limits: Limits, p: Pass): nat {
    Excess(p.events, limits.preserveEvents) + Excess(p.decisions, limits.preserveDecisions)
  }

  /** Rows still allowed, and tables and pass still open: every turn lowers it. */
  function Measure(limits: Limits, p: Pass): int {
    limits.perPass - p.removed()
    + (if p.events.more then 1 else 0) + (if p.decisions.more then 1 else 0) + (if p.over then 0 else 1)
  }

  predicate QuietInv(limits: Limits, total: nat, p: Pass) {
    && UniqueIds(p.events.table) && UniqueIds(p.decisions.table)
    && p.removed() + Left(limits, p) == total && p.removed() <= limits.perPass
    && (!p.events.more ==> Excess(p.events, limits.preserveEvents) == 0)
    && (!p.decisions.more ==> Excess(p.decisions, limits.preserveDecisions) == 0)
    && (p.over ==> !p.events.more && !p.decisions.more)
  }

  lemma QuietTurn(limits: Limits, total: nat, p: Pass, out: Pass)
    requires limits.perChunk > 0 && QuietInv(limits, total, p)
    requires Running(limits, p) && Follows(limits, p, Turn({}, {}, false, false), out)
    ensures QuietInv(limits, total, out) && Measure(limits, out) < Measure(limits, p)
  {
    var r := Received(p, Turn({}, {}, false, false));
    assert p.events.table + {} == p.events.table && p.decisions.table + {} == p.decisions.table;
    assert r == p;
    if Stops(p, Turn({}, {}, false, false)) {
    } else if TakesEvents(p) {
      ReducedSize(p.events, limits.preserveEvents, Room(limits, p), out.events);
    } else {
      ReducedSize(p.decisions, limits.preserveDecisions, Room(limits, p), out.decisions);
    }
  }

  lemma QuietStart(limits: Limits, events: set<Row>, decisions: set<Row>, eventsFirst: bool)
    requires UniqueIds(events) && UniqueIds(decisions)
    ensures var p := Begin(events, decisions, eventsFirst);
            QuietInv(limits, Left(limits, p), p) && Measure(limits, p) == limits.perPass + 3
  {
  }

  lemma QuietAt(limits: Limits, total: nat, turns: seq<Turn>, trace: seq<Pass>, k: nat)
    requires limits.perChunk > 0 && Quiet(turns) && k + 1 < |trace| <= |turns| + 1 && QuietInv(limits, total, trace[k])
    requires StepAt(limits, turns, trace, k)
    ensures QuietInv(limits, total, trace[k + 1]) && Measure(limits, trace[k + 1]) < Measure(limits, trace[k])
  {
    QuietTurn(limits, total, trace[k], trace[k + 1]);
  }

  lemma QuietSteps(limits: Limits, total: nat, turns: seq<Turn>, trace: seq<Pass>, k: nat)
    requires 0 < |trace| <= |turns| + 1 && Quiet(turns) && limits.perChunk > 0 && k < |trace|
    requires forall i: nat :: i < |trace| - 1 ==> StepAt(limits, turns, trace, i)
    requires QuietInv(limits, total, trace[0])
    ensures QuietInv(limits, total, trace[k]) && k + Measure(limits, trace[k]) <= Measure(limits, trace[0])
  {
    var i := 0;
    while i < k
      invariant i <= k && QuietInv(limits, total, trace[i])
      invariant i + Measure(limits, trace[i]) <= Measure(limits, trace[0])
    {
      QuietAt(limits, total, turns, trace, i);
      i := i + 1;
    }
  }

  /**
   * When nothing arrives and nothing stops it, a pass with turns enough removes exactly the
   * surplus of both classes, or as much of it as the cap allows, and a class is reported as
   * having nothing more only when none of its surplus is left.
   */
  lemma PassIsComplete(
    limits: Limits, events: set<Row>, decisions: set<Row>, eventsFirst: bool, turns: seq<Turn>, trace: seq<Pass>)
    requires Traced(limits, events, decisions, eventsFirst, turns, trace) && Quiet(turns)
    requires UniqueIds(events) && UniqueIds(decisions) && limits.perChunk > 0 && |turns| >= limits.perPass + 3
    ensures var end := trace[|trace| - 1];
            && end.removed() == Min(limits.perPass, |Surplus(Eligible(events), limits.preserveEvents)|
                                                    + |Surplus(Eligible(decisions), limits.preserveDecisions)|)
            && (!end.events.more ==> Surplus(Eligible(end.events.table), limits.preserveEvents) == {})
            && (!end.decisions.more ==> Surplus(Eligible(end.decisions.table), limits.preserveDecisions) == {})
  {
    QuietStart(limits, events, decisions, eventsFirst);
    QuietSteps(limits, Left(limits, trace[0]), turns, trace, |trace| - 1);
  }

  /** Every row that is gone is older than every row of the class that is left. */
  predicate OldestGone(start: set<Row>, p: Progress) {
    p.table <= start && forall g, l :: g in start && g !in p.table && l in Eligible(p.table) ==> Less(g, l)
  }

  /** What one transaction removes is older than what it leaves of the class. */
  lemma ReducedOldest(p: Progress, n: nat, limit: nat, out: Progress, g: Row, l: Row)
    requires UniqueIds(p.table) && Reduced(p, n, limit, out)
    requires g in p.table && g !in out.table && l in Eligible(out.table)
    ensures Less(g, l)
  {
    var rows, gone := Eligible(p.table), p.table - out.table;
    assert g in gone && g in Surplus(rows, n) && l in rows;
    if l in Surplus(rows, n) {
      assert l in Surplus(rows, n) - gone;
    } else {
      RankOrder(rows, g, l);
    }
  }

  lemma OldestReduced(start: set<Row>, p: Progress, n: nat, limit: nat, out: Progress)
    requires UniqueIds(p.table) && OldestGone(start, p) && Reduced(p, n, limit, out)
    ensures OldestGone(start, out)
  {
    forall g, l | g in start && g !in out.table && l in Eligible(out.table) ensures Less(g, l) {
      if g in p.table {
        ReducedOldest(p, n, limit, out, g, l);
      } else {
        assert l in Eligible(p.table);
      }
    }
  }

  lemma OldestTurn(limits: Limits, events: set<Row>, decisions: set<Row>, p: Pass, out: Pass)
    requires OldestGone(events, p.events) && OldestGone(decisions, p.decisions)
    requires UniqueIds(p.events.table) && UniqueIds(p.decisions.table)
    requires Follows(limits, p, Turn({}, {}, false, false), out)
    ensures OldestGone(events, out.events) && OldestGone(decisions, out.decisions)
  {
    var r := Received(p, Turn({}, {}, false, false));
    assert p.events.table + {} == p.events.table && p.decisions.table + {} == p.decisions.table;
    assert r == p;
    if Stops(p, Turn({}, {}, false, false)) {
    } else if TakesEvents(p) {
      OldestReduced(events, p.events, limits.preserveEvents, Room(limits, p), out.events);
    } else {
      OldestReduced(decisions, p.decisions, limits.preserveDecisions, Room(limits, p), out.decisions);
    }
  }

  lemma OldestAt(
    limits: Limits, total: nat, events: set<Row>, decisions: set<Row>, turns: seq<Turn>, trace: seq<Pass>, k: nat)
    requires limits.perChunk > 0 && Quiet(turns) && k + 1 < |trace| <= |turns| + 1 && StepAt(limits, turns, trace, k)
    requires QuietInv(limits, total, trace[k])
    requires OldestGone(events, trace[k].events) && OldestGone(decisions, trace[k].decisions)
    ensures QuietInv(limits, total, trace[k + 1])
    ensures OldestGone(events, trace[k + 1].events) && OldestGone(decisions, trace[k + 1].decisions)
  {
    QuietAt(limits, total, turns, trace, k);
    OldestTurn(limits, events, decisions, trace[k], trace[k + 1]);
  }

  /** When nothing arrives, a pass removes the oldest rows of each class: none that is left is older than one gone. */
  lemma OldestGoFirst(
    limits: Limits, events: set<Row>, decisions: set<Row>, eventsFirst: bool, turns: seq<Turn>, trace: seq<Pass>)
    requires Steps(limits, events, decisions, eventsFirst, turns, trace) && Quiet(turns) && limits.perChunk > 0
    requires UniqueIds(events) && UniqueIds(decisions)
    ensures var end := trace[|trace| - 1]; OldestGone(events, end.events) && OldestGone(decisions, end.decisions)
  {
    QuietStart(limits, events, decisions, eventsFirst);
    var i, total := 0, Left(limits, trace[0]);
    while i < |trace| - 1
      invariant i <= |trace| - 1 && QuietInv(limits, total, trace[i])
      invariant OldestGone(events, trace[i].events) && OldestGone(decisions, trace[i].decisions)
    {
      assert StepAt(limits, turns, trace, i);
      OldestAt(limits, total, events, decisions, turns, trace, i);
      i := i + 1;
    }
  }
}
