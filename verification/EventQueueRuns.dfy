/**
 * Every run of the season event queue under its caller contract: accounting, season
 * isolation, drain progress and promotion order.
 */
module EventQueueRuns {
  import opened Common
  import opened EventQueueModel

  /** The queue with what happened to every admitted sequence, and the latest one issued, admitted or not. */
  datatype Run = Run(
    q: Queue,
    issued: int,
    admitted: set<int>,
    acked: set<int>,
    forgotten: set<int>,
    discarded: set<int>)

  datatype Step =
    | DoAdmit(s: int)
    | DoForget(s: int)
    | DoPut(priority: int, s: int, event: Event)
    | DoGet
    | DoGetBefore(urgency: int)
    | DoPromote(mint: string)
    | DoTaskDone
    | DoBegin(s: int)
    | DoEnd
    | DoDiscard

  function Start(maxsize: int): Run {
    Run(Empty(maxsize), 0, {}, {}, {}, {})
  }

  /** What the queue asks of its callers. A blocked producer may retry its put at any time. */
  ghost predicate Allowed(r: Run, step: Step) {
    match step
    case DoAdmit(s) => s > r.issued
    case DoForget(s) => s in Waiting(r.q)
    case DoPut(priority, s, _) => s in Waiting(r.q) && priority >= 0
    case DoTaskDone => r.q.dequeued != []
    case DoBegin(s) => s >= r.issued
    case _ => true
  }

  ghost function Taken(q: Queue, step: Step): Option<int> {
    match step
    case DoGet => Available(q)
    case DoGetBefore(urgency) => AvailableBefore(q, urgency)
    case _ => None
  }

  ghost function Next(r: Run, step: Step): Run {
    match step
    case DoAdmit(s) => r.(q := Admit(r.q, s), issued := s, admitted := r.admitted + {s})
    case DoForget(s) => r.(q := Forget(r.q, s), forgotten := r.forgotten + {s})
    case DoPut(priority, s, event) => r.(q := TryPut(r.q, priority, s, event))
    case DoGet => r.(q := Take(r.q, Taken(r.q, step)))
    case DoGetBefore(_) => r.(q := Take(r.q, Taken(r.q, step)))
    case DoPromote(mint) => r.(q := Promote(r.q, mint))
    case DoTaskDone =>
      r.(q := TaskDone(r.q),
         acked := r.acked + (if r.q.dequeued == [] then {} else {r.q.dequeued[0]}))
    case DoBegin(s) => r.(q := Begin(r.q, s), issued := s)
    case DoEnd => r.(q := End(r.q))
    case DoDiscard => r.(q := Discard(r.q), discarded := r.discarded + r.q.rows.Keys)
  }

  ghost predicate Legal(r: Run, steps: seq<Step>)
    decreases |steps|
  {
    steps == [] || (Allowed(r, steps[0]) && Legal(Next(r, steps[0]), steps[1..]))
  }

  ghost function Exec(r: Run, steps: seq<Step>): Run
    decreases |steps|
  {
    if steps == [] then r else Exec(Next(r, steps[0]), steps[1..])
  }

  // ---------------------------------------------------------------- invariant

  /** Admitted work is split between waiting producers, queued rows and receipts in flight. */
  ghost predicate Accounted(q: Queue) {
    && q.rows.Keys <= q.pending
    && Elements(q.dequeued) <= q.pending
    && q.rows.Keys !! Elements(q.dequeued)
    && Distinct(q.dequeued)
    && q.unfinished == |q.rows| + |q.dequeued|
  }

  /** Exactly the rows above an active boundary are parked, and none of them is in flight. */
  ghost predicate Parking(q: Queue) {
    && (forall s :: s in q.rows ==> q.rows[s].later == (if IsLater(q, s) then 1 else 0))
    && (q.boundary.Some? ==> forall s :: s in q.dequeued ==> s <= q.boundary.value)
  }

  /** Parked rows never occupy capacity owed to old producers that still wait. */
  ghost predicate Reserved(q: Queue) {
    q.boundary.Some? && q.maxsize > 0 && Parked(q) != {} ==>
      |q.rows| + |WaitingOld(q, q.boundary.value)| <= q.maxsize
  }

  ghost predicate Bounded(q: Queue) {
    q.maxsize > 0 ==> |q.rows| <= q.maxsize
  }

  ghost predicate Priorities(q: Queue) {
    forall s :: s in q.rows ==> q.rows[s].priority >= 0
  }

  /** Every admitted sequence is still pending or was acknowledged, forgotten or discarded. */
  ghost predicate Settled(r: Run) {
    && r.admitted == r.q.pending + r.acked + r.forgotten + r.discarded
    && r.q.pending !! (r.acked + r.forgotten + r.discarded)
    && (forall s :: s in r.admitted ==> s <= r.issued)
    && (r.q.boundary.Some? ==> r.q.boundary.value <= r.issued)
  }

  ghost predicate Inv(r: Run) {
    Accounted(r.q) && Parking(r.q) && Reserved(r.q) && Bounded(r.q) && Priorities(r.q) && Settled(r)
  }

  lemma AdmitKeeps(r: Run, s: int)
    requires Inv(r) && s > r.issued
    ensures Inv(Next(r, DoAdmit(s)))
  {
    var q, q' := r.q, Admit(r.q, s);
    assert Waiting(q') == Waiting(q) + {s};
    if q.boundary.Some? {
      assert WaitingOld(q', q.boundary.value) == WaitingOld(q, q.boundary.value);
    }
    assert Parked(q') == Parked(q);
  }

  lemma ForgetKeeps(r: Run, s: int)
    requires Inv(r) && s in Waiting(r.q)
    ensures Inv(Next(r, DoForget(s)))
  {
    var q, q' := r.q, Forget(r.q, s);
    if q.boundary.Some? {
      SubsetSize(WaitingOld(q', q.boundary.value), WaitingOld(q, q.boundary.value));
    }
    assert Parked(q') == Parked(q);
  }

  lemma WaitingAfterPut(q: Queue, priority: int, s: int, event: Event, b: int)
    requires Accounted(q) && s in Waiting(q) && !Refused(q, s)
    ensures var q' := TryPut(q, priority, s, event);
            && Waiting(q') == Waiting(q) - {s}
            && q'.rows.Keys == q.rows.Keys + {s}
            && |q'.rows| == |q.rows| + 1
            && |WaitingOld(q', b)| == |WaitingOld(q, b)| - (if s <= b then 1 else 0)
  {
    var q' := TryPut(q, priority, s, event);
    assert q'.rows.Keys == q.rows.Keys + {s};
    assert q'.pending == q.pending;
    if s <= b {
      assert WaitingOld(q', b) == WaitingOld(q, b) - {s};
    } else {
      assert WaitingOld(q', b) == WaitingOld(q, b);
    }
  }

  lemma PutKeeps(r: Run, priority: int, s: int, event: Event)
    requires Inv(r) && Allowed(r, DoPut(priority, s, event))
    ensures Inv(Next(r, DoPut(priority, s, event)))
  {
    var q := r.q;
    if !Refused(q, s) {
      var q' := TryPut(q, priority, s, event);
      var b := if q.boundary.Some? then q.boundary.value else 0;
      WaitingAfterPut(q, priority, s, event, b);
      assert q'.pending == q.pending;
      if q.boundary.Some? && s <= b {
        assert Parked(q') == Parked(q);
      }
    }
  }

  /** A row handed out is never parked. */
  lemma TakenIsQueued(q: Queue, step: Step)
    requires Taken(q, step).Some?
    ensures Taken(q, step).value in q.rows
    ensures q.rows[Taken(q, step).value].later == 0
    ensures IsHead(q.rows, Taken(q, step).value)
  {
  }

  lemma TakeKeeps(r: Run, step: Step)
    requires Inv(r) && (step.DoGet? || step.DoGetBefore?)
    ensures Inv(Next(r, step))
  {
    var q := r.q;
    var taken := Taken(q, step);
    if taken.Some? {
      TakenIsQueued(q, step);
      var s, q' := taken.value, Take(q, taken);
      assert q'.rows.Keys == q.rows.Keys - {s};
      assert Elements(q'.dequeued) == Elements(q.dequeued) + {s};
      assert Waiting(q') == Waiting(q);
      assert Parked(q') == Parked(q);
      assert s !in Elements(q.dequeued);
    }
  }

  lemma PromoteKeeps(r: Run, mint: string)
    requires Inv(r)
    ensures Inv(Next(r, DoPromote(mint)))
  {
    var q, q' := r.q, Promote(r.q, mint);
    assert q'.rows.Keys == q.rows.Keys;
    assert Waiting(q') == Waiting(q);
    assert Parked(q') == Parked(q);
  }

  lemma FirstReceipt(dequeued: seq<int>)
    requires dequeued != []
    ensures Elements(dequeued) == {dequeued[0]} + Elements(dequeued[1..])
    ensures forall s :: s in dequeued[1..] ==> s in dequeued
  {
    assert dequeued == [dequeued[0]] + dequeued[1..];
  }

  lemma TaskDoneKeeps(r: Run)
    requires Inv(r) && r.q.dequeued != []
    ensures Inv(Next(r, DoTaskDone))
  {
    var q, q' := r.q, TaskDone(r.q);
    FirstReceipt(q.dequeued);
    assert Waiting(q') == Waiting(q);
    assert Parked(q') == Parked(q);
  }

  lemma BoundaryKeeps(r: Run, step: Step)
    requires Inv(r) && Allowed(r, step) && (step.DoBegin? || step.DoEnd?)
    ensures Inv(Next(r, step))
  {
    var q, q' := r.q, Next(r, step).q;
    assert q'.rows.Keys == q.rows.Keys;
    assert Waiting(q') == Waiting(q);
    if step.DoEnd? || q.boundary.None? {
      assert Parked(q') == {};
      forall s | s in q.dequeued ensures s in q.pending {
        assert s in Elements(q.dequeued);
      }
    }
  }

  lemma DiscardKeeps(r: Run)
    requires Inv(r)
    ensures Inv(Next(r, DoDiscard))
  {
  }

  lemma StepKeeps(r: Run, step: Step)
    requires Inv(r) && Allowed(r, step)
    ensures Inv(Next(r, step))
  {
    match step
    case DoAdmit(s) => AdmitKeeps(r, s);
    case DoForget(s) => ForgetKeeps(r, s);
    case DoPut(priority, s, event) => PutKeeps(r, priority, s, event);
    case DoGet => TakeKeeps(r, step);
    case DoGetBefore(_) => TakeKeeps(r, step);
    case DoPromote(mint) => PromoteKeeps(r, mint);
    case DoTaskDone => TaskDoneKeeps(r);
    case DoBegin(_) => BoundaryKeeps(r, step);
    case DoEnd => BoundaryKeeps(r, step);
    case DoDiscard => DiscardKeeps(r);
  }

  lemma {:induction false} RunKeeps(r: Run, steps: seq<Step>)
    requires Inv(r) && Legal(r, steps)
    ensures Inv(Exec(r, steps))
    decreases |steps|
  {
    if steps == [] {
    } else {
      StepKeeps(r, steps[0]);
      RunKeeps(Next(r, steps[0]), steps[1..]);
    }
  }

  ghost predicate Reachable(maxsize: int, steps: seq<Step>, r: Run) {
    Legal(Start(maxsize), steps) && r == Exec(Start(maxsize), steps)
  }

  /**
   * In every reachable state the admitted set is the disjoint union of waiting producers,
   * queued rows and receipts in flight, and asyncio's counter is queued plus in flight,
   * whatever was discarded on the way.
   */
  lemma ReachableAccounting(maxsize: int, steps: seq<Step>, r: Run)
    requires Reachable(maxsize, steps, r)
    ensures Inv(r)
    ensures r.q.pending == Waiting(r.q) + r.q.rows.Keys + Elements(r.q.dequeued)
    ensures Waiting(r.q) !! r.q.rows.Keys && Waiting(r.q) !! Elements(r.q.dequeued)
    ensures r.q.rows.Keys !! Elements(r.q.dequeued)
    ensures r.q.unfinished == |r.q.rows| + |Elements(r.q.dequeued)|
    ensures r.q.maxsize > 0 ==> |r.q.rows| <= r.q.maxsize
  {
    RunKeeps(Start(maxsize), steps);
    DistinctSize(r.q.dequeued);
  }

  // ---------------------------------------------------------------- isolation

  /** Between the start and the end of a boundary nothing above it is handed out. */
  lemma SeasonIsolation(maxsize: int, steps: seq<Step>, r: Run, step: Step)
    requires Reachable(maxsize, steps, r)
    requires r.q.boundary.Some? && Taken(r.q, step).Some?
    ensures Taken(r.q, step).value <= r.q.boundary.value
  {
    RunKeeps(Start(maxsize), steps);
    TakenIsQueued(r.q, step);
  }

  /** The boundary is ready exactly when everything admitted at or below it is settled. */
  lemma ReadyExactly(maxsize: int, steps: seq<Step>, r: Run)
    requires Reachable(maxsize, steps, r) && r.q.boundary.Some?
    ensures Ready(r.q) <==>
            forall s :: s in r.admitted && s <= r.q.boundary.value ==>
              s in r.acked + r.forgotten + r.discarded
  {
    RunKeeps(Start(maxsize), steps);
    forall s | s in r.q.pending ensures s in r.admitted && s !in r.acked + r.forgotten + r.discarded {
    }
  }

  // ---------------------------------------------------------------- drain

  ghost function Work(q: Queue, b: int): nat {
    3 * |WaitingOld(q, b)| + 2 * |QueuedOld(q, b)| + |q.dequeued|
  }

  /** A step that moves old work forward: an old put, an old get, or an acknowledgement. */
  ghost predicate Drains(r: Run, step: Step) {
    && r.q.boundary.Some?
    && match step
       case DoPut(_, s, _) => s in WaitingOld(r.q, r.q.boundary.value) && !Refused(r.q, s)
       case DoForget(s) => s in WaitingOld(r.q, r.q.boundary.value)
       case DoGet => Taken(r.q, step).Some?
       case DoGetBefore(_) => Taken(r.q, step).Some?
       case DoTaskDone => r.q.dequeued != []
       case _ => false
  }

  ghost predicate KeepsBoundary(step: Step) {
    !step.DoEnd? && !step.DoDiscard?
  }

  lemma PutDrains(r: Run, priority: int, s: int, event: Event)
    requires Inv(r) && Allowed(r, DoPut(priority, s, event)) && r.q.boundary.Some?
    ensures var b := r.q.boundary.value;
            Work(Next(r, DoPut(priority, s, event)).q, b)
            == Work(r.q, b) - (if Drains(r, DoPut(priority, s, event)) then 1 else 0)
  {
    var q, b := r.q, r.q.boundary.value;
    if !Refused(q, s) {
      var q' := TryPut(q, priority, s, event);
      WaitingAfterPut(q, priority, s, event, b);
      if s <= b {
        assert QueuedOld(q', b) == QueuedOld(q, b) + {s};
      } else {
        assert QueuedOld(q', b) == QueuedOld(q, b);
      }
    }
  }

  lemma TakeDrains(r: Run, step: Step)
    requires Inv(r) && (step.DoGet? || step.DoGetBefore?) && r.q.boundary.Some?
    ensures var b := r.q.boundary.value;
            Work(Next(r, step).q, b) == Work(r.q, b) - (if Drains(r, step) then 1 else 0)
  {
    var q, b := r.q, r.q.boundary.value;
    var taken := Taken(q, step);
    if taken.Some? {
      TakenIsQueued(q, step);
      var s, q' := taken.value, Take(q, taken);
      assert q'.rows.Keys == q.rows.Keys - {s};
      assert Elements(q'.dequeued) == Elements(q.dequeued) + {s};
      assert Waiting(q') == Waiting(q);
      assert QueuedOld(q', b) == QueuedOld(q, b) - {s};
    }
  }

  lemma ProducerDrains(r: Run, step: Step)
    requires Inv(r) && Allowed(r, step) && r.q.boundary.Some? && (step.DoAdmit? || step.DoForget?)
    ensures var b := r.q.boundary.value;
            Work(Next(r, step).q, b) == Work(r.q, b) - (if Drains(r, step) then 3 else 0)
  {
    var q, q', b, s := r.q, Next(r, step).q, r.q.boundary.value, step.s;
    if step.DoForget? && s <= b {
      assert WaitingOld(q', b) == WaitingOld(q, b) - {s};
    } else {
      assert WaitingOld(q', b) == WaitingOld(q, b);
    }
  }

  lemma TaskDoneDrains(r: Run)
    requires Inv(r) && r.q.dequeued != [] && r.q.boundary.Some?
    ensures var b := r.q.boundary.value;
            Work(Next(r, DoTaskDone).q, b) == Work(r.q, b) - 1
  {
    FirstReceipt(r.q.dequeued);
    assert Waiting(TaskDone(r.q)) == Waiting(r.q);
  }

  lemma PromoteDrains(r: Run, mint: string)
    requires r.q.boundary.Some?
    ensures Work(Next(r, DoPromote(mint)).q, r.q.boundary.value) == Work(r.q, r.q.boundary.value)
  {
    assert Promote(r.q, mint).rows.Keys == r.q.rows.Keys;
  }

  /**
   * While a boundary is active, every drain step lowers the remaining old work and no
   * other step raises it; in particular parked arrivals leave it unchanged.
   */
  lemma DrainMeasure(r: Run, step: Step)
    requires Inv(r) && Allowed(r, step) && r.q.boundary.Some? && KeepsBoundary(step)
    ensures Next(r, step).q.boundary == r.q.boundary
    ensures var b := r.q.boundary.value;
            && (Drains(r, step) ==> Work(Next(r, step).q, b) < Work(r.q, b))
            && (!Drains(r, step) ==> Work(Next(r, step).q, b) == Work(r.q, b))
  {
    match step
    case DoAdmit(s) => ProducerDrains(r, step);
    case DoForget(s) => ProducerDrains(r, step);
    case DoPut(priority, s, event) => PutDrains(r, priority, s, event);
    case DoGet => TakeDrains(r, step);
    case DoGetBefore(_) => TakeDrains(r, step);
    case DoPromote(mint) => PromoteDrains(r, mint);
    case DoTaskDone => TaskDoneDrains(r);
    case DoBegin(_) =>
  }

  /** A boundary that is not ready always has an enabled drain step: no deadlock. */
  lemma DrainEnabled(r: Run, event: Event) returns (step: Step)
    requires Inv(r) && r.q.boundary.Some? && !Ready(r.q)
    ensures Allowed(r, step) && KeepsBoundary(step) && Drains(r, step)
  {
    var q, b := r.q, r.q.boundary.value;
    var stuck :| stuck in q.pending && stuck <= b;
    if q.dequeued != [] {
      step := DoTaskDone;
    } else if stuck in q.rows {
      step := DoGet;
      var head := Head(q.rows);
      assert q.rows[head].later == 0;
    } else {
      step := DoPut(0, stuck, event);
      assert stuck in WaitingOld(q, b);
      if QueuedOld(q, b) != {} {
        var s := Pick(QueuedOld(q, b));
        step := DoGet;
        assert q.rows[Head(q.rows)].later == 0;
      } else if q.rows != map[] {
        var s := Pick(q.rows.Keys);
        assert s !in QueuedOld(q, b);
        assert s in Parked(q);
        SubsetSize({stuck}, WaitingOld(q, b));
      }
    }
  }

  ghost function CountDrains(r: Run, steps: seq<Step>): nat
    decreases |steps|
  {
    if steps == [] then 0
    else (if Drains(r, steps[0]) then 1 else 0) + CountDrains(Next(r, steps[0]), steps[1..])
  }

  /** However many new events arrive, a boundary takes at most its initial old work to drain. */
  lemma {:induction false} DrainBound(r: Run, steps: seq<Step>)
    requires Inv(r) && Legal(r, steps) && r.q.boundary.Some?
    requires forall step :: step in steps ==> KeepsBoundary(step)
    ensures Exec(r, steps).q.boundary == r.q.boundary
    ensures Work(Exec(r, steps).q, r.q.boundary.value) + CountDrains(r, steps)
            <= Work(r.q, r.q.boundary.value)
    decreases |steps|
  {
    if steps == [] {
    } else {
      DrainMeasure(r, steps[0]);
      StepKeeps(r, steps[0]);
      DrainBound(Next(r, steps[0]), steps[1..]);
    }
  }

  /** From every state of an active boundary a finite schedule of drain steps makes it ready. */
  lemma {:induction false} DrainCompletes(r: Run, event: Event) returns (steps: seq<Step>)
    requires Inv(r) && r.q.boundary.Some?
    ensures Legal(r, steps) && Ready(Exec(r, steps).q)
    ensures Exec(r, steps).q.boundary == r.q.boundary
    ensures |steps| <= Work(r.q, r.q.boundary.value)
    decreases Work(r.q, r.q.boundary.value)
  {
    if Ready(r.q) {
      steps := [];
    } else {
      var step := DrainEnabled(r, event);
      DrainMeasure(r, step);
      StepKeeps(r, step);
      var rest := DrainCompletes(Next(r, step), event);
      steps := [step] + rest;
      assert steps[1..] == rest;
    }
  }

  // ---------------------------------------------------------------- promotion

  /** Rows of the mint queued when it was promoted. */
  ghost function OfMint(q: Queue, mint: string): set<int> {
    set s | s in q.rows && q.rows[s].event.mint == mint
  }

  /** Promoted rows still queued keep priority zero and their mint; none can be put again. */
  ghost predicate StillPromoted(q: Queue, mint: string, promoted: set<int>) {
    && promoted !! Waiting(q)
    && forall s :: s in promoted && s in q.rows ==>
         q.rows[s].priority == 0 && q.rows[s].event.mint == mint
  }

  lemma PromotedStep(r: Run, step: Step, mint: string, promoted: set<int>)
    requires Inv(r) && Allowed(r, step) && StillPromoted(r.q, mint, promoted)
    requires promoted <= r.admitted
    ensures StillPromoted(Next(r, step).q, mint, promoted)
    ensures promoted <= Next(r, step).admitted
  {
    var q, q' := r.q, Next(r, step).q;
    match step
    case DoTaskDone =>
      FirstReceipt(q.dequeued);
    case DoGet => if Taken(q, step).Some? {
      TakenIsQueued(q, step);
      assert Elements(q'.dequeued) == Elements(q.dequeued) + {Taken(q, step).value};
    }
    case DoGetBefore(_) => if Taken(q, step).Some? {
      TakenIsQueued(q, step);
      assert Elements(q'.dequeued) == Elements(q.dequeued) + {Taken(q, step).value};
    }
    case _ =>
  }

  lemma {:induction false} PromotedRun(r: Run, steps: seq<Step>, mint: string, promoted: set<int>)
    requires Inv(r) && Legal(r, steps) && StillPromoted(r.q, mint, promoted)
    requires promoted <= r.admitted
    ensures StillPromoted(Exec(r, steps).q, mint, promoted)
    decreases |steps|
  {
    if steps == [] {
    } else {
      PromotedStep(r, steps[0], mint, promoted);
      StepKeeps(r, steps[0]);
      PromotedRun(Next(r, steps[0]), steps[1..], mint, promoted);
    }
  }

  /**
   * Rows of a mint that were queued when it was promoted leave in sequence order and ahead
   * of every later-numbered row of that mint, across any boundary begun or ended since.
   */
  lemma PromotionOrder(r: Run, mint: string, steps: seq<Step>, take: Step)
    requires Inv(r) && Legal(Next(r, DoPromote(mint)), steps)
    requires var late := Exec(Next(r, DoPromote(mint)), steps).q;
             Taken(late, take).Some? && late.rows[Taken(late, take).value].event.mint == mint
    ensures var late := Exec(Next(r, DoPromote(mint)), steps).q;
            forall s :: s in OfMint(r.q, mint) && s < Taken(late, take).value ==> s !in late.rows
  {
    var start := Next(r, DoPromote(mint));
    var promoted := OfMint(r.q, mint);
    PromoteKeeps(r, mint);
    PromotedRun(start, steps, mint, promoted);
    RunKeeps(start, steps);
    var late := Exec(start, steps).q;
    TakenIsQueued(late, take);
  }

  // ---------------------------------------------------------------- service

  /**
   * In any reachable state a waiting producer's put leaves its row in the queue exactly when the
   * queue is unbounded, or has a free place that is not owed to an old producer still waiting
   * at the boundary; the row keeps what was put and every other row is untouched.
   */
  lemma PutSucceedsExactly(maxsize: int, steps: seq<Step>, r: Run, priority: int, s: int, event: Event)
    requires Reachable(maxsize, steps, r) && Allowed(r, DoPut(priority, s, event))
    ensures var q, after := r.q, Next(r, DoPut(priority, s, event)).q;
            && q.maxsize == maxsize && s !in q.rows
            && (s in after.rows <==>
                  || maxsize <= 0
                  || (|q.rows| < maxsize &&
                      (q.boundary.Some? ==>
                         || s <= q.boundary.value
                         || |q.rows| + |set w | w in q.pending && w !in q.rows && w !in q.dequeued
                                                && w <= q.boundary.value| < maxsize)))
            && (s in after.rows ==> after.rows[s].priority == priority && after.rows[s].event == event)
            && after.rows - {s} == q.rows
  {
    SizeStays(Start(maxsize), steps);
    HasPlaceExactly(r.q, s);
    var after := Next(r, DoPut(priority, s, event)).q;
    assert after.rows - {s} == r.q.rows;
  }

  lemma HasPlaceExactly(q: Queue, s: int)
    ensures !Refused(q, s) <==>
              || q.maxsize <= 0
              || (|q.rows| < q.maxsize &&
                  (q.boundary.Some? ==>
                     || s <= q.boundary.value
                     || |q.rows| + |set w | w in q.pending && w !in q.rows && w !in q.dequeued
                                            && w <= q.boundary.value| < q.maxsize))
  {
    if q.boundary.Some? {
      assert WaitingOld(q, q.boundary.value)
          == set w | w in q.pending && w !in q.rows && w !in q.dequeued && w <= q.boundary.value;
    }
  }

  lemma {:induction false} SizeStays(r: Run, steps: seq<Step>)
    ensures Exec(r, steps).q.maxsize == r.q.maxsize
    decreases |steps|
  {
    if steps != [] {
      SizeStays(Next(r, steps[0]), steps[1..]);
    }
  }

  /** The row may leave now: it is not above an active boundary. */
  predicate Current(q: Queue, s: int) {
    s in q.rows && (q.boundary.Some? ==> s <= q.boundary.value)
  }

  /** By priority, then by admission. */
  ghost predicate NoneSooner(q: Queue, s: int) {
    Current(q, s) &&
    forall t :: Current(q, t) ==>
      q.rows[s].priority < q.rows[t].priority || (q.rows[s].priority == q.rows[t].priority && s <= t)
  }

  /**
   * In any reachable state a get hands out a row exactly when some queued row is not above an
   * active boundary, and then the one of least priority number, the oldest among equals; a
   * get-before does so exactly when such a row is below its priority.
   */
  lemma GetServesExactly(maxsize: int, steps: seq<Step>, r: Run, urgency: int)
    requires Reachable(maxsize, steps, r)
    ensures Taken(r.q, DoGet).Some? <==> exists s :: Current(r.q, s)
    ensures Taken(r.q, DoGet).Some? ==> NoneSooner(r.q, Taken(r.q, DoGet).value)
    ensures Taken(r.q, DoGetBefore(urgency)).Some? <==> exists s :: Current(r.q, s) && r.q.rows[s].priority < urgency
    ensures Taken(r.q, DoGetBefore(urgency)).Some? ==> Taken(r.q, DoGetBefore(urgency)) == Taken(r.q, DoGet)
  {
    RunKeeps(Start(maxsize), steps);
    var q := r.q;
    if q.rows != map[] {
      var head := Head(q.rows);
      forall t | Current(q, t) ensures NoneSooner(q, head) {
        assert q.rows[t].later == 0 && (t != head ==> Before(q.rows[head], head, q.rows[t], t));
      }
      assert q.rows[head].later == 0 ==> Current(q, head);
    }
  }

  /** A promotion makes the queued rows of its mint critical and touches nothing else. */
  lemma PromotionExactly(maxsize: int, steps: seq<Step>, r: Run, mint: string)
    requires Reachable(maxsize, steps, r)
    ensures var after := Next(r, DoPromote(mint)).q;
            && after.(rows := r.q.rows) == r.q && after.rows.Keys == r.q.rows.Keys
            && (forall s :: s in r.q.rows && r.q.rows[s].event.mint != mint ==> after.rows[s] == r.q.rows[s])
            && (forall s :: s in r.q.rows && r.q.rows[s].event.mint == mint ==>
                  after.rows[s] == r.q.rows[s].(priority := 0))
  {
    RunKeeps(Start(maxsize), steps);
  }

  /** A boundary takes in everything admitted so far; a second one changes nothing while the first is active. */
  lemma BeginExactly(maxsize: int, steps: seq<Step>, r: Run, s: int)
    requires Reachable(maxsize, steps, r) && Allowed(r, DoBegin(s))
    ensures var begun := Next(r, DoBegin(s)).q;
            if r.q.boundary.Some? then begun == r.q
            else
              && begun.boundary.Some? && (forall t :: t in r.admitted ==> t <= begun.boundary.value)
              && SameRows(begun, r.q) && (forall t :: t in begun.rows ==> Current(begun, t))
              && begun.(rows := r.q.rows, boundary := None) == r.q
  {
    RunKeeps(Start(maxsize), steps);
  }

  /** The same rows, parked or not. */
  predicate SameRows(a: Queue, b: Queue) {
    a.rows.Keys == b.rows.Keys && forall s :: s in a.rows ==> a.rows[s].(later := 0) == b.rows[s].(later := 0)
  }

  /** After the end of a boundary every queued row may leave. */
  lemma EndExactly(r: Run)
    ensures var ended := Next(r, DoEnd).q;
            && ended.boundary.None? && SameRows(ended, r.q)
            && (forall t :: t in ended.rows ==> ended.rows[t].later == 0)
            && ended.(rows := r.q.rows, boundary := r.q.boundary) == r.q
  {
  }

  /** A discard forgets boundary and queued rows; what is in flight or still waiting stays. */
  lemma DiscardExactly(maxsize: int, steps: seq<Step>, r: Run)
    requires Reachable(maxsize, steps, r)
    ensures var empty := Next(r, DoDiscard).q;
            && empty.boundary.None? && empty.rows == map[] && empty.dequeued == r.q.dequeued
            && Waiting(empty) == Waiting(r.q) && empty.unfinished == |r.q.dequeued|
  {
    RunKeeps(Start(maxsize), steps);
  }
}
