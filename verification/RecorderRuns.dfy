/** Every run of the diagnostics recorder: conservation, bounds and what may be displaced. */
module RecorderRuns {
  import opened Common
  import opened RecorderModel

  datatype Run = Run(r: Recorder, submitted: seq<Event>, handed: seq<seq<Event>>)

  datatype Step =
    | DoSubmit(event: Event, encodes: bool)
    | DoPublish(items: seq<Item>)
    | DoOptional(index: nat, event: Event)
    | DoCollect(encodes: bool)
    | DoFlush(accepted: bool)
    | DoStop

  function Begin(): Run {
    Run(Fresh(), [], [])
  }

  /**
   * Optional reports use free slots or replace an earlier report of their own stream;
   * their stream keys never name a protected kind.
   */
  predicate Allowed(run: Run, step: Step) {
    step.DoOptional? ==>
      !Protected(step.event) && step.index <= |run.r.events|
      && (if step.index < |run.r.events| then !Protected(run.r.events[step.index])
          else |run.r.events| < EVENT_SLOTS)
  }

  function Next(run: Run, step: Step): Run
    requires Allowed(run, step)
  {
    var r := run.r;
    match step
    case DoSubmit(e, encodes) => run.(r := Submit(r, e, encodes), submitted := run.submitted + [e])
    case DoPublish(items) => run.(r := Publish(r, items), submitted := run.submitted + EventsOf(items))
    case DoOptional(i, e) =>
      run.(r := r.(events := if i < |r.events| then r.events[i := e] else r.events + [e]))
    case DoCollect(encodes) => run.(r := Collect(r, encodes))
    case DoFlush(accepted) =>
      if accepted && r.queue != []
      then run.(r := r.(queue := r.queue[1..]), handed := run.handed + [r.queue[0]]) else run
    case DoStop => run.(r := Stop(r))
  }

  predicate Legal(run: Run, steps: seq<Step>)
    decreases |steps|
  {
    steps == [] || (Allowed(run, steps[0]) && Legal(Next(run, steps[0]), steps[1..]))
  }

  function Exec(run: Run, steps: seq<Step>): Run
    requires Legal(run, steps)
    decreases |steps|
  {
    if steps == [] then run else Exec(Next(run, steps[0]), steps[1..])
  }

  // ---------------------------------------------------------------- counting

  lemma {:induction false} CountConcat(a: seq<Event>, b: seq<Event>, c: Category)
    ensures Count(a + b, c) == Count(a, c) + Count(b, c)
  {
    if a == [] {
      assert a + b == b;
    } else {
      CountConcat(a[1..], b, c);
      assert (a + b)[1..] == a[1..] + b;
    }
  }

  lemma CountOne(e: Event, c: Category)
    ensures Count([e], c) == Weight(e, c)
  {
  }

  lemma CountPush(e: Event, es: seq<Event>, c: Category)
    ensures Count([e] + es, c) == Weight(e, c) + Count(es, c)
  {
    assert ([e] + es)[1..] == es;
  }

  lemma {:induction false} CountDrop(s: seq<Event>, i: nat, c: Category)
    requires i < |s|
    ensures Count(s, c) == Count(Drop(s, i), c) + Weight(s[i], c)
  {
    if i == 0 {
      assert Drop(s, 0) == s[1..];
    } else {
      CountDrop(s[1..], i - 1, c);
      assert Drop(s, i)[1..] == Drop(s[1..], i - 1);
    }
  }

  lemma CountAppend(s: seq<Event>, e: Event, c: Category)
    ensures Count(s + [e], c) == Count(s, c) + Weight(e, c)
  {
    CountConcat(s, [e], c);
    CountOne(e, c);
  }

  lemma {:induction false} AllConcat(a: seq<seq<Event>>, b: seq<seq<Event>>, c: Category)
    ensures CountAll(a + b, c) == CountAll(a, c) + CountAll(b, c)
  {
    if a == [] {
      assert a + b == b;
    } else {
      AllConcat(a[1..], b, c);
      assert (a + b)[1..] == a[1..] + b;
    }
  }

  lemma AllAppend(groups: seq<seq<Event>>, g: seq<Event>, c: Category)
    ensures CountAll(groups + [g], c) == CountAll(groups, c) + Count(g, c)
  {
    AllConcat(groups, [g], c);
    assert [g][1..] == [];
  }

  /** Removing one group from a list of groups removes exactly its events. */
  lemma {:induction false} AllDrop(groups: seq<seq<Event>>, i: nat, c: Category)
    requires i < |groups|
    ensures CountAll(groups, c) == CountAll(Drop(groups, i), c) + Count(groups[i], c)
  {
    if i == 0 {
      assert Drop(groups, 0) == groups[1..];
    } else {
      AllDrop(groups[1..], i - 1, c);
      assert Drop(groups, i)[1..] == Drop(groups[1..], i - 1);
    }
  }

  lemma {:induction false} FlattenCounts(groups: seq<seq<Event>>, c: Category)
    ensures Count(Flatten(groups), c) == CountAll(groups, c)
  {
    if groups == [] {
    } else {
      FlattenCounts(groups[1..], c);
      CountConcat(groups[0], Flatten(groups[1..]), c);
    }
  }

  lemma {:induction false} ChosenSplits(items: seq<Item>, c: Category)
    ensures Count(EventsOf(items), c) == Count(Chosen(items, true), c) + Count(Chosen(items, false), c)
  {
    if items == [] {
    } else {
      var e := EventOf(items[0]);
      ChosenSplits(items[1..], c);
      CountConcat([e], EventsOf(items[1..]), c);
      CountConcat([e], Chosen(items[1..], Retained(items[0])), c);
    }
  }

  lemma {:induction false} ChosenAreProtected(items: seq<Item>)
    ensures |Chosen(items, true)| <= |items|
    ensures forall e :: e in Chosen(items, true) ==> Protected(e)
  {
    if items == [] {
    } else {
      ChosenAreProtected(items[1..]);
    }
  }

  lemma {:induction false} EventsOfAre(items: seq<Item>)
    ensures |EventsOf(items)| == |items|
    ensures forall i :: 0 <= i < |items| ==> EventsOf(items)[i] == EventOf(items[i])
  {
    if items != [] {
      EventsOfAre(items[1..]);
    }
  }

  lemma EventsOfConcat(a: seq<Item>, b: seq<Item>)
    ensures EventsOf(a + b) == EventsOf(a) + EventsOf(b)
  {
    EventsOfAre(a);
    EventsOfAre(b);
    EventsOfAre(a + b);
  }

  /** One pick moves one event out of the list. */
  lemma PickStep(es: seq<Event>, room: nat, c: Category)
    requires es != [] && room > 0
    ensures var i := NextEvent(es);
            var (picked, left) := PickEvents(Drop(es, i), room - 1);
            && Count(PickEvents(es, room).0, c) == Weight(es[i], c) + Count(picked, c)
            && PickEvents(es, room).1 == left
            && Count(es, c) == Count(Drop(es, i), c) + Weight(es[i], c)
  {
    var i := NextEvent(es);
    CountDrop(es, i, c);
    CountPush(es[i], PickEvents(Drop(es, i), room - 1).0, c);
  }

  lemma {:induction false} PickConserves(es: seq<Event>, room: nat, c: Category)
    ensures Count(PickEvents(es, room).0, c) + Count(PickEvents(es, room).1, c) == Count(es, c)
    decreases room
  {
    if es == [] || room == 0 {
    } else {
      PickStep(es, room, c);
      PickConserves(Drop(es, NextEvent(es)), room - 1, c);
    }
  }

  lemma {:induction false} PickFits(es: seq<Event>, room: nat)
    ensures |PickEvents(es, room).0| <= room && |PickEvents(es, room).1| <= |es|
    decreases room
  {
    if es != [] && room > 0 {
      PickFits(Drop(es, NextEvent(es)), room - 1);
    }
  }

  lemma {:induction false} GroupsFit(publications: seq<seq<Event>>, used: nat)
    requires used <= GROUP_EVENTS
    ensures used + |Flatten(publications[..FittingGroups(publications, used)])| <= GROUP_EVENTS
  {
    var n := FittingGroups(publications, used);
    if n > 0 {
      var first, rest := publications[0], publications[1..];
      GroupsFit(rest, used + |first|);
      assert publications[..n][1..] == rest[..n - 1];
    }
  }

  lemma GroupsSplit(publications: seq<seq<Event>>, n: nat, c: Category)
    requires n <= |publications|
    ensures CountAll(publications, c) == Count(Flatten(publications[..n]), c) + CountAll(publications[n..], c)
  {
    assert publications == publications[..n] + publications[n..];
    AllConcat(publications[..n], publications[n..], c);
    FlattenCounts(publications[..n], c);
  }

  function Grouped(r: Recorder): seq<Event> {
    Flatten(r.publications[..FittingGroups(r.publications, 0)])
  }

  function Room(r: Recorder): nat {
    if |Grouped(r)| < EVENT_SLOTS then EVENT_SLOTS - |Grouped(r)| else 0
  }

  /** A selection, spelled out. */
  lemma SelectParts(r: Recorder)
    ensures Select(r).selected == Grouped(r) + PickEvents(r.events, Room(r)).0
    ensures Select(r).publications == r.publications[FittingGroups(r.publications, 0)..]
    ensures Select(r).events == PickEvents(r.events, Room(r)).1
  {
  }

  /** A selection moves events between the waiting lists and the record, losing none. */
  lemma SelectConserves(r: Recorder, c: Category)
    ensures var s := Select(r);
            Count(s.selected, c) + CountAll(s.publications, c) + Count(s.events, c)
            == CountAll(r.publications, c) + Count(r.events, c)
  {
    SelectParts(r);
    GroupsSplit(r.publications, FittingGroups(r.publications, 0), c);
    PickConserves(r.events, Room(r), c);
    CountConcat(Grouped(r), PickEvents(r.events, Room(r)).0, c);
  }

  lemma SelectFits(r: Recorder)
    ensures |Select(r).selected| <= EVENT_SLOTS && |Select(r).events| <= |r.events|
  {
    GroupsFit(r.publications, 0);
    SelectParts(r);
    PickFits(r.events, Room(r));
  }

  // ---------------------------------------------------------------- invariant

  predicate Bounded(r: Recorder) {
    && |r.events| <= EVENT_SLOTS
    && |r.publications| <= GROUPS
    && (forall g :: g in r.publications ==> 0 < |g| <= GROUP_EVENTS && forall e :: e in g ==> Protected(e))
    && |r.queue| <= INTERVALS
    && (forall q :: q in r.queue ==> |q| <= EVENT_SLOTS)
  }

  predicate Guarded(c: Category) {
    c.TrainingCategory? || c.ProofCategory?
  }

  /** Events still waiting in the recorder, or lost before they were collected. */
  function Waiting(r: Recorder, c: Category): nat {
    Count(r.events, c) + CountAll(r.publications, c) + Of(r.lostEvents, c)
  }

  /** Events inside collected intervals that are queued or were lost in the handoff. */
  function Collected(r: Recorder, c: Category): nat {
    CountAll(r.queue, c) + Of(r.lostHandoff, c)
  }

  /** Everything of a category that was submitted, wherever it is now. */
  function Located(run: Run, c: Category): nat {
    Waiting(run.r, c) + Collected(run.r, c) + CountAll(run.handed, c)
  }

  predicate Conserved(run: Run) {
    forall c: Category :: Guarded(c) ==> Count(run.submitted, c) == Located(run, c)
  }

  lemma LoseCounts(r: Recorder, es: seq<Event>, c: Category)
    ensures Of(Lose(r, es).lostEvents, c) == Of(r.lostEvents, c) + Count(es, c)
  {
  }

  lemma SubmitConserves(r: Recorder, e: Event, encodes: bool, c: Category)
    ensures Waiting(Submit(r, e, encodes), c) == Waiting(r, c) + Weight(e, c)
  {
    CountOne(e, c);
    CountAppend(r.events, e, c);
    if |r.events| >= EVENT_SLOTS {
      var open := FirstOpen(r.events);
      var victim := if open == |r.events| then 0 else open;
      CountDrop(r.events, victim, c);
      CountAppend(Drop(r.events, victim), e, c);
      CountOne(r.events[victim], c);
    }
  }

  lemma ItemsSplit(items: seq<Item>, c: Category)
    ensures Count(EventsOf(items), c)
            == Count(Chosen(Head(items), true), c) + Count(Chosen(Head(items), false), c)
               + Count(EventsOf(Tail(items)), c)
  {
    assert items == Head(items) + Tail(items);
    EventsOfConcat(Head(items), Tail(items));
    CountConcat(EventsOf(Head(items)), EventsOf(Tail(items)), c);
    ChosenSplits(Head(items), c);
  }

  lemma GroupJoins(publications: seq<seq<Event>>, group: seq<Event>, c: Category)
    ensures CountAll(publications + [group], c) == CountAll(publications, c) + Count(group, c)
    ensures publications != [] ==>
              CountAll(publications[1..] + [group], c) + Count(publications[0], c)
              == CountAll(publications, c) + Count(group, c)
  {
    AllAppend(publications, group, c);
    if publications != [] {
      AllAppend(publications[1..], group, c);
    }
  }

  lemma PublishConserves(r: Recorder, items: seq<Item>, c: Category)
    ensures Waiting(Publish(r, items), c) == Waiting(r, c) + Count(EventsOf(items), c)
  {
    var dropped, over, group := Chosen(Head(items), false), EventsOf(Tail(items)), Chosen(Head(items), true);
    ItemsSplit(items, c);
    LoseCounts(r, dropped, c);
    LoseCounts(Lose(r, dropped), over, c);
    GroupJoins(r.publications, group, c);
    if group != [] && |r.publications| == GROUPS {
      LoseCounts(Lose(Lose(r, dropped), over), r.publications[0], c);
    }
  }

  lemma CountedAll(interval: seq<Event>, counters: Counters, c: Category)
    requires |interval| <= EVENT_SLOTS
    ensures Of(AddInterval(counters, interval), c) == Of(counters, c) + Count(interval, c)
  {
  }

  lemma EnqueueConserves(r: Recorder, interval: seq<Event>, c: Category)
    requires |interval| <= EVENT_SLOTS && forall q :: q in r.queue ==> |q| <= EVENT_SLOTS
    ensures Collected(Enqueue(r, interval), c) == Collected(r, c) + Count(interval, c)
  {
    AllAppend(r.queue, interval, c);
    CountedAll(interval, r.lostHandoff, c);
    if |r.queue| >= INTERVALS {
      var open := FirstOpenInterval(r.queue);
      var victim := if open == |r.queue| then 0 else open;
      AllDrop(r.queue, victim, c);
      AllAppend(Drop(r.queue, victim), interval, c);
      CountedAll(r.queue[victim], r.lostHandoff, c);
    }
  }

  lemma CollectConserves(r: Recorder, encodes: bool, c: Category)
    requires Bounded(r)
    ensures Waiting(Collect(r, encodes), c) + Collected(Collect(r, encodes), c) == Waiting(r, c) + Collected(r, c)
  {
    if encodes {
      var s := Select(r);
      SelectConserves(r, c);
      SelectFits(r);
      EnqueueConserves(r.(publications := s.publications, events := s.events), s.selected, c);
    }
  }

  lemma {:induction false} AddIntervalsCounts(counters: Counters, queue: seq<seq<Event>>, c: Category)
    requires forall q :: q in queue ==> |q| <= EVENT_SLOTS
    ensures Of(AddIntervals(counters, queue), c) == Of(counters, c) + CountAll(queue, c)
    decreases |queue|
  {
    if queue == [] {
    } else {
      CountedAll(queue[0], counters, c);
      AddIntervalsCounts(AddInterval(counters, queue[0]), queue[1..], c);
    }
  }

  lemma StopConserves(r: Recorder, c: Category)
    requires Bounded(r)
    ensures Waiting(Stop(r), c) + Collected(Stop(r), c) == Waiting(r, c) + Collected(r, c)
  {
    FlattenCounts(r.publications, c);
    CountConcat(Flatten(r.publications), r.events, c);
    LoseCounts(r, Flatten(r.publications) + r.events, c);
    AddIntervalsCounts(r.lostHandoff, r.queue, c);
  }

  lemma OptionalConserves(es: seq<Event>, i: nat, e: Event, c: Category)
    requires i <= |es| && !Protected(e) && (i < |es| ==> !Protected(es[i])) && Guarded(c)
    ensures Count(if i < |es| then es[i := e] else es + [e], c) == Count(es, c)
  {
    if i < |es| {
      CountDrop(es, i, c);
      CountDrop(es[i := e], i, c);
      assert Drop(es[i := e], i) == Drop(es, i);
    } else {
      CountAppend(es, e, c);
    }
  }

  // ---------------------------------------------------------------- bounds

  lemma SubmitFits(r: Recorder, e: Event, encodes: bool)
    requires Bounded(r)
    ensures Bounded(Submit(r, e, encodes))
  {
  }

  lemma PublishFits(r: Recorder, items: seq<Item>)
    requires Bounded(r)
    ensures Bounded(Publish(r, items))
  {
    ChosenAreProtected(Head(items));
  }

  lemma CollectFits(r: Recorder, encodes: bool)
    requires Bounded(r)
    ensures Bounded(Collect(r, encodes))
  {
    SelectFits(r);
  }

  lemma StepFits(run: Run, step: Step)
    requires Bounded(run.r) && Allowed(run, step)
    ensures Bounded(Next(run, step).r)
  {
    match step
    case DoSubmit(e, encodes) => SubmitFits(run.r, e, encodes);
    case DoPublish(items) => PublishFits(run.r, items);
    case DoCollect(encodes) => CollectFits(run.r, encodes);
    case _ =>
  }

  lemma FlushConserves(run: Run, accepted: bool, c: Category)
    ensures Located(Next(run, DoFlush(accepted)), c) == Located(run, c)
  {
    if accepted && run.r.queue != [] {
      AllAppend(run.handed, run.r.queue[0], c);
    }
  }

  /** A step moves events about, or adds the submitted ones; it never makes any disappear. */
  predicate Balanced(run: Run, step: Step, c: Category)
    requires Allowed(run, step)
  {
    Located(Next(run, step), c) + Count(run.submitted, c) == Located(run, c) + Count(Next(run, step).submitted, c)
  }

  lemma SubmitStep(run: Run, e: Event, encodes: bool, c: Category)
    ensures Balanced(run, DoSubmit(e, encodes), c)
  {
    SubmitConserves(run.r, e, encodes, c);
    CountAppend(run.submitted, e, c);
  }

  lemma PublishStep(run: Run, items: seq<Item>, c: Category)
    ensures Balanced(run, DoPublish(items), c)
  {
    PublishConserves(run.r, items, c);
    CountConcat(run.submitted, EventsOf(items), c);
  }

  lemma OptionalStep(run: Run, i: nat, e: Event, c: Category)
    requires Allowed(run, DoOptional(i, e)) && Guarded(c)
    ensures Balanced(run, DoOptional(i, e), c)
  {
    OptionalConserves(run.r.events, i, e, c);
  }

  lemma StepConserves(run: Run, step: Step, c: Category)
    requires Bounded(run.r) && Allowed(run, step) && Guarded(c)
    ensures Balanced(run, step, c)
  {
    match step
    case DoSubmit(e, encodes) => SubmitStep(run, e, encodes, c);
    case DoPublish(items) => PublishStep(run, items, c);
    case DoOptional(i, e) => OptionalStep(run, i, e, c);
    case DoCollect(encodes) => CollectConserves(run.r, encodes, c);
    case DoFlush(accepted) => FlushConserves(run, accepted, c);
    case DoStop => StopConserves(run.r, c);
  }

  lemma {:induction false} RunConserves(run: Run, steps: seq<Step>, c: Category)
    requires Bounded(run.r) && Legal(run, steps) && Guarded(c)
    ensures Bounded(Exec(run, steps).r)
    ensures Located(Exec(run, steps), c) + Count(run.submitted, c)
            == Located(run, c) + Count(Exec(run, steps).submitted, c)
    decreases |steps|
  {
    if steps == [] {
    } else {
      StepConserves(run, steps[0], c);
      StepFits(run, steps[0]);
      RunConserves(Next(run, steps[0]), steps[1..], c);
    }
  }

  /**
   * Over every run, each submitted training or proof event is waiting, queued in an interval,
   * handed to the writer, or counted as lost; and every buffer keeps its bound.
   */
  lemma SubmittedIsConserved(steps: seq<Step>)
    requires Legal(Begin(), steps)
    ensures Conserved(Exec(Begin(), steps)) && Bounded(Exec(Begin(), steps).r)
  {
    forall c: Category | Guarded(c)
      ensures Count(Exec(Begin(), steps).submitted, c) == Located(Exec(Begin(), steps), c)
    {
      RunConserves(Begin(), steps, c);
    }
    RunConserves(Begin(), steps, TrainingCategory);
  }

  // ---------------------------------------------------------------- displacement

  /** Replacing one element at the end keeps every other one. */
  lemma DropKeeps<T>(s: seq<T>, victim: nat, i: nat, last: T)
    requires victim < |s| && i < |s| && i != victim
    ensures exists j :: 0 <= j < |Drop(s, victim) + [last]| && (Drop(s, victim) + [last])[j] == s[i]
  {
    var after := Drop(s, victim) + [last];
    var j := if i < victim then i else i - 1;
    assert after[j] == s[i];
  }

  /**
   * A protected event waiting in the deque is pushed out by a submission only if all eight
   * slots and the newcomer are protected, and then only the oldest one goes.
   */
  lemma ProtectedEventStays(r: Recorder, e: Event, encodes: bool, i: nat)
    requires Bounded(r) && i < |r.events| && Protected(r.events[i])
    ensures var after := Submit(r, e, encodes).events;
            var crowded := |r.events| == EVENT_SLOTS && Protected(e) && encodes
                           && forall k :: 0 <= k < |r.events| ==> Protected(r.events[k]);
            && (crowded ==> after == r.events[1..] + [e])
            && (!crowded ==> exists j :: 0 <= j < |after| && after[j] == r.events[i])
  {
    var after := Submit(r, e, encodes).events;
    if after == r.events {
      assert after[i] == r.events[i];
    } else if |r.events| < EVENT_SLOTS {
      assert after[i] == r.events[i];
    } else {
      var open := FirstOpen(r.events);
      if open < |r.events| {
        DropKeeps(r.events, open, i, e);
      }
    }
  }

  lemma EnqueueParts(r: Recorder, interval: seq<Event>)
    ensures var open := FirstOpenInterval(r.queue);
            var after := Enqueue(r, interval).queue;
            if |r.queue| < INTERVALS then after == r.queue + [interval]
            else if open < |r.queue| then after == Drop(r.queue, open) + [interval]
            else if ProtectedInterval(interval) then after == r.queue[1..] + [interval]
            else after == r.queue
  {
    if |r.queue| >= INTERVALS {
      assert Drop(r.queue, 0) == r.queue[1..];
    }
  }

  /** The same for collected intervals in the handoff queue. */
  lemma ProtectedIntervalStays(r: Recorder, interval: seq<Event>, i: nat)
    requires Bounded(r) && i < |r.queue| && ProtectedInterval(r.queue[i])
    ensures var after := Enqueue(r, interval).queue;
            var crowded := |r.queue| == INTERVALS && ProtectedInterval(interval)
                           && forall k :: 0 <= k < |r.queue| ==> ProtectedInterval(r.queue[k]);
            && (crowded ==> after == r.queue[1..] + [interval])
            && (!crowded ==> exists j :: 0 <= j < |after| && after[j] == r.queue[i])
  {
    var after := Enqueue(r, interval).queue;
    var open := FirstOpenInterval(r.queue);
    EnqueueParts(r, interval);
    if |r.queue| == INTERVALS && open < |r.queue| {
      DropKeeps(r.queue, open, i, interval);
    } else if |r.queue| < INTERVALS || !ProtectedInterval(interval) {
      assert after[i] == r.queue[i];
    }
  }

  /** When a collection has room for a waiting protected event, it is collected before any optional one. */
  lemma {:induction false} ProtectedFirst(es: seq<Event>, room: nat)
    requires exists e :: e in PickEvents(es, room).1 && Protected(e)
    ensures forall e :: e in PickEvents(es, room).0 ==> Protected(e)
    decreases room
  {
    if es != [] && room > 0 {
      var i := NextEvent(es);
      ProtectedFirst(Drop(es, i), room - 1);
      LeftoverSubset(Drop(es, i), room - 1);
      var e :| e in PickEvents(es, room).1 && Protected(e);
      assert e in Drop(es, i);
      assert e in es;
      assert FirstProtected(es) < |es|;
    }
  }

  lemma {:induction false} LeftoverSubset(es: seq<Event>, room: nat)
    ensures forall e :: e in PickEvents(es, room).1 ==> e in es
    decreases room
  {
    if es != [] && room > 0 {
      var i := NextEvent(es);
      LeftoverSubset(Drop(es, i), room - 1);
      assert forall e :: e in Drop(es, i) ==> e in es;
    }
  }
}
