/**
 * The diagnostics recorder's bounded handoff: a small event deque, publication groups, a
 * queue of collected intervals, and counters for everything that was lost on the way.
 */
module RecorderModel {
  import opened Common

  const EVENT_SLOTS: nat := 8
  const GROUPS: nat := 4
  const GROUP_EVENTS: nat := 7
  const INTERVALS: nat := 4

  datatype Kind = Training | TrainingError | Proof | Storage | Optional

  datatype Event = Event(kind: Kind, id: int)

  datatype Category = TrainingCategory | ProofCategory | StorageCategory | OtherCategory

  function CategoryOf(e: Event): Category {
    match e.kind
    case Training => TrainingCategory
    case TrainingError => TrainingCategory
    case Proof => ProofCategory
    case Storage => StorageCategory
    case Optional => OtherCategory
  }

  predicate Protected(e: Event) {
    e.kind.Training? || e.kind.TrainingError? || e.kind.Proof?
  }

  function Weight(e: Event, c: Category): nat {
    if CategoryOf(e) == c then 1 else 0
  }

  /** How many of these events belong to a category. */
  function Count(es: seq<Event>, c: Category): nat {
    if es == [] then 0 else Weight(es[0], c) + Count(es[1..], c)
  }

  /** The same over groups of events. */
  function CountAll(groups: seq<seq<Event>>, c: Category): nat {
    if groups == [] then 0 else Count(groups[0], c) + CountAll(groups[1..], c)
  }

  function Flatten(groups: seq<seq<Event>>): seq<Event> {
    if groups == [] then [] else groups[0] + Flatten(groups[1..])
  }

  /** `event_counts` reads at most eight events of an encoded interval. */
  function Counted(interval: seq<Event>, c: Category): nat {
    Count(if |interval| <= EVENT_SLOTS then interval else interval[..EVENT_SLOTS], c)
  }

  predicate ProtectedInterval(interval: seq<Event>) {
    Counted(interval, TrainingCategory) > 0 || Counted(interval, ProofCategory) > 0
  }

  datatype Counters = Counters(training: nat, proof: nat, storage: nat, other: nat)

  const ZERO := Counters(0, 0, 0, 0)

  function Of(counters: Counters, c: Category): nat {
    match c
    case TrainingCategory => counters.training
    case ProofCategory => counters.proof
    case StorageCategory => counters.storage
    case OtherCategory => counters.other
  }

  function Add(counters: Counters, es: seq<Event>): Counters {
    Counters(counters.training + Count(es, TrainingCategory), counters.proof + Count(es, ProofCategory),
             counters.storage + Count(es, StorageCategory), counters.other + Count(es, OtherCategory))
  }

  function AddInterval(counters: Counters, interval: seq<Event>): Counters {
    Counters(counters.training + Counted(interval, TrainingCategory),
             counters.proof + Counted(interval, ProofCategory),
             counters.storage + Counted(interval, StorageCategory),
             counters.other + Counted(interval, OtherCategory))
  }

  datatype Recorder = Recorder(
    events: seq<Event>,
    publications: seq<seq<Event>>,
    queue: seq<seq<Event>>,
    lostEvents: Counters,
    lostHandoff: Counters)

  function Fresh(): Recorder {
    Recorder([], [], [], ZERO, ZERO)
  }

  // ---------------------------------------------------------------- submission

  /** Index of the first element that is not protected, or the length. */
  function FirstOpen(es: seq<Event>): (i: nat)
    ensures i <= |es| && (forall k :: 0 <= k < i ==> Protected(es[k])) && (i < |es| ==> !Protected(es[i]))
  {
    if es == [] || !Protected(es[0]) then 0 else 1 + FirstOpen(es[1..])
  }

  function FirstOpenInterval(queue: seq<seq<Event>>): (i: nat)
    ensures i <= |queue| && (forall k :: 0 <= k < i ==> ProtectedInterval(queue[k]))
    ensures i < |queue| ==> !ProtectedInterval(queue[i])
  {
    if queue == [] || !ProtectedInterval(queue[0]) then 0 else 1 + FirstOpenInterval(queue[1..])
  }

  function Drop<T>(s: seq<T>, i: nat): seq<T>
    requires i < |s|
  {
    s[..i] + s[i + 1..]
  }

  function Lose(r: Recorder, es: seq<Event>): Recorder
  {
    r.(lostEvents := Add(r.lostEvents, es))
  }

  function Submit(r: Recorder, e: Event, encodes: bool): Recorder
  {
    if !encodes then Lose(r, [e])
    else if |r.events| < EVENT_SLOTS then r.(events := r.events + [e])
    else
      var open := FirstOpen(r.events);
      if open == |r.events| && !Protected(e) then Lose(r, [e])
      else
        var victim := if open == |r.events| then 0 else open;
        Lose(r, [r.events[victim]]).(events := Drop(r.events, victim) + [e])
  }

  /** What a publication offers: an event and whether it encodes; an unbuilt proof is a hole. */
  datatype Item = Hole | Offered(event: Event, encodes: bool)

  function EventOf(item: Item): Event {
    if item.Hole? then Event(Proof, -1) else item.event
  }

  predicate Retained(item: Item) {
    item.Offered? && Protected(item.event) && item.encodes
  }

  function EventsOf(items: seq<Item>): seq<Event> {
    if items == [] then [] else [EventOf(items[0])] + EventsOf(items[1..])
  }

  /** Events of the items selected by `keep`. */
  function Chosen(items: seq<Item>, keep: bool): seq<Event> {
    if items == [] then []
    else if Retained(items[0]) == keep then [EventOf(items[0])] + Chosen(items[1..], keep)
    else Chosen(items[1..], keep)
  }

  function Head(items: seq<Item>): seq<Item> {
    if |items| <= GROUP_EVENTS then items else items[..GROUP_EVENTS]
  }

  function Tail(items: seq<Item>): seq<Item> {
    if |items| <= GROUP_EVENTS then [] else items[GROUP_EVENTS..]
  }

  function Publish(r: Recorder, items: seq<Item>): Recorder
  {
    var lost := Lose(Lose(r, Chosen(Head(items), false)), EventsOf(Tail(items)));
    var group := Chosen(Head(items), true);
    if group == [] then lost
    else if |r.publications| == GROUPS then
      Lose(lost, r.publications[0]).(publications := r.publications[1..] + [group])
    else lost.(publications := r.publications + [group])
  }

  // ---------------------------------------------------------------- collection

  /** How many whole publication groups fit beside the ones already selected. */
  function FittingGroups(publications: seq<seq<Event>>, used: nat): (n: nat)
    ensures n <= |publications|
  {
    if publications == [] || used + |publications[0]| > GROUP_EVENTS then 0
    else 1 + FittingGroups(publications[1..], used + |publications[0]|)
  }

  /** Position of the next event to collect: the first protected one, else the oldest. */
  function NextEvent(es: seq<Event>): (i: nat)
    requires es != []
    ensures i < |es|
  {
    var i := FirstProtected(es);
    if i < |es| then i else 0
  }

  function FirstProtected(es: seq<Event>): (i: nat)
    ensures i <= |es| && (forall k :: 0 <= k < i ==> !Protected(es[k])) && (i < |es| ==> Protected(es[i]))
  {
    if es == [] || Protected(es[0]) then 0 else 1 + FirstProtected(es[1..])
  }

  /** Events picked for the remaining room, and those left for the next collection. */
  function PickEvents(es: seq<Event>, room: nat): (out: (seq<Event>, seq<Event>))
    decreases room
  {
    if es == [] || room == 0 then ([], es)
    else
      var i := NextEvent(es);
      var rest := PickEvents(Drop(es, i), room - 1);
      ([es[i]] + rest.0, rest.1)
  }

  datatype Selection = Selection(selected: seq<Event>, publications: seq<seq<Event>>, events: seq<Event>)

  function Select(r: Recorder): Selection {
    var n := FittingGroups(r.publications, 0);
    var grouped := Flatten(r.publications[..n]);
    var picked := PickEvents(r.events, if |grouped| < EVENT_SLOTS then EVENT_SLOTS - |grouped| else 0);
    Selection(grouped + picked.0, r.publications[n..], picked.1)
  }

  /** Put a collected interval in the handoff queue; a protected one yields only to protected ones. */
  function Enqueue(r: Recorder, interval: seq<Event>): Recorder
  {
    if |r.queue| < INTERVALS then r.(queue := r.queue + [interval])
    else
      var open := FirstOpenInterval(r.queue);
      if open == |r.queue| && !ProtectedInterval(interval) then
        r.(lostHandoff := AddInterval(r.lostHandoff, interval))
      else
        var victim := if open == |r.queue| then 0 else open;
        r.(lostHandoff := AddInterval(r.lostHandoff, r.queue[victim]),
           queue := Drop(r.queue, victim) + [interval])
  }

  /** A collection whose record does not encode consumes nothing. */
  function Collect(r: Recorder, encodes: bool): Recorder
  {
    if !encodes then r
    else
      var s := Select(r);
      Enqueue(r.(publications := s.publications, events := s.events), s.selected)
  }

  function AddIntervals(counters: Counters, queue: seq<seq<Event>>): (out: Counters)
    decreases |queue|
  {
    if queue == [] then counters
    else AddIntervals(AddInterval(counters, queue[0]), queue[1..])
  }

  function Stop(r: Recorder): Recorder
  {
    Recorder([], [], [], Add(r.lostEvents, Flatten(r.publications) + r.events), AddIntervals(r.lostHandoff, r.queue))
  }
}
