/**
 * The diagnostics writer thread, its one-slot queue and the threads that offer and stop,
 * as atomic sections that may interleave in any order. Messages are numbered as offered.
 */
module WriterModel {
  import opened Common

  datatype Slot = Nothing | Wake | Message(id: int)

  /** Where the writer thread stands between two atomic sections. */
  datatype Place =
    | NotStarted
    | Opening
    | LoopTop
    | Getting
    | AwaitingPermission
    | Writing
    | Classified
    | Resolving
    | Closing
    | Draining
    | Exited

  datatype Writer = Writer(
    place: Place,
    slot: Slot,
    held: Option<int>,
    stopping: bool,
    saved: set<int>,
    rejected: set<int>,
    uncertain: set<int>,
    confirmed: set<int>,
    rows: set<int>,
    accepted: set<int>,
    offered: int)

  /**
   * How an append ends. True also answers a record already seen, without inserting it; `present`
   * says whether a row of this identity is in the store when an append that raised is over.
   */
  datatype Append = ReturnsTrue | ReturnsFalse | Raises(present: bool)

  datatype Step =
    | Start
    | Offer(size: nat)
    | RequestStop
    | Open(ok: bool)
    | CheckStop
    | Take
    | AwaitPermission(granted: bool)
    | AbortWait
    | AppendRecord(result: Append)
    | RefreshStatus(ok: bool)
    | ResolveAppend(readable: bool)
    | Close
    | Drain

  const MAX_INPUT: nat := 32_768

  function Fresh(): Writer {
    Writer(NotStarted, Nothing, None, false, {}, {}, {}, {}, {}, {}, 0)
  }

  predicate Alive(w: Writer) {
    !w.place.NotStarted? && !w.place.Exited?
  }

  predicate Accepts(w: Writer, size: nat) {
    size <= MAX_INPUT && Alive(w) && !w.stopping && w.slot.Nothing?
  }

  function Reject(w: Writer, ids: set<int>): Writer {
    w.(rejected := w.rejected + ids)
  }

  function SlotIds(w: Writer): set<int> {
    if w.slot.Message? then {w.slot.id} else {}
  }

  function HeldIds(w: Writer): set<int> {
    if w.held.Some? then {w.held.value} else {}
  }

  function DoOffer(w: Writer, size: nat): Writer {
    var id := w.offered;
    if Accepts(w, size)
    then w.(slot := Message(id), accepted := w.accepted + {id}, offered := id + 1)
    else w.(offered := id + 1)
  }

  /** Under the message lock: forbid offers, reject a waiting message, wake an idle writer. */
  function DoRequestStop(w: Writer): Writer {
    Reject(w, SlotIds(w)).(stopping := true, slot := Wake)
  }

  function DoTake(w: Writer): Writer {
    match w.slot
    case Nothing => w
    case Wake => w.(slot := Nothing, place := Closing)
    case Message(id) => w.(slot := Nothing, held := Some(id), place := AwaitingPermission)
  }

  /** The append either classifies the message at once or leaves that to the error handler. */
  function DoAppend(w: Writer, result: Append): Writer {
    match result
    case ReturnsTrue =>
      w.(place := Classified, saved := w.saved + HeldIds(w), confirmed := w.confirmed + HeldIds(w), held := None)
    case ReturnsFalse => Reject(w, HeldIds(w)).(place := Classified, held := None)
    case Raises(present) =>
      w.(place := Resolving, rows := if present then w.rows + HeldIds(w) else w.rows)
  }

  /** The handler asks the store for this exact row; a failing question stays uncertain. */
  function DoResolve(w: Writer, readable: bool): Writer {
    var ids := HeldIds(w);
    var resolved :=
      if !readable then w.(uncertain := w.uncertain + ids)
      else if ids <= w.rows then w.(saved := w.saved + ids)
      else Reject(w, ids);
    resolved.(held := None, place := LoopTop)
  }

  function DoDrain(w: Writer): Writer {
    Reject(w, SlotIds(w)).(stopping := true, slot := Nothing, place := Exited)
  }

  predicate Enabled(w: Writer, step: Step) {
    match step
    case Start => w.place.NotStarted?
    case Offer(_) => true
    case RequestStop => true
    case Open(_) => w.place.Opening?
    case CheckStop => w.place.LoopTop?
    case Take => w.place.Getting? && !w.slot.Nothing?
    case AwaitPermission(_) => w.place.AwaitingPermission?
    case AbortWait => w.place.AwaitingPermission?
    case AppendRecord(_) => w.place.Writing?
    case RefreshStatus(_) => w.place.Classified?
    case ResolveAppend(_) => w.place.Resolving?
    case Close => w.place.Closing?
    case Drain => w.place.Draining?
  }

  function Next(w: Writer, step: Step): Writer {
    match step
    case Start => w.(place := Opening)
    case Offer(size) => DoOffer(w, size)
    case RequestStop => DoRequestStop(w)
    case Open(ok) => w.(place := if ok then LoopTop else Closing)
    case CheckStop => w.(place := if w.stopping then Closing else Getting)
    case Take => DoTake(w)
    case AwaitPermission(granted) =>
      if w.stopping then w.(place := Closing)
      else if granted then w.(place := Writing) else w
    // The permission check raised: the outer handler still holds the message.
    case AbortWait => w.(place := Closing)
    case AppendRecord(result) => DoAppend(w, result)
    case RefreshStatus(_) => w.(place := LoopTop)
    case ResolveAppend(readable) => DoResolve(w, readable)
    case Close => Reject(w, HeldIds(w)).(held := None, place := Draining)
    case Drain => DoDrain(w)
  }

  predicate Legal(w: Writer, steps: seq<Step>)
    decreases |steps|
  {
    steps == [] || (Enabled(w, steps[0]) && Legal(Next(w, steps[0]), steps[1..]))
  }

  function Exec(w: Writer, steps: seq<Step>): Writer
    decreases |steps|
  {
    if steps == [] then w else Exec(Next(w, steps[0]), steps[1..])
  }

  // ---------------------------------------------------------------- accounting

  /** Every accepted message is in exactly one place. */
  predicate Partitioned(w: Writer) {
    && w.accepted == SlotIds(w) + HeldIds(w) + w.saved + w.rejected + w.uncertain
    && SlotIds(w) !! HeldIds(w) !! w.saved !! w.rejected !! w.uncertain
  }

  predicate Holds(w: Writer) {
    w.held.Some? <==> (w.place.AwaitingPermission? || w.place.Writing? || w.place.Resolving?
                       || (w.place.Closing? && w.held.Some?))
  }

  /** What the store has acknowledged: its append returned true, or it raised and the row is there. */
  function Acknowledged(w: Writer): set<int> {
    w.confirmed + w.rows
  }

  /** Classification agrees with the store: saved is what it acknowledged, rejected what it did not. */
  predicate Truthful(w: Writer) {
    && w.saved <= Acknowledged(w) && w.rejected !! Acknowledged(w)
    && Acknowledged(w) <= w.saved + w.uncertain + (if w.place.Resolving? then HeldIds(w) else {})
    && w.confirmed <= w.saved
  }

  predicate Inv(w: Writer) {
    && Partitioned(w) && Holds(w) && Truthful(w)
    && (forall id :: id in w.accepted ==> id < w.offered)
    && (w.place.Exited? ==> w.stopping && !w.slot.Message?)
    && (w.place.NotStarted? ==> !w.slot.Message?)
    && (w.stopping ==> !w.slot.Message?)
    && Wakeable(w)
  }

  /** A stop cannot leave the writer waiting on an empty slot. */
  predicate Wakeable(w: Writer) {
    w.stopping && w.place.Getting? ==> w.slot.Wake?
  }

  lemma ProducerKeeps(w: Writer, step: Step)
    requires Inv(w) && (step.Offer? || step.RequestStop?)
    ensures Inv(Next(w, step))
  {
  }

  lemma AppendKeeps(w: Writer, step: Step)
    requires Inv(w) && Enabled(w, step) && (step.AppendRecord? || step.ResolveAppend?)
    ensures Inv(Next(w, step))
  {
  }

  lemma ThreadKeeps(w: Writer, step: Step)
    requires Inv(w) && Enabled(w, step)
    requires !step.AppendRecord? && !step.ResolveAppend? && !step.Offer? && !step.RequestStop?
    ensures Inv(Next(w, step))
  {
  }

  lemma StepKeeps(w: Writer, step: Step)
    requires Inv(w) && Enabled(w, step)
    ensures Inv(Next(w, step))
  {
    if step.Offer? || step.RequestStop? {
      ProducerKeeps(w, step);
    } else if step.AppendRecord? || step.ResolveAppend? {
      AppendKeeps(w, step);
    } else {
      ThreadKeeps(w, step);
    }
  }

  lemma {:induction false} RunKeeps(w: Writer, steps: seq<Step>)
    requires Inv(w) && Legal(w, steps)
    ensures Inv(Exec(w, steps))
    decreases |steps|
  {
    if steps == [] {
    } else {
      StepKeeps(w, steps[0]);
      RunKeeps(Next(w, steps[0]), steps[1..]);
    }
  }

  /**
   * Under any interleaving of offers, the writer loop and a stop, each accepted message is
   * in exactly one of slot, held, saved, rejected and uncertain; it is never classified
   * twice, even when an append committed and then raised; saved means the store acknowledged
   * it, rejected that it did not; and once the thread has exited nothing is left behind.
   */
  lemma AccountingIsExact(steps: seq<Step>)
    requires Legal(Fresh(), steps)
    ensures var w := Exec(Fresh(), steps);
            && Partitioned(w)
            && w.saved <= Acknowledged(w) && w.rejected !! Acknowledged(w)
            && (w.place.Exited? ==> w.accepted == w.saved + w.rejected + w.uncertain
                                    && w.saved == Acknowledged(w) - w.uncertain)
  {
    RunKeeps(Fresh(), steps);
  }

  // ---------------------------------------------------------------- stopping

  /** Thread sections left before the writer exits once it has been told to stop. */
  function Remaining(w: Writer): nat {
    match w.place
    case NotStarted => 0
    case Opening => 8
    case Writing => 7
    case Classified => 6
    case Resolving => 6
    case LoopTop => 5
    case Getting => 5
    case AwaitingPermission => 4
    case Closing => 3
    case Draining => 2
    case Exited => 0
  }

  predicate ThreadStep(step: Step) {
    !step.Offer? && !step.RequestStop? && !step.Start?
  }

  function ThreadSteps(steps: seq<Step>): nat {
    if steps == [] then 0 else (if ThreadStep(steps[0]) then 1 else 0) + ThreadSteps(steps[1..])
  }

  lemma StopAdvances(w: Writer, step: Step)
    requires Inv(w) && w.stopping && !w.place.NotStarted? && Enabled(w, step)
    ensures Next(w, step).stopping && !Next(w, step).place.NotStarted?
    ensures Next(w, step).accepted == w.accepted
    ensures Remaining(Next(w, step)) + (if ThreadStep(step) then 1 else 0) <= Remaining(w)
  {
  }

  /**
   * After a stop the writer reaches its exit within eight sections of its own, whatever the
   * other threads do, and nothing offered meanwhile is accepted.
   */
  lemma {:induction false} StopBound(w: Writer, steps: seq<Step>)
    requires Inv(w) && w.stopping && !w.place.NotStarted? && Legal(w, steps)
    ensures Exec(w, steps).accepted == w.accepted
    ensures Remaining(Exec(w, steps)) + ThreadSteps(steps) <= Remaining(w) <= 8
    decreases |steps|
  {
    if steps == [] {
    } else {
      StopAdvances(w, steps[0]);
      StepKeeps(w, steps[0]);
      StopBound(Next(w, steps[0]), steps[1..]);
    }
  }

  /** Until it has exited, a stopped writer always has an enabled section. */
  lemma StopIsEnabled(w: Writer) returns (step: Step)
    requires Inv(w) && w.stopping && Alive(w)
    ensures ThreadStep(step) && Enabled(w, step)
  {
    match w.place
    case Opening => step := Open(true);
    case LoopTop => step := CheckStop;
    case Getting => step := Take;
    case AwaitingPermission => step := AwaitPermission(false);
    case Writing => step := AppendRecord(ReturnsFalse);
    case Classified => step := RefreshStatus(true);
    case Resolving => step := ResolveAppend(true);
    case Closing => step := Close;
    case Draining => step := Drain;
  }
}
