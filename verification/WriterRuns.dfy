/** What the writer owes its callers: which messages it takes, when it writes, and what becomes of them. */
module WriterRuns {
  import opened Common
  import opened WriterModel

  /**
   * In every reachable state an offer is accepted exactly when it fits 32 KiB, the thread runs,
   * no stop was requested and the slot is empty; it then waits in the slot.
   */
  lemma OfferExactly(steps: seq<Step>, size: nat)
    requires Legal(Fresh(), steps)
    ensures var w := Exec(Fresh(), steps);
            var after := Next(w, Offer(size));
            && w.offered !in w.accepted
            && (w.offered in after.accepted <==>
                  && size <= 32 * 1024 && w.place != NotStarted && w.place != Exited
                  && !w.stopping && w.slot == Nothing)
            && (w.offered in after.accepted ==> after.slot == Message(w.offered))
            && after.accepted <= w.accepted + {w.offered} && after.offered > w.offered
  {
    RunKeeps(Fresh(), steps);
  }

  /** Writing begins only with a granted permission, and never after a stop. */
  lemma WritesNeedPermission(w: Writer, step: Step)
    requires Enabled(w, step) && !w.place.Writing?
    ensures Next(w, step).place.Writing? <==>
              w.place.AwaitingPermission? && step == AwaitPermission(true) && !w.stopping
  {
  }

  /** What an append leaves of the held message: saved, rejected, or to be asked for, with or without its row. */
  lemma AppendExactly(steps: seq<Step>, result: Append)
    requires Legal(Fresh(), steps) && Enabled(Exec(Fresh(), steps), AppendRecord(result))
    ensures var w := Exec(Fresh(), steps);
            var after := Next(w, AppendRecord(result));
            w.held.Some? &&
            var id := w.held.value;
            match result
            case ReturnsTrue => id in after.saved && after.rows == w.rows && after.held == None
            case ReturnsFalse => id in after.rejected && after.rows == w.rows && after.held == None
            case Raises(present) =>
              && after.held == w.held && after.place == Resolving && after.rows - {id} == w.rows
              && (id in after.rows <==> present) && id !in after.saved + after.rejected + after.uncertain
  {
    RunKeeps(Fresh(), steps);
  }

  /** After an append that raised, the message is uncertain, saved or rejected exactly by what the store shows. */
  lemma ResolveExactly(steps: seq<Step>, readable: bool)
    requires Legal(Fresh(), steps) && Enabled(Exec(Fresh(), steps), ResolveAppend(readable))
    ensures var w := Exec(Fresh(), steps);
            var after := Next(w, ResolveAppend(readable));
            w.held.Some? && after.held == None &&
            var id := w.held.value;
            && (id in after.uncertain <==> !readable)
            && (id in after.saved <==> readable && id in w.rows)
            && (id in after.rejected <==> readable && id !in w.rows)
  {
    RunKeeps(Fresh(), steps);
  }

  // ---------------------------------------------------------------- service

  /** Neither stopped nor on its way out. */
  predicate Serving(w: Writer) {
    Alive(w) && !w.stopping && !w.place.Closing? && !w.place.Draining?
  }

  /** A section of the thread in which nothing goes wrong. */
  predicate Smooth(step: Step) {
    step in {Open(true), CheckStop, Take, AwaitPermission(true), AppendRecord(ReturnsTrue), RefreshStatus(true),
             ResolveAppend(true)}
  }

  function ToLoop(place: Place): nat {
    match place
    case Opening => 1
    case AwaitingPermission => 3
    case Writing => 2
    case Classified => 1
    case Resolving => 1
    case _ => 0
  }

  lemma SmoothSection(w: Writer) returns (step: Step)
    requires Inv(w) && Serving(w) && !w.place.LoopTop? && !w.place.Getting?
    ensures Smooth(step) && Enabled(w, step) && Serving(Next(w, step)) && Next(w, step).slot == w.slot
    ensures ToLoop(Next(w, step).place) + 1 == ToLoop(w.place)
  {
    match w.place
    case Opening => step := Open(true);
    case AwaitingPermission => step := AwaitPermission(true);
    case Writing => step := AppendRecord(ReturnsTrue);
    case Classified => step := RefreshStatus(true);
    case Resolving => step := ResolveAppend(true);
  }

  lemma ExecFirst(w: Writer, step: Step, rest: seq<Step>)
    ensures Legal(w, [step] + rest) == (Enabled(w, step) && Legal(Next(w, step), rest))
    ensures Exec(w, [step] + rest) == Exec(Next(w, step), rest)
  {
    assert ([step] + rest)[1..] == rest;
  }

  lemma ExecThree(w: Writer, a: Step, b: Step, c: Step)
    ensures Legal(w, [a] + ([b] + ([c] + [])))
            == (Enabled(w, a) && Enabled(Next(w, a), b) && Enabled(Next(Next(w, a), b), c))
    ensures Exec(w, [a] + ([b] + ([c] + []))) == Next(Next(Next(w, a), b), c)
  {
    ExecFirst(w, a, [b] + ([c] + []));
    ExecFirst(Next(w, a), b, [c] + []);
    ExecFirst(Next(Next(w, a), b), c, []);
  }

  /** A message in the slot of a writer at its loop is saved by at most four smooth sections. */
  lemma SaveFromLoop(w: Writer) returns (steps: seq<Step>)
    requires Inv(w) && Serving(w) && (w.place.LoopTop? || w.place.Getting?) && w.slot.Message?
    ensures Legal(w, steps) && |steps| <= 4 && (forall s :: s in steps ==> Smooth(s))
    ensures w.slot.id in Exec(w, steps).saved
  {
    var write := [Take, AwaitPermission(true), AppendRecord(ReturnsTrue)];
    var taken := if w.place.LoopTop? then Next(w, CheckStop) else w;
    ExecThree(taken, Take, AwaitPermission(true), AppendRecord(ReturnsTrue));
    assert write == [Take] + ([AwaitPermission(true)] + ([AppendRecord(ReturnsTrue)] + []));
    assert w.slot.id in Exec(taken, write).saved;
    if w.place.LoopTop? {
      steps := [CheckStop] + write;
      ExecFirst(w, CheckStop, write);
    } else {
      steps := write;
    }
  }

  /**
   * From every state of a serving writer with a message waiting, at most seven sections in which
   * permission is given and the appends succeed save that message.
   */
  lemma {:induction false} WaitingIsSaved(w: Writer) returns (steps: seq<Step>)
    requires Inv(w) && Serving(w) && w.slot.Message?
    ensures Legal(w, steps) && |steps| <= ToLoop(w.place) + 4 && (forall s :: s in steps ==> Smooth(s))
    ensures w.slot.id in Exec(w, steps).saved
    decreases ToLoop(w.place)
  {
    if w.place.LoopTop? || w.place.Getting? {
      steps := SaveFromLoop(w);
    } else {
      var step := SmoothSection(w);
      StepKeeps(w, step);
      var rest := WaitingIsSaved(Next(w, step));
      steps := [step] + rest;
      ExecFirst(w, step, rest);
    }
  }

  // ---------------------------------------------------------------- on the way out

  /** Once the writer is on its way out it saves nothing more and writes no row. */
  predicate Leaving(w: Writer) {
    w.place.Closing? || w.place.Draining? || w.place.Exited?
  }

  lemma {:induction false} LeavingSavesNothing(w: Writer, steps: seq<Step>)
    requires Leaving(w) && Legal(w, steps)
    ensures Leaving(Exec(w, steps)) && Exec(w, steps).saved == w.saved && Exec(w, steps).rows == w.rows
    decreases |steps|
  {
    if steps == [] {
    } else {
      LeavingSavesNothing(Next(w, steps[0]), steps[1..]);
    }
  }

  /** A failed opening and a permission check that raises send the writer out; nothing else does without a stop. */
  lemma LeavesExactly(w: Writer, step: Step)
    requires Enabled(w, step) && !Leaving(w)
    ensures Leaving(Next(w, step)) <==>
              || step == Open(false) || step == AbortWait
              || (w.stopping && (step == CheckStop || step.AwaitPermission?))
              || (step == Take && w.slot == Wake)
  {
  }

  // ---------------------------------------------------------------- from the start to the end

  /** A fresh writer that is started and opens its store serves, and saves the first message that fits. */
  lemma FirstMessageIsSaved(size: nat) returns (steps: seq<Step>)
    requires size <= 32 * 1024
    ensures Legal(Fresh(), [Start] + ([Open(true)] + ([Offer(size)] + steps)))
    ensures 0 in Exec(Fresh(), [Start] + ([Open(true)] + ([Offer(size)] + steps))).saved
    ensures forall s :: s in steps ==> Smooth(s)
  {
    var a := Next(Fresh(), Start);
    var b := Next(a, Open(true));
    var c := Next(b, Offer(size));
    StepKeeps(Fresh(), Start);
    StepKeeps(a, Open(true));
    StepKeeps(b, Offer(size));
    steps := WaitingIsSaved(c);
    ExecFirst(Fresh(), Start, [Open(true)] + ([Offer(size)] + steps));
    ExecFirst(a, Open(true), [Offer(size)] + steps);
    ExecFirst(b, Offer(size), steps);
  }

  /** A writer told to stop can exit within eight sections. */
  lemma {:induction false} StoppedExits(w: Writer) returns (steps: seq<Step>)
    requires Inv(w) && w.stopping && Alive(w)
    ensures Legal(w, steps) && Exec(w, steps).place.Exited? && |steps| <= Remaining(w) <= 8
    decreases Remaining(w)
  {
    var step := StopIsEnabled(w);
    StopAdvances(w, step);
    StepKeeps(w, step);
    if Alive(Next(w, step)) {
      var rest := StoppedExits(Next(w, step));
      steps := [step] + rest;
      ExecFirst(w, step, rest);
    } else {
      steps := [step] + [];
      ExecFirst(w, step, []);
    }
  }

  /** A stop can be requested at any time; the live writer then exits within eight sections and accepts nothing more. */
  lemma StopReachesExit(steps: seq<Step>) returns (rest: seq<Step>)
    requires Legal(Fresh(), steps) && Alive(Exec(Fresh(), steps))
    ensures var w := Exec(Fresh(), steps);
            && Legal(w, [RequestStop] + rest) && |rest| <= 8
            && Exec(w, [RequestStop] + rest).place.Exited? && Exec(w, [RequestStop] + rest).accepted == w.accepted
  {
    RunKeeps(Fresh(), steps);
    var w := Exec(Fresh(), steps);
    var stopped := Next(w, RequestStop);
    StepKeeps(w, RequestStop);
    rest := StoppedExits(stopped);
    StopBound(stopped, rest);
    ExecFirst(w, RequestStop, rest);
  }
}
