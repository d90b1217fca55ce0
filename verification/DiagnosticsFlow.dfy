/**
 * Recorder and writer together: where every submitted training or proof event is, from its
 * submission to the store's answer.
 */
module DiagnosticsFlow {
  import opened Common
  import opened RecorderModel
  import Recording = RecorderRuns
  import Writing = WriterModel

  /** `contents` holds the interval behind each message the writer accepted. */
  datatype Flow = Flow(
    run: Recording.Run, w: Writing.Writer, contents: map<int, seq<Event>>, writerLost: Counters)

  datatype Step =
    | Record(recording: Recording.Step)
    | Hand(size: nat)
    | Write(writing: Writing.Step)

  function Begin(): Flow {
    Flow(Recording.Begin(), Writing.Fresh(), map[], ZERO)
  }

  // ---------------------------------------------------------------- totals over messages

  /** The events of a category inside some messages. */
  ghost function Total(contents: map<int, seq<Event>>, ids: set<int>, c: Category): nat
    requires ids <= contents.Keys
  {
    if ids == {} then 0
    else
      var id := Pick(ids);
      Counted(contents[id], c) + Total(contents, ids - {id}, c)
  }

  lemma {:induction false} TotalWithout(contents: map<int, seq<Event>>, ids: set<int>, id: int, c: Category)
    requires ids <= contents.Keys && id in ids
    ensures Total(contents, ids, c) == Counted(contents[id], c) + Total(contents, ids - {id}, c)
    decreases |ids|
  {
    var first := Pick(ids);
    if first != id {
      TotalWithout(contents, ids - {first}, id, c);
      TotalWithout(contents, ids - {id}, first, c);
      assert ids - {first} - {id} == ids - {id} - {first};
    }
  }

  lemma {:induction false} TotalUnion(contents: map<int, seq<Event>>, a: set<int>, b: set<int>, c: Category)
    requires a <= contents.Keys && b <= contents.Keys && a !! b
    ensures Total(contents, a + b, c) == Total(contents, a, c) + Total(contents, b, c)
    decreases |a|
  {
    if a == {} {
      assert a + b == b;
    } else {
      var id := Pick(a);
      TotalUnion(contents, a - {id}, b, c);
      TotalWithout(contents, a + b, id, c);
      assert a + b - {id} == (a - {id}) + b;
    }
  }

  lemma {:induction false} TotalFrame(
    contents: map<int, seq<Event>>, more: map<int, seq<Event>>, ids: set<int>, c: Category)
    requires ids <= contents.Keys && ids <= more.Keys && forall id :: id in ids ==> more[id] == contents[id]
    ensures Total(more, ids, c) == Total(contents, ids, c)
    decreases |ids|
  {
    if ids == {} {
    } else {
      TotalFrame(contents, more, ids - {Pick(ids)}, c);
    }
  }

  /** The five places of an accepted message. */
  lemma TotalSplits(contents: map<int, seq<Event>>, w: Writing.Writer, c: Category)
    requires contents.Keys == w.accepted && Writing.Partitioned(w)
    ensures Writing.SlotIds(w) + Writing.HeldIds(w) + w.saved + w.rejected + w.uncertain == contents.Keys
    ensures Total(contents, w.accepted, c)
            == Total(contents, Writing.SlotIds(w), c) + Total(contents, Writing.HeldIds(w), c)
               + Total(contents, w.saved, c) + Total(contents, w.rejected, c) + Total(contents, w.uncertain, c)
  {
    var slot, held := Writing.SlotIds(w), Writing.HeldIds(w);
    TotalUnion(contents, slot, held, c);
    TotalUnion(contents, slot + held, w.saved, c);
    TotalUnion(contents, slot + held + w.saved, w.rejected, c);
    TotalUnion(contents, slot + held + w.saved + w.rejected, w.uncertain, c);
  }

  // ---------------------------------------------------------------- steps

  ghost function AddLost(counters: Counters, contents: map<int, seq<Event>>, ids: set<int>): Counters
    requires ids <= contents.Keys
  {
    Counters(counters.training + Total(contents, ids, TrainingCategory),
             counters.proof + Total(contents, ids, ProofCategory),
             counters.storage + Total(contents, ids, StorageCategory),
             counters.other + Total(contents, ids, OtherCategory))
  }

  predicate Allowed(f: Flow, step: Step) {
    match step
    case Record(s) => !s.DoFlush? && Recording.Allowed(f.run, s)
    case Hand(_) => true
    case Write(s) => !s.Offer? && Writing.Enabled(f.w, s)
  }

  /** Each rejection adds the counts of its message to the writer's own loss counters. */
  ghost function Next(f: Flow, step: Step): Flow
    requires Allowed(f, step)
  {
    match step
    case Record(s) => f.(run := Recording.Next(f.run, s))
    case Hand(size) => Handed(f, size)
    case Write(s) => Written(f, Writing.Next(f.w, s))
  }

  ghost function Written(f: Flow, w: Writing.Writer): Flow {
    f.(w := w, writerLost := AddLost(f.writerLost, f.contents, (w.rejected - f.w.rejected) * f.contents.Keys))
  }

  /** The oldest queued interval is offered; it leaves the queue only if the writer accepts it. */
  function Handed(f: Flow, size: nat): Flow {
    if f.run.r.queue == [] then f
    else if Writing.Accepts(f.w, size) then
      f.(run := Recording.Next(f.run, Recording.DoFlush(true)), w := Writing.DoOffer(f.w, size),
         contents := f.contents[f.w.offered := f.run.r.queue[0]])
    else f.(w := Writing.DoOffer(f.w, size))
  }

  lemma WriteKeeps(w: Writing.Writer, s: Writing.Step)
    requires Writing.Inv(w) && Writing.Enabled(w, s) && !s.Offer?
    ensures Writing.Inv(Writing.Next(w, s)) && Writing.Next(w, s).accepted == w.accepted
    ensures w.rejected <= Writing.Next(w, s).rejected <= w.accepted
  {
    Writing.StepKeeps(w, s);
  }

  // ---------------------------------------------------------------- the balance

  ghost predicate HandedMatches(f: Flow, c: Category)
    requires f.contents.Keys == f.w.accepted && f.w.rejected <= f.w.accepted
  {
    && CountAll(f.run.handed, c) == Total(f.contents, f.w.accepted, c)
    && Of(f.writerLost, c) == Total(f.contents, f.w.rejected, c)
  }

  ghost predicate FlowInv(f: Flow) {
    && Recording.Bounded(f.run.r) && Recording.Conserved(f.run) && Writing.Inv(f.w)
    && f.contents.Keys == f.w.accepted && f.w.rejected <= f.w.accepted
    && forall c: Category :: HandedMatches(f, c)
  }

  lemma RecordKeeps(f: Flow, s: Recording.Step)
    requires FlowInv(f) && !s.DoFlush? && Recording.Allowed(f.run, s)
    ensures FlowInv(f.(run := Recording.Next(f.run, s)))
  {
    var run := Recording.Next(f.run, s);
    Recording.StepFits(f.run, s);
    forall c: Category | Recording.Guarded(c) ensures Count(run.submitted, c) == Recording.Located(run, c) {
      Recording.StepConserves(f.run, s, c);
    }
    forall c: Category ensures HandedMatches(f.(run := run), c) {
      assert HandedMatches(f, c);
    }
  }

  /** One accepted handover, for one category. */
  lemma HandedOne(f: Flow, size: nat, c: Category)
    requires FlowInv(f) && f.run.r.queue != [] && Writing.Accepts(f.w, size)
    ensures var g := Handed(f, size);
            && g.contents.Keys == g.w.accepted && g.w.rejected <= g.w.accepted && HandedMatches(g, c)
  {
    var g, id, interval := Handed(f, size), f.w.offered, f.run.r.queue[0];
    assert HandedMatches(f, c) && id !in f.w.accepted && interval in f.run.r.queue;
    Recording.AllAppend(f.run.handed, interval, c);
    TotalFrame(f.contents, g.contents, f.w.accepted, c);
    TotalFrame(f.contents, g.contents, f.w.rejected, c);
    TotalWithout(g.contents, g.w.accepted, id, c);
    assert g.w.accepted - {id} == f.w.accepted;
  }

  lemma HandKeeps(f: Flow, size: nat)
    requires FlowInv(f)
    ensures FlowInv(Handed(f, size))
  {
    var g := Handed(f, size);
    if f.run.r.queue != [] {
      Writing.StepKeeps(f.w, Writing.Offer(size));
      if Writing.Accepts(f.w, size) {
        forall c: Category ensures HandedMatches(g, c) {
          HandedOne(f, size, c);
        }
        Recording.StepFits(f.run, Recording.DoFlush(true));
        forall c: Category | Recording.Guarded(c) ensures Count(g.run.submitted, c) == Recording.Located(g.run, c) {
          Recording.StepConserves(f.run, Recording.DoFlush(true), c);
        }
      } else {
        forall c: Category ensures HandedMatches(g, c) {
          assert HandedMatches(f, c);
        }
      }
    }
  }

  /** One category after the writer has moved. */
  lemma WrittenOne(f: Flow, w: Writing.Writer, c: Category)
    requires FlowInv(f) && w.accepted == f.w.accepted && f.w.rejected <= w.rejected <= w.accepted
    ensures HandedMatches(Written(f, w), c)
  {
    assert HandedMatches(f, c);
    var more := w.rejected - f.w.rejected;
    assert more * f.contents.Keys == more && f.w.rejected + more == w.rejected;
    TotalUnion(f.contents, f.w.rejected, more, c);
  }

  lemma WriteStep(f: Flow, s: Writing.Step)
    requires FlowInv(f) && !s.Offer? && Writing.Enabled(f.w, s)
    ensures FlowInv(Written(f, Writing.Next(f.w, s)))
  {
    var w := Writing.Next(f.w, s);
    WriteKeeps(f.w, s);
    forall c: Category ensures HandedMatches(Written(f, w), c) {
      WrittenOne(f, w, c);
    }
  }

  lemma StepKeeps(f: Flow, step: Step)
    requires FlowInv(f) && Allowed(f, step)
    ensures FlowInv(Next(f, step))
  {
    match step
    case Record(s) => RecordKeeps(f, s);
    case Hand(size) => HandKeeps(f, size);
    case Write(s) => WriteStep(f, s);
  }

  // ---------------------------------------------------------------- every run

  ghost predicate Legal(f: Flow, steps: seq<Step>)
    decreases |steps|
  {
    steps == [] || (Allowed(f, steps[0]) && Legal(Next(f, steps[0]), steps[1..]))
  }

  ghost function Exec(f: Flow, steps: seq<Step>): Flow
    requires Legal(f, steps)
    decreases |steps|
  {
    if steps == [] then f else Exec(Next(f, steps[0]), steps[1..])
  }

  lemma {:induction false} RunKeeps(f: Flow, steps: seq<Step>)
    requires FlowInv(f) && Legal(f, steps)
    ensures FlowInv(Exec(f, steps))
    decreases |steps|
  {
    if steps == [] {
    } else {
      StepKeeps(f, steps[0]);
      RunKeeps(Next(f, steps[0]), steps[1..]);
    }
  }

  lemma BeginHolds()
    ensures FlowInv(Begin())
  {
  }

  /** Events of a category that wait in the recorder or are queued for the writer. */
  function InRecorder(r: Recorder, c: Category): nat {
    Count(r.events, c) + CountAll(r.publications, c) + CountAll(r.queue, c)
  }

  /** Events counted as lost on input, in the handoff or by the writer. */
  function CountedLost(f: Flow, c: Category): nat {
    Of(f.run.r.lostEvents, c) + Of(f.run.r.lostHandoff, c) + Of(f.writerLost, c)
  }

  /** Where the events of a category are that the writer has accepted and not rejected. */
  ghost predicate BalanceHolds(f: Flow, c: Category)
    requires f.w.accepted == f.contents.Keys
  {
    && Writing.SlotIds(f.w) + Writing.HeldIds(f.w) + f.w.saved + f.w.uncertain <= f.contents.Keys
    && Count(f.run.submitted, c)
       == InRecorder(f.run.r, c)
          + Total(f.contents, Writing.SlotIds(f.w), c) + Total(f.contents, Writing.HeldIds(f.w), c)
          + Total(f.contents, f.w.saved, c) + Total(f.contents, f.w.uncertain, c)
          + CountedLost(f, c)
  }

  /**
   * Under any interleaving of recorder, handover and writer, each submitted training or proof
   * event is waiting, queued, in the writer's hands, saved, uncertain, or counted as lost by
   * the recorder, the handoff or the writer.
   */
  lemma EveryEventIsAccounted(steps: seq<Step>, c: Category)
    requires Legal(Begin(), steps) && Recording.Guarded(c)
    ensures var end := Exec(Begin(), steps);
            end.w.accepted == end.contents.Keys && BalanceHolds(end, c)
  {
    BeginHolds();
    RunKeeps(Begin(), steps);
    var end := Exec(Begin(), steps);
    assert HandedMatches(end, c);
    TotalSplits(end.contents, end.w, c);
  }

  /** After the recorder was stopped last and the writer has exited, only saved, uncertain and lost remain. */
  lemma StoppedIsSettled(steps: seq<Step>, c: Category)
    requires Legal(Begin(), steps) && Recording.Guarded(c)
    requires var end := Exec(Begin(), steps); end.w.place.Exited? && InRecorder(end.run.r, c) == 0
    ensures var end := Exec(Begin(), steps);
            && end.w.saved + end.w.uncertain <= end.contents.Keys
            && Count(end.run.submitted, c)
               == Total(end.contents, end.w.saved, c) + Total(end.contents, end.w.uncertain, c) + CountedLost(end, c)
  {
    EveryEventIsAccounted(steps, c);
    BeginHolds();
    RunKeeps(Begin(), steps);
  }
}
