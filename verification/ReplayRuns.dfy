/** What a recording says about every point that was ever accepted into it. */
module ReplayRuns {
  import opened Common
  import opened ReplayModel

  /** What the caller provides whenever a contest is recorded. */
  predicate GoodStart(s: State, minimum: int, coverage: real) {
    && NameOk(s.cohort) && NameOk(s.testing) && NameOk(s.champion) && s.testing != s.champion
    && 1 <= minimum <= 10000 && 0.0 < coverage <= 1.0
  }

  /** A recording with the points it has so far, possibly none. */
  predicate Sound(r: Replay) {
    HeaderOk(r) && |r.points| <= MAX_POINTS && PointsOk(r.points)
  }

  lemma PointsAppend(points: seq<Point>, p: Point)
    requires PointsOk(points) && ReadingOk(p.reading)
    requires points == [] ==> p.sequence == 0
    requires points != [] ==> points[|points| - 1].at < p.at && p.sequence == points[|points| - 1].sequence + 1
    ensures PointsOk(points + [p])
  {
    forall i | 0 <= i < |points| ensures points[i].at < p.at && points[i].sequence < p.sequence {
      assert i < |points| - 1 ==> points[i].at < points[|points| - 1].at;
    }
  }

  lemma PointsWithout(points: seq<Point>, v: nat)
    requires PointsOk(points) && v < |points|
    ensures PointsOk(Without(points, v))
  {
    var kept := Without(points, v);
    assert forall i :: 0 <= i < |kept| ==> kept[i] == points[if i < v then i else i + 1];
  }

  lemma ExtendKeepsPoints(r: Replay, p: Point)
    requires |r.points| <= MAX_POINTS && PointsOk(r.points + [p])
    ensures |Extend(r, p).points| <= MAX_POINTS && PointsOk(Extend(r, p).points)
  {
    var points := r.points + [p];
    if |points| > MAX_POINTS {
      PointsWithout(points, Victim(points));
    }
  }

  lemma ExtendIsSound(r: Replay, s: State, now: int)
    requires Sound(r) && OutcomeOf(s.stats, r.points, now).Appended?
    ensures Sound(Extend(r, OutcomeOf(s.stats, r.points, now).point))
  {
    var p := OutcomeOf(s.stats, r.points, now).point;
    PointsAppend(r.points, p);
    ExtendKeepsPoints(r, p);
  }

  /** Recording keeps every recording sound, so a nonempty one always passes the validator. */
  lemma RecordKeepsSound(s: State, minimum: int, coverage: real, now: int)
    requires Applicable(s) ==> GoodStart(s, minimum, coverage)
    requires s.replay.Some? ==> Sound(s.replay.value)
    ensures var next := Record(s, minimum, coverage, now);
            && (next.replay.Some? ==> Sound(next.replay.value))
            && (next.replay.Some? && next.replay.value.points != [] ==> ValidReplay(next.replay.value))
            && next.pending == s.pending
  {
    if Applicable(s) {
      var r := Current(s, minimum, coverage);
      if OutcomeOf(s.stats, r.points, now).Appended? {
        ExtendIsSound(r, s, now);
      }
    }
  }

  /** One call leaves a valid recording exactly when it reads usable statistics or extends a recording with points. */
  lemma ValidExactly(s: State, minimum: int, coverage: real, now: int)
    requires Applicable(s) && GoodStart(s, minimum, coverage)
    requires s.replay.Some? ==> Sound(s.replay.value)
    ensures var next := Record(s, minimum, coverage, now);
            && next.replay.Some?
            && (ValidReplay(next.replay.value) <==>
                  ReadingOf(s.stats).Some? || (!Restarts(s) && s.replay.value.points != []))
  {
    RecordKeepsSound(s, minimum, coverage, now);
  }

  /** For example: a first call whose observed count is not a whole number leaves an empty recording. */
  lemma UnusableStart()
    ensures var stats := Stats(Some("b"), Some("a"), None, NotWhole, Whole(0), Nothing, Nothing, Nothing);
            var s := State("cohort", Entry, "b", "a", stats, None, false, map[]);
            && Applicable(s) && GoodStart(s, 1, 1.0)
            && Record(s, 1, 1.0, 0).replay.Some? && !ValidReplay(Record(s, 1, 1.0, 0).replay.value)
  {
    var stats := Stats(Some("b"), Some("a"), None, NotWhole, Whole(0), Nothing, Nothing, Nothing);
    ValidExactly(State("cohort", Entry, "b", "a", stats, None, false, map[]), 1, 1.0, 0);
  }

  /** A recording with points is copied over any earlier copy of the event; nothing else changes. */
  lemma FreezeIsValid(s: State, event: string)
    requires s.replay.Some? ==> Sound(s.replay.value)
    requires forall e :: e in s.pending ==> ValidReplay(s.pending[e])
    ensures var after := Freeze(s, event);
            && (forall e :: e in after.pending ==> ValidReplay(after.pending[e]))
            && (forall e :: e != event ==> (e in after.pending <==> e in s.pending))
            && (forall e :: e != event && e in s.pending ==> after.pending[e] == s.pending[e])
            && (s.replay.Some? && s.replay.value.points != [] ==>
                  event in after.pending && after.pending[event] == s.replay.value)
            && (s.replay.None? || s.replay.value.points == [] ==> after == s)
            && after.replay == s.replay
  {
  }

  // ---------------------------------------------------------------- the accepted points

  /** `accepted` lists, in order, the points of the current recording; each is numbered by its place. */
  predicate Numbered(accepted: seq<Point>) {
    forall k :: 0 <= k < |accepted| ==> accepted[k].sequence == k
  }

  /**
   * The stored points are accepted ones, unaltered and in order, with the first and the last;
   * some were dropped exactly when the recording says it is sampled.
   */
  predicate Faithful(r: Replay, accepted: seq<Point>) {
    && Numbered(accepted)
    && |r.points| == Min(|accepted|, MAX_POINTS)
    && (r.sampled <==> |r.points| < |accepted|)
    && Drawn(r.points, accepted)
    && (accepted != [] ==> r.points[0] == accepted[0] && r.points[|r.points| - 1] == accepted[|accepted| - 1])
  }

  /** Every stored point is the accepted one with its number. */
  predicate Drawn(points: seq<Point>, accepted: seq<Point>) {
    forall i :: 0 <= i < |points| ==>
      0 <= points[i].sequence < |accepted| && points[i] == accepted[points[i].sequence]
  }

  lemma DrawnAppend(points: seq<Point>, accepted: seq<Point>, p: Point)
    requires Drawn(points, accepted) && p.sequence == |accepted|
    ensures Drawn(points + [p], accepted + [p])
  {
  }

  lemma DrawnWithout(points: seq<Point>, accepted: seq<Point>, v: nat)
    requires Drawn(points, accepted) && 1 <= v < |points| - 1
    ensures Drawn(Without(points, v), accepted)
    ensures Without(points, v)[0] == points[0]
    ensures Without(points, v)[|points| - 2] == points[|points| - 1]
  {
    var kept := Without(points, v);
    assert forall i :: 0 <= i < |kept| ==> kept[i] == points[if i < v then i else i + 1];
  }

  lemma AppendIsFaithful(r: Replay, accepted: seq<Point>, p: Point)
    requires Faithful(r, accepted) && |r.points| < MAX_POINTS && p.sequence == |accepted|
    ensures Faithful(Extend(r, p), accepted + [p])
  {
    DrawnAppend(r.points, accepted, p);
  }

  lemma ThinIsFaithful(r: Replay, accepted: seq<Point>, p: Point)
    requires Faithful(r, accepted) && |r.points| == MAX_POINTS && p.sequence == |accepted|
    ensures Faithful(Extend(r, p), accepted + [p])
  {
    var points := r.points + [p];
    DrawnAppend(r.points, accepted, p);
    DrawnWithout(points, accepted + [p], Victim(points));
  }

  lemma ExtendIsFaithful(r: Replay, accepted: seq<Point>, p: Point)
    requires Faithful(r, accepted)
    requires p.sequence == if r.points == [] then 0 else r.points[|r.points| - 1].sequence + 1
    ensures Faithful(Extend(r, p), accepted + [p])
  {
    if |r.points| < MAX_POINTS {
      AppendIsFaithful(r, accepted, p);
    } else {
      ThinIsFaithful(r, accepted, p);
    }
  }

  // ---------------------------------------------------------------- whole runs

  /** A contest as it stands at some moment, with its statistics and limits. */
  datatype Contest = Contest(
    cohort: string, testing: string, champion: string, stats: Stats, minimum: int, coverage: real)

  datatype Step =
    | Begin(contest: Contest)
    | Observe(contest: Contest, now: int)
    | Keep(event: string)

  /** The state together with every point accepted into the current recording. */
  datatype History = History(state: State, accepted: seq<Point>)

  /** The state at the time of a call: its contest and statistics are whatever they now are. */
  function At(s: State, c: Contest): State {
    s.(cohort := c.cohort, testing := c.testing, champion := c.champion, stats := c.stats)
  }

  /** The point an outcome accepts, if any. */
  function AcceptedBy(o: Outcome): seq<Point> {
    if o.Appended? then [o.point] else []
  }

  function Added(s: State, c: Contest, now: int): seq<Point> {
    if !Applicable(s) then [] else AcceptedBy(OutcomeOf(s.stats, Current(s, c.minimum, c.coverage).points, now))
  }

  function Next(h: History, step: Step): History {
    match step
    case Begin(c) =>
      var s := At(h.state, c);
      History(s.(replay := Some(Start(s, c.minimum, c.coverage)), dirty := true), [])
    case Observe(c, now) =>
      var s := At(h.state, c);
      var base := if Restarts(s) then [] else h.accepted;
      History(Record(s, c.minimum, c.coverage, now), base + Added(s, c, now))
    case Keep(event) => h.(state := Freeze(h.state, event))
  }

  function Run(h: History, steps: seq<Step>): History {
    if steps == [] then h else Next(Run(h, steps[..|steps| - 1]), steps[|steps| - 1])
  }

  /** What the caller owes: a contest that is started or recorded has valid names and limits. */
  predicate GoodStep(s: State, step: Step) {
    match step
    case Begin(c) => GoodStart(At(s, c), c.minimum, c.coverage)
    case Observe(c, _) => Applicable(At(s, c)) ==> GoodStart(At(s, c), c.minimum, c.coverage)
    case Keep(_) => true
  }

  predicate GoodSteps(s: State, steps: seq<Step>) {
    forall i :: 0 <= i < |steps| ==> GoodStep(s, steps[i])
  }

  predicate Good(h: History) {
    && (h.state.replay.None? ==> h.accepted == [])
    && (h.state.replay.Some? ==> Sound(h.state.replay.value) && Faithful(h.state.replay.value, h.accepted))
    && (forall e :: e in h.state.pending ==> ValidReplay(h.state.pending[e]))
  }

  lemma CurrentIsFaithful(s: State, accepted: seq<Point>, minimum: int, coverage: real)
    requires s.replay.Some? ==> Faithful(s.replay.value, accepted)
    requires Applicable(s)
    ensures Faithful(Current(s, minimum, coverage), if Restarts(s) then [] else accepted)
  {
  }

  lemma OutcomeIsFaithful(s: State, r: Replay, base: seq<Point>, now: int)
    requires Faithful(r, base)
    ensures var o := OutcomeOf(s.stats, r.points, now); Faithful(Applied(r, o), base + AcceptedBy(o))
  {
    var o := OutcomeOf(s.stats, r.points, now);
    if o.Appended? {
      ExtendIsFaithful(r, base, o.point);
    } else {
      assert base + [] == base;
    }
  }

  lemma ObserveIsFaithful(h: History, c: Contest, now: int)
    requires h.state.replay.Some? ==> Faithful(h.state.replay.value, h.accepted)
    requires Applicable(At(h.state, c))
    ensures var next := Next(h, Observe(c, now));
            next.state.replay.Some? && Faithful(next.state.replay.value, next.accepted)
  {
    var s := At(h.state, c);
    CurrentIsFaithful(s, h.accepted, c.minimum, c.coverage);
    OutcomeIsFaithful(s, Current(s, c.minimum, c.coverage), if Restarts(s) then [] else h.accepted, now);
  }

  lemma NextIsGood(h: History, step: Step)
    requires Good(h) && GoodStep(h.state, step)
    ensures Good(Next(h, step))
  {
    match step
    case Begin(c) =>
    case Observe(c, now) =>
      var s := At(h.state, c);
      RecordKeepsSound(s, c.minimum, c.coverage, now);
      if Applicable(s) {
        ObserveIsFaithful(h, c, now);
      } else {
        assert h.accepted + [] == h.accepted;
      }
    case Keep(event) => FreezeIsValid(h.state, event);
  }

  /** Over any run of starts, calls and freezes from a state without a recording. */
  lemma {:induction false} RecordingIsFaithful(s: State, steps: seq<Step>)
    requires s.replay.None? && s.pending == map[] && GoodSteps(s, steps)
    ensures Good(Run(History(s, []), steps))
  {
    if steps == [] {
    } else {
      var init, last := steps[..|steps| - 1], steps[|steps| - 1];
      RecordingIsFaithful(s, init);
      assert GoodStep(s, last);
      NextIsGood(Run(History(s, []), init), last);
    }
  }

  /** Since the recording last began afresh, some call read usable statistics. */
  predicate Supplied(h: History, steps: seq<Step>) {
    if steps == [] then false
    else
      var init, last := steps[..|steps| - 1], steps[|steps| - 1];
      match last
      case Begin(_) => false
      case Observe(c, _) =>
        var s := At(Run(h, init).state, c);
        if Applicable(s) then ReadingOf(c.stats).Some? || (!Restarts(s) && Supplied(h, init)) else Supplied(h, init)
      case Keep(_) => Supplied(h, init)
  }

  /** Over whole runs a recording passes the validator exactly when it was supplied. */
  lemma {:induction false} ValidRunExactly(s: State, steps: seq<Step>)
    requires s.replay.None? && s.pending == map[] && GoodSteps(s, steps)
    ensures var r := Run(History(s, []), steps).state.replay;
            r.Some? && ValidReplay(r.value) <==> Supplied(History(s, []), steps)
  {
    if steps == [] {
    } else {
      var init, last := steps[..|steps| - 1], steps[|steps| - 1];
      ValidRunExactly(s, init);
      RecordingIsFaithful(s, init);
      assert GoodStep(s, last);
      SuppliedStep(Run(History(s, []), init), last);
    }
  }

  /** One step of that equivalence; a valid recording is one with points. */
  lemma SuppliedStep(h: History, step: Step)
    requires Good(h) && GoodStep(h.state, step)
    ensures var valid, after := h.state.replay.Some? && ValidReplay(h.state.replay.value), Next(h, step).state.replay;
            (after.Some? && ValidReplay(after.value)) <==>
            match step
            case Begin(_) => false
            case Observe(c, _) =>
              if Applicable(At(h.state, c))
              then ReadingOf(c.stats).Some? || (!Restarts(At(h.state, c)) && valid) else valid
            case Keep(_) => valid
  {
    if step.Observe? && Applicable(At(h.state, step.contest)) {
      ValidExactly(At(h.state, step.contest), step.contest.minimum, step.contest.coverage, step.now);
    }
  }

  /** A frozen copy stays as it is until the same event is frozen again. */
  lemma {:induction false} FrozenStays(h: History, steps: seq<Step>, event: string)
    requires event in h.state.pending && forall i :: 0 <= i < |steps| ==> steps[i] != Keep(event)
    ensures var after := Run(h, steps).state.pending;
            event in after && after[event] == h.state.pending[event]
  {
    if steps == [] {
    } else {
      FrozenStays(h, steps[..|steps| - 1], event);
      assert steps[|steps| - 1] != Keep(event);
    }
  }

  /** Points of other contestants or rules are never joined, and the cut is marked. */
  lemma RestartIsMarked(s: State, minimum: int, coverage: real, now: int)
    requires Restarts(s)
    ensures var next := Record(s, minimum, coverage, now);
            && next.replay.Some? && |next.replay.value.points| <= 1 && !next.replay.value.sampled
            && next.replay.value.candidate == s.testing && next.replay.value.champion == s.champion
            && next.replay.value.scoring == s.stats.scoring && next.dirty
            && (s.replay.None? || s.replay.value.points != [] || s.replay.value.partial ==> next.replay.value.partial)
  {
  }
}
