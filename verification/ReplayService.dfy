/** Exactly what one call records, and which point thinning gives up. */
module ReplayService {
  import opened Common
  import opened ReplayModel

  // ---------------------------------------------------------------- the statistics of a call

  /** Both counts are whole (an absent one is zero) and consistent, every measure is a number or absent, and ordered. */
  predicate Usable(stats: Stats) {
    && stats.observed != NotWhole && stats.usable != NotWhole
    && 0 <= CountOf(stats.usable) <= CountOf(stats.observed)
    && stats.mean != Malformed && stats.lower != Malformed && stats.upper != Malformed
    && (stats.lower.Number? && stats.mean.Number? && stats.upper.Number? ==>
          stats.lower.x <= stats.mean.x && stats.mean.x <= stats.upper.x)
  }

  function CountOf(t: Tally): int {
    if t.Whole? then t.n else 0
  }

  predicate SameMeasure(m: Measure, x: Option<real>) {
    match m
    case Number(y) => x == Some(y)
    case _ => x == None
  }

  /** The reading carries these statistics, nothing rounded or replaced. */
  predicate Carries(g: Reading, stats: Stats) {
    && g.observed == CountOf(stats.observed) && g.usable == CountOf(stats.usable)
    && g.coverage == (if g.observed == 0 then 0.0 else g.usable as real / g.observed as real)
    && SameMeasure(stats.mean, g.mean) && SameMeasure(stats.lower, g.lower) && SameMeasure(stats.upper, g.upper)
  }

  lemma ReadingExactly(stats: Stats)
    ensures ReadingOf(stats).Some? <==> Usable(stats)
    ensures forall g :: Usable(stats) ==> (ReadingOf(stats) == Some(g) <==> Carries(g, stats))
  {
  }

  // ---------------------------------------------------------------- thinning

  /** The point alone tells where the mean was lost. */
  predicate OpensGap(points: seq<Point>, i: nat)
    requires 1 <= i < |points| - 1
  {
    points[i].reading.mean.None? && points[i - 1].reading.mean.Some?
  }

  predicate AllMeans(points: seq<Point>, i: nat)
    requires 1 <= i < |points| - 1
  {
    points[i - 1].reading.mean.Some? && points[i].reading.mean.Some? && points[i + 1].reading.mean.Some?
  }

  /** How far the mean lies from the middle of its neighbours' means. */
  function Bend(points: seq<Point>, i: nat): (d: real)
    requires 1 <= i < |points| - 1 && AllMeans(points, i)
    ensures d >= 0.0
  {
    var middle := (points[i - 1].reading.mean.value + points[i + 1].reading.mean.value) / 2.0;
    if points[i].reading.mean.value >= middle then points[i].reading.mean.value - middle
    else middle - points[i].reading.mean.value
  }

  /** `i` is given up rather than `j`: it opens no gap, and bends less where both lie among three means. */
  predicate LessMissed(points: seq<Point>, i: nat, j: nat)
    requires 1 <= i < |points| - 1 && 1 <= j < |points| - 1
  {
    && !OpensGap(points, i)
    && (|| OpensGap(points, j)
        || (AllMeans(points, j) && Bend(points, j) > 0.0
            && (AllMeans(points, i) ==> Bend(points, i) < Bend(points, j))))
  }

  lemma LighterIs(points: seq<Point>, i: nat, j: nat)
    requires 1 <= i < |points| - 1 && 1 <= j < |points| - 1
    ensures Lighter(WeightOf(points, i), WeightOf(points, j)) <==> LessMissed(points, i, j)
  {
  }

  /** Thinning gives up an inner point than which none is less missed, the first of those. */
  lemma VictimExactly(points: seq<Point>)
    requires |points| > 2
    ensures var v := Victim(points);
            && 1 <= v < |points| - 1
            && (forall j :: 1 <= j < |points| - 1 ==> !LessMissed(points, j, v))
            && (forall j :: 1 <= j < v ==> LessMissed(points, v, j))
  {
    var v := Victim(points);
    assert IsVictim(points, v);
    forall j | 1 <= j < |points| - 1
      ensures !LessMissed(points, j, v) && (j < v ==> LessMissed(points, v, j))
    {
      LighterIs(points, j, v);
      LighterIs(points, v, j);
    }
  }

  // ---------------------------------------------------------------- one call

  /** The statistics are of the two versions in contest. */
  predicate Concerns(s: State) {
    s.testing != "" && s.champion != "" && s.stats.candidate == Some(s.testing) && s.stats.champion == Some(s.champion)
  }

  /** The recording so far was made for the same contestants under the same scoring. */
  predicate Continues(s: State) {
    && s.replay.Some? && s.replay.value.scoring == s.stats.scoring
    && s.replay.value.candidate == s.testing && s.replay.value.champion == s.champion
  }

  function PointsSoFar(s: State): seq<Point> {
    if Continues(s) then s.replay.value.points else []
  }

  /** Something before the restart is missing from the new recording. */
  predicate StartsPartial(s: State) {
    if s.replay.Some? && s.replay.value.scoring != s.stats.scoring
    then s.replay.value.points != [] || s.replay.value.partial
    else true
  }

  predicate Repeats(s: State) {
    PointsSoFar(s) != [] && Carries(Last(s).reading, s.stats)
  }

  function Last(s: State): Point
    requires PointsSoFar(s) != []
  {
    PointsSoFar(s)[|PointsSoFar(s)| - 1]
  }

  predicate ComesLate(s: State, now: int) {
    Usable(s.stats) && !Repeats(s) && PointsSoFar(s) != [] && now <= Last(s).at
  }

  predicate Adds(s: State, now: int) {
    Usable(s.stats) && !Repeats(s) && (PointsSoFar(s) == [] || Last(s).at < now)
  }

  predicate IsNewPoint(s: State, now: int, p: Point) {
    && Carries(p.reading, s.stats) && p.at == now
    && p.sequence == (if PointsSoFar(s) == [] then 0 else Last(s).sequence + 1)
  }

  function Header(r: Replay): Replay {
    r.(partial := false, sampled := false, points := [])
  }

  lemma CurrentIs(s: State, minimum: int, coverage: real)
    ensures var r := Current(s, minimum, coverage);
            && r.points == PointsSoFar(s)
            && Header(r) == (if Continues(s) then Header(s.replay.value)
                             else Replay("battle-checkpoints-v1", s.cohort, s.skill, s.testing, s.champion,
                                         minimum, coverage, s.stats.scoring, false, false, []))
            && r.partial == (if Continues(s) then s.replay.value.partial else StartsPartial(s))
            && r.sampled == (Continues(s) && s.replay.value.sampled)
  {
  }

  lemma OutcomeIs(s: State, now: int)
    ensures var o := OutcomeOf(s.stats, PointsSoFar(s), now);
            && (o.Late? <==> ComesLate(s, now)) && (o.Appended? <==> Adds(s, now))
            && (o.Appended? ==> IsNewPoint(s, now, o.point))
  {
    ReadingExactly(s.stats);
    if PointsSoFar(s) != [] && Usable(s.stats) {
      assert ReadingOf(s.stats) == Some(Last(s).reading) <==> Carries(Last(s).reading, s.stats);
    }
  }

  /** `v` is the inner point that is given up when a 33rd would be held. */
  predicate Thinned(all: seq<Point>, points: seq<Point>, v: nat) {
    1 <= v < |all| - 1 && points == all[..v] + all[v + 1..]
    && (forall j :: 1 <= j < |all| - 1 ==> !LessMissed(all, j, v)) && (forall j :: 1 <= j < v ==> LessMissed(all, v, j))
  }

  lemma ExtendIs(r: Replay, p: Point)
    ensures var out, all := Extend(r, p), r.points + [p];
            && Header(out) == Header(r) && out.partial == r.partial
            && (|all| <= 32 ==> out.points == all && out.sampled == r.sampled)
            && (|all| > 32 ==> out.sampled && exists v :: Thinned(all, out.points, v))
  {
    var all := r.points + [p];
    if |all| > MAX_POINTS {
      VictimExactly(all);
      assert Thinned(all, Extend(r, p).points, Victim(all));
    }
  }

  /**
   * A call about other versions changes nothing. Otherwise the recording continues or starts anew with
   * this contest's header; usable statistics that are new and in time add one point that carries
   * them, giving up one inner point beyond 32; late ones only mark the recording; all others leave
   * its points alone.
   */
  lemma RecordExactly(s: State, minimum: int, coverage: real, now: int)
    ensures var after := Record(s, minimum, coverage, now);
            if !Concerns(s) then after == s
            else
              && after.replay.Some?
              && var r := after.replay.value;
                 && Header(r) == (if Continues(s) then Header(s.replay.value)
                                  else Replay("battle-checkpoints-v1", s.cohort, s.skill, s.testing, s.champion,
                                              minimum, coverage, s.stats.scoring, false, false, []))
                 && r.partial == (|| ComesLate(s, now)
                                  || (if Continues(s) then s.replay.value.partial else StartsPartial(s)))
                 && (!Adds(s, now) ==> r.points == PointsSoFar(s))
                 && (Adds(s, now) ==>
                       exists p :: IsNewPoint(s, now, p) &&
                                   (if |PointsSoFar(s)| < 32 then r.points == PointsSoFar(s) + [p]
                                    else r.sampled && exists v :: Thinned(PointsSoFar(s) + [p], r.points, v)))
                 && after.dirty == (s.dirty || !Continues(s) || Adds(s, now) || ComesLate(s, now))
                 && after == s.(replay := after.replay, dirty := after.dirty)
  {
    if Concerns(s) {
      CurrentIs(s, minimum, coverage);
      OutcomeIs(s, now);
      var r := Current(s, minimum, coverage);
      var o := OutcomeOf(s.stats, r.points, now);
      if o.Appended? {
        ExtendIs(r, o.point);
      }
    }
  }

  /** A recording that was started for this contest is partial after its first call only if that call came late. */
  lemma StartedIsWhole(s: State, minimum: int, coverage: real, now: int)
    requires Concerns(s)
    ensures var begun := s.(replay := Some(Start(s, minimum, coverage)));
            && Continues(begun) && PointsSoFar(begun) == [] && !Start(s, minimum, coverage).sampled
            && Record(begun, minimum, coverage, now).replay.Some?
            && !Record(begun, minimum, coverage, now).replay.value.partial
  {
    RecordExactly(s.(replay := Some(Start(s, minimum, coverage))), minimum, coverage, now);
  }

  // ---------------------------------------------------------------- the validator

  predicate GoodName(name: string) {
    0 < |name| && |name| <= 180
  }

  /** Each point alone: consistent counts, the share they give, ordered measures, a numbered place. */
  predicate GoodPoint(p: Point) {
    var g := p.reading;
    && 0 <= g.usable && g.usable <= g.observed && p.sequence >= 0
    && -0.000000001 <= g.coverage - Share(g.usable, g.observed) <= 0.000000001
    && (g.lower.Some? && g.mean.Some? && g.upper.Some? ==>
          g.lower.value <= g.mean.value && g.mean.value <= g.upper.value)
  }

  /**
   * The validator accepts exactly the recordings of this version with good names of two different
   * contestants, usable thresholds, and one to 32 good points that advance in time and number.
   */
  lemma ValidatorExactly(r: Replay)
    ensures ValidReplay(r) <==>
              && r.version == "battle-checkpoints-v1"
              && GoodName(r.cohort) && GoodName(r.candidate) && GoodName(r.champion)
              && r.candidate != r.champion && 0 < r.minimumSamples <= 10_000
              && r.minimumCoverage > 0.0 && r.minimumCoverage <= 1.0 && 0 < |r.points| <= 32
              && (forall p :: p in r.points ==> GoodPoint(p)) && Advancing(r.points)
  {
    PointsExactly(r.points);
  }

  /** Each point follows its neighbour in time and number. */
  predicate Advancing(points: seq<Point>) {
    forall i :: 0 < i < |points| ==>
      points[i - 1].at < points[i].at && points[i - 1].sequence < points[i].sequence
  }

  lemma PointsExactly(points: seq<Point>)
    ensures PointsOk(points) <==> (forall p :: p in points ==> GoodPoint(p)) && Advancing(points)
  {
    forall i | 0 <= i < |points|
      ensures GoodPoint(points[i]) <==> ReadingOk(points[i].reading) && points[i].sequence >= 0
    {
      GoodPointIs(points[i]);
    }
    assert forall i :: 0 <= i < |points| ==> points[i] in points;
    if Advancing(points) {
      forall i, j | 0 <= i < j < |points|
        ensures points[i].at < points[j].at && points[i].sequence < points[j].sequence
      {
        Advances(points, i, j);
      }
    }
  }

  lemma GoodPointIs(p: Point)
    ensures GoodPoint(p) <==> ReadingOk(p.reading) && p.sequence >= 0
  {
  }

  lemma {:induction false} Advances(points: seq<Point>, i: nat, j: nat)
    requires i < j < |points| && Advancing(points)
    ensures points[i].at < points[j].at && points[i].sequence < points[j].sequence
    decreases j
  {
    if i < j - 1 {
      Advances(points, i, j - 1);
    }
  }
}
