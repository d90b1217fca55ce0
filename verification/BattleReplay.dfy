/** The recorder's procedures on one skill's mutable state, and the validator's loop. */
module BattleReplay {
  import opened Common
  import opened ReplayModel

  /** Scan the inner points for the least important one, the earliest on a tie. */
  method LeastImportant(points: seq<Point>) returns (v: nat)
    requires |points| > 2
    ensures IsVictim(points, v) && v == Victim(points)
  {
    v := 1;
    for i := 2 to |points| - 1
      invariant v == LeastTo(points, i - 1)
    {
      if Lighter(WeightOf(points, i), WeightOf(points, v)) {
        v := i;
      }
    }
  }

  /** One more point is compared with its predecessor only. */
  lemma NextPointOk(points: seq<Point>, i: nat)
    requires i < |points| && PointsOk(points[..i])
    ensures PointsOk(points[..i + 1]) <==>
              && ReadingOk(points[i].reading) && points[i].sequence > (if i == 0 then -1 else points[i - 1].sequence)
              && (i > 0 ==> points[i - 1].at < points[i].at)
  {
    var before, upTo := points[..i], points[..i + 1];
    assert upTo == before + [points[i]];
    if PointsOk(upTo) && i > 0 {
      assert upTo[i - 1].at < upTo[i].at;
    }
  }

  /** Accepts exactly the valid replays; times and numbers are compared with the previous point only. */
  method CheckReplay(r: Replay) returns (ok: bool)
    ensures ok == ValidReplay(r)
  {
    ok := HeaderOk(r) && 1 <= |r.points| <= MAX_POINTS;
    var i := 0;
    while ok && i < |r.points|
      invariant 0 <= i <= |r.points|
      invariant ok ==> HeaderOk(r) && 1 <= |r.points| <= MAX_POINTS && PointsOk(r.points[..i])
      invariant !ok ==> !ValidReplay(r)
    {
      var p := r.points[i];
      NextPointOk(r.points, i);
      ok := ReadingOk(p.reading) && p.sequence > (if i == 0 then -1 else r.points[i - 1].sequence)
            && (i > 0 ==> r.points[i - 1].at < p.at);
      i := i + 1;
    }
    assert ok ==> r.points[..i] == r.points;
  }

  /** Ignore unusable or unchanged statistics; note a clock that did not advance; else number a new point. */
  method Consider(stats: Stats, points: seq<Point>, now: int) returns (o: Outcome)
    ensures o == OutcomeOf(stats, points, now)
  {
    var reading := ReadingOf(stats);
    if reading.None? || (points != [] && points[|points| - 1].reading == reading.value) {
      return Ignored;
    }
    if points != [] && now <= points[|points| - 1].at {
      return Late;
    }
    return Appended(Point(reading.value, now, if points == [] then 0 else points[|points| - 1].sequence + 1));
  }

  class ChallengerSkillState {
    var cohort: string
    var skill: Skill
    var testing: string
    var champion: string
    var stats: Stats
    var replay: Option<Replay>
    var dirty: bool
    var pending: map<string, Replay>

    ghost function View(): State
      reads this
    {
      State(cohort, skill, testing, champion, stats, replay, dirty, pending)
    }

    constructor (cohort: string, skill: Skill, testing: string, champion: string, stats: Stats)
      ensures View() == State(cohort, skill, testing, champion, stats, None, false, map[])
    {
      this.cohort, this.skill, this.testing, this.champion, this.stats := cohort, skill, testing, champion, stats;
      replay, dirty, pending := None, false, map[];
    }

    method StartReplay(minimum: int, coverage: real, partial: bool)
      modifies this`replay, this`dirty
      ensures replay == Some(Start(old(View()), minimum, coverage).(partial := partial)) && dirty
    {
      replay := Some(
        Replay(VERSION, cohort, skill, testing, champion, minimum, coverage, stats.scoring, partial, false, []));
      dirty := true;
    }

    /** Make `replay` the recording of the present contest under the present rules. */
    method Prepare(minimum: int, coverage: real)
      requires Applicable(View())
      modifies this`replay, this`dirty
      ensures replay == Some(Current(old(View()), minimum, coverage))
      ensures dirty == (old(dirty) || Restarts(old(View())))
    {
      if replay.Some? && replay.value.scoring != stats.scoring {
        StartReplay(minimum, coverage, replay.value.points != [] || replay.value.partial);
      }
      if replay.None? || replay.value.candidate != testing || replay.value.champion != champion {
        StartReplay(minimum, coverage, true);
      }
    }

    /** Append a point, dropping the least important inner one when the list is full. */
    method Append(p: Point)
      requires replay.Some?
      modifies this`replay, this`dirty
      ensures replay == Some(Extend(old(replay.value), p)) && dirty
    {
      var points := replay.value.points + [p];
      if |points| > MAX_POINTS {
        var v := LeastImportant(points);
        replay := Some(replay.value.(points := points[..v] + points[v + 1..], sampled := true));
      } else {
        replay := Some(replay.value.(points := points));
      }
      dirty := true;
    }

    /** Carry out what was decided about the present statistics. */
    method Apply(o: Outcome)
      requires replay.Some?
      modifies this`replay, this`dirty
      ensures replay == Some(Applied(old(replay.value), o)) && dirty == (old(dirty) || !o.Ignored?)
    {
      match o
      case Ignored =>
      case Late => replay, dirty := Some(replay.value.(partial := true)), true;
      case Appended(p) => Append(p);
    }

    method RecordReplay(minimum: int, coverage: real, now: int)
      modifies this`replay, this`dirty
      ensures View() == Record(old(View()), minimum, coverage, now)
    {
      if testing == "" || champion == "" || stats.candidate != Some(testing) || stats.champion != Some(champion) {
        return;
      }
      Prepare(minimum, coverage);
      var o := Consider(stats, replay.value.points, now);
      Apply(o);
    }

    method FreezeReplay(event: string)
      modifies this`pending
      ensures View() == Freeze(old(View()), event)
    {
      if replay.Some? && replay.value.points != [] {
        pending := pending[event := replay.value];
      }
    }
  }
}
