/** Exactly which records an append takes, how it stores them, and what an hour row says of its records. */
module StoreService {
  import opened Common
  import opened StoreModel
  import opened StoreRuns

  // ---------------------------------------------------------------- one append

  predicate IsHex(c: char) {
    '0' <= c <= '9' || 'a' <= c <= 'f'
  }

  /** A boot of 32 hexadecimal digits, a sequence below 2 to the 53rd, at most a day of time, no negative end. */
  predicate Sensible(r: Record) {
    var i := r.interval;
    && |i.boot| == 32 && (forall k :: 0 <= k < 32 ==> IsHex(i.boot[k])) && i.seqNo < 9_007_199_254_740_992
    && 0.0 <= i.elapsed && i.elapsed <= 86_400.0 && i.end >= 0.0
  }

  /** Beyond its boot's watermark, or of an unknown boot and later than every retired one. */
  predicate Unseen(s: Store, i: Interval) {
    if i.boot in s.boots then i.seqNo > s.boots[i.boot].seqNo else i.end > s.retiredBefore
  }

  lemma HexIs(c: char)
    ensures c in "0123456789abcdef" <==> IsHex(c)
  {
    var hex := "0123456789abcdef";
    if c in hex {
      var i :| 0 <= i < |hex| && hex[i] == c;
    }
    if '0' <= c <= '9' {
      assert hex[c as int - '0' as int] == c;
    } else if 'a' <= c <= 'f' {
      assert hex[10 + c as int - 'a' as int] == c;
    }
  }

  lemma SensibleIs(r: Record)
    ensures Sensible(r) == WellFormed(r)
  {
    forall c ensures c in "0123456789abcdef" <==> IsHex(c) {
      HexIs(c);
    }
    var boot := r.interval.boot;
    if |boot| == 32 && forall k :: 0 <= k < 32 ==> IsHex(boot[k]) {
      forall c | c in boot ensures c in "0123456789abcdef" {
        var k :| 0 <= k < |boot| && boot[k] == c;
      }
    } else if |boot| == 32 {
      var k :| 0 <= k < 32 && !IsHex(boot[k]);
      assert boot[k] in boot;
    }
  }

  /**
   * A sensible record is answered as a duplicate up to its boot's watermark. It commits exactly if it
   * is unseen, has at most eight events, encodes, finds room, and clashes with no stored row that
   * cannot be reclaimed; without room it pauses the store, and in every other case it fails.
   */
  lemma AppendExactly(s: Store, r: Record, c: Conditions)
    ensures var i, out := r.interval, Result(s, r, c);
            && (out == Duplicate <==> Sensible(r) && i.boot in s.boots && i.seqNo <= s.boots[i.boot].seqNo)
            && (out == Paused <==> Sensible(r) && Unseen(s, i) && r.events <= 8 && c.encodes && !c.room)
            && (out == Committed <==>
                  && Sensible(r) && Unseen(s, i) && r.events <= 8 && c.encodes && c.room && c.hourEncodes
                  && (IntervalKey(i.boot, i.seqNo) in s.minutes ==> c.reclaim)
                  && forall n :: 0 <= n < r.kept ==> EventKey(i.boot, i.seqNo, n) !in s.events)
  {
    SensibleIs(r);
    EventKeys(r.interval, r.kept);
    if NewEvents(r).Keys * s.events.Keys == {} {
      forall n | 0 <= n < r.kept ensures EventKey(r.interval.boot, r.interval.seqNo, n) !in s.events {
        var k := EventKey(r.interval.boot, r.interval.seqNo, n);
        assert k in s.events ==> k in NewEvents(r).Keys * s.events.Keys;
      }
    }
  }

  lemma {:induction false} EventKeys(i: Interval, kept: nat)
    ensures forall n :: 0 <= n < kept ==> EventKey(i.boot, i.seqNo, n) in EventRows(i, kept)
  {
    if kept > 0 {
      EventKeys(i, kept - 1);
    }
  }

  /** The stored interval notes a skipped sequence and how many events were left out, and is otherwise as offered. */
  lemma StoredExactly(s: Store, r: Record)
    ensures var i, out := r.interval, Stored(s, r);
            var next := if i.boot in s.boots then s.boots[i.boot].seqNo + 1 else 0;
            && out.(flags := i.flags, omitted := i.omitted) == i
            && out.omitted == (if r.kept < r.events then r.events - r.kept else i.omitted)
            && forall f :: f in out.flags <==>
                 || f in i.flags
                 || (f == "recording_gap" && i.seqNo > next)
                 || (f == "event_omitted" && r.kept < r.events)
  {
  }

  lemma HourExactly(i: Interval, h: int)
    ensures HourOf(i) == h <==> 3600.0 * h as real <= i.end && i.end < 3600.0 * (h + 1) as real
  {
    var q := i.end / 3600.0;
    assert q * 3600.0 == i.end;
  }

  // ---------------------------------------------------------------- what an hour row says

  function Omitted(parts: seq<Interval>): seq<int> {
    seq(|parts|, i requires 0 <= i < |parts| => parts[i].omitted)
  }

  /** The left-out events of an hour are those of its records. */
  lemma {:induction false} FoldOmitted(parts: seq<Interval>)
    requires parts != [] && AllShaped(parts)
    ensures FoldHour(parts).omitted == Total(Omitted(parts))
  {
    var n := |parts| - 1;
    assert Omitted(parts)[..n] == Omitted(parts[..n]);
    if n > 0 {
      FoldOmitted(parts[..n]);
    } else {
      assert Total(Omitted(parts)[..n]) == 0;
    }
  }

  /** The row's context and boot are those of its last record, its end the latest of all. */
  lemma {:induction false} FoldLast(parts: seq<Interval>)
    requires parts != [] && AllShaped(parts)
    ensures var row, last := FoldHour(parts), parts[|parts| - 1];
            row.context == last.context && row.boot == last.boot
    ensures IsLatest(parts, FoldHour(parts).end)
  {
    var n := |parts| - 1;
    if n > 0 {
      FoldLast(parts[..n]);
      var before := FoldHour(parts[..n]).end;
      var i :| 0 <= i < n && parts[..n][i].end == before;
      assert parts[i].end == before;
      forall j | 0 <= j < |parts| ensures parts[j].end <= FoldHour(parts).end {
        assert j < n ==> parts[..n][j] == parts[j];
      }
      assert FoldHour(parts).end == parts[i].end || FoldHour(parts).end == parts[n].end;
    } else {
      assert parts[0].end == FoldHour(parts).end;
    }
  }

  predicate IsLatest(parts: seq<Interval>, end: real) {
    && (forall i :: 0 <= i < |parts| ==> parts[i].end <= end)
    && exists i :: 0 <= i < |parts| && parts[i].end == end
  }

  /** Between a record and those before it: another context, another boot, or more than five seconds of nothing. */
  ghost predicate Marks(parts: seq<Interval>, i: nat, f: string)
    requires 0 < i < |parts|
  {
    || (f == "mixed_context" && parts[i].context != parts[i - 1].context)
    || (f == "multiple_boots" && parts[i].boot != parts[i - 1].boot)
    || (f == "recording_gap" && exists end :: IsLatest(parts[..i], end) && parts[i].start > end + 5.0)
  }

  ghost predicate Caused(parts: seq<Interval>, f: string) {
    || (exists i: nat :: i < |parts| && f in parts[i].flags)
    || (exists i: nat :: 0 < i < |parts| && Marks(parts, i, f))
  }

  lemma LatestUnique(parts: seq<Interval>, a: real, b: real)
    requires IsLatest(parts, a) && IsLatest(parts, b)
    ensures a == b
  {
  }

  lemma MergedFlags(a: Interval, b: Interval, f: string)
    requires WellShaped(a.pipeline) && WellShaped(b.pipeline)
    ensures f in MergeHour(a, b).flags <==>
              || f in a.flags || f in b.flags
              || (f == "mixed_context" && b.context != a.context) || (f == "multiple_boots" && b.boot != a.boot)
              || (f == "recording_gap" && b.start > a.end + 5.0)
  {
  }

  lemma MarksAfter(parts: seq<Interval>, n: nat, f: string, end: real)
    requires 0 < n < |parts| && IsLatest(parts[..n], end)
    ensures Marks(parts, n, f) <==>
              || (f == "mixed_context" && parts[n].context != parts[n - 1].context)
              || (f == "multiple_boots" && parts[n].boot != parts[n - 1].boot)
              || (f == "recording_gap" && parts[n].start > end + 5.0)
  {
    if e :| IsLatest(parts[..n], e) && parts[n].start > e + 5.0 {
      LatestUnique(parts[..n], e, end);
    }
  }

  lemma LastMarks(parts: seq<Interval>, before: Interval, f: string)
    requires |parts| > 1 && WellShaped(before.pipeline) && WellShaped(parts[|parts| - 1].pipeline)
    requires before.context == parts[|parts| - 2].context && before.boot == parts[|parts| - 2].boot
    requires IsLatest(parts[..|parts| - 1], before.end)
    ensures var n := |parts| - 1;
            f in MergeHour(before, parts[n]).flags <==> f in before.flags || f in parts[n].flags || Marks(parts, n, f)
  {
    var n := |parts| - 1;
    MergedFlags(before, parts[n], f);
    MarksAfter(parts, n, f, before.end);
  }

  lemma CausedMore(parts: seq<Interval>, f: string)
    requires |parts| > 1
    ensures var n := |parts| - 1;
            Caused(parts, f) <==> Caused(parts[..n], f) || f in parts[n].flags || Marks(parts, n, f)
  {
    var n := |parts| - 1;
    var init := parts[..n];
    forall i: nat | 0 < i < n ensures Marks(init, i, f) == Marks(parts, i, f) {
      assert init[..i] == parts[..i];
    }
    if i: nat :| i < n && f in init[i].flags {
      assert f in parts[i].flags;
    }
    if i: nat :| i < |parts| && f in parts[i].flags && i < n {
      assert f in init[i].flags;
    }
    if i: nat :| 0 < i < n && Marks(init, i, f) {
      assert Marks(parts, i, f);
    }
    if i: nat :| 0 < i < |parts| && Marks(parts, i, f) && i < n {
      assert Marks(init, i, f);
    }
  }

  /** A flag of an hour row is one of its records', or marks a change or a gap between them. */
  lemma {:induction false} FoldFlags(parts: seq<Interval>, f: string)
    requires parts != [] && AllShaped(parts)
    ensures f in FoldHour(parts).flags <==> Caused(parts, f)
  {
    if |parts| == 1 {
      assert f in parts[0].flags <==> Caused(parts, f);
    } else {
      var init := parts[..|parts| - 1];
      FoldFlags(init, f);
      FoldLast(init);
      LastMarks(parts, FoldHour(init), f);
      CausedMore(parts, f);
    }
  }

  // ---------------------------------------------------------------- phases

  function PhaseCount(parts: seq<Interval>, name: string): int {
    if parts == [] then 0
    else
      var last := parts[|parts| - 1].phases;
      PhaseCount(parts[..|parts| - 1], name) + (if name in last then last[name].count else 0)
  }

  function PhaseTime(parts: seq<Interval>, name: string): real {
    if parts == [] then 0.0
    else
      var last := parts[|parts| - 1].phases;
      PhaseTime(parts[..|parts| - 1], name) + (if name in last then last[name].total else 0.0)
  }

  predicate Timed(parts: seq<Interval>, name: string) {
    exists i :: 0 <= i < |parts| && name in parts[i].phases
  }

  /** The longest time of the phase in any of the records; no time is negative. */
  predicate IsLongest(parts: seq<Interval>, name: string, x: real) {
    && (forall i :: 0 <= i < |parts| && name in parts[i].phases ==> parts[i].phases[name].longest <= x)
    && exists i :: 0 <= i < |parts| && name in parts[i].phases && parts[i].phases[name].longest == x
  }

  lemma MergedPhase(a: map<string, Phase>, b: map<string, Phase>, name: string)
    ensures name in MergePhases(a, b) <==> name in a || name in b
    ensures name in MergePhases(a, b) ==>
              var out := MergePhases(a, b)[name];
              && out.count == (if name in a then a[name].count else 0) + (if name in b then b[name].count else 0)
              && out.total == (if name in a then a[name].total else 0.0) + (if name in b then b[name].total else 0.0)
              && (name !in b ==> out == a[name])
              && (name in b ==>
                    out.longest == MaxReal(if name in a then a[name].longest else 0.0, b[name].longest))
  {
  }

  lemma TimedMore(parts: seq<Interval>, name: string)
    requires parts != []
    ensures var n := |parts| - 1; Timed(parts, name) <==> Timed(parts[..n], name) || name in parts[n].phases
  {
    var n := |parts| - 1;
    if i :| 0 <= i < n && name in parts[..n][i].phases {
      assert name in parts[i].phases;
    }
    if i :| 0 <= i < |parts| && name in parts[i].phases && i < n {
      assert name in parts[..n][i].phases;
    }
  }

  lemma UntimedIsZero(parts: seq<Interval>, name: string)
    requires !Timed(parts, name)
    ensures PhaseCount(parts, name) == 0 && PhaseTime(parts, name) == 0.0
  {
    if parts != [] {
      var n := |parts| - 1;
      TimedMore(parts, name);
      UntimedIsZero(parts[..n], name);
    }
  }

  /** A phase of an hour row has the counts and times of all its records. */
  lemma {:induction false} FoldPhases(parts: seq<Interval>, name: string)
    requires parts != [] && AllShaped(parts)
    ensures name in FoldHour(parts).phases <==> Timed(parts, name)
    ensures Timed(parts, name) ==>
              && FoldHour(parts).phases[name].count == PhaseCount(parts, name)
              && FoldHour(parts).phases[name].total == PhaseTime(parts, name)
  {
    var n := |parts| - 1;
    TimedMore(parts, name);
    if n > 0 {
      FoldPhases(parts[..n], name);
      MergedPhase(FoldHour(parts[..n]).phases, parts[n].phases, name);
      if !Timed(parts[..n], name) {
        UntimedIsZero(parts[..n], name);
      }
    } else {
      assert parts[..0] == [];
    }
  }

  lemma LongestMore(parts: seq<Interval>, name: string, x: real, y: real)
    requires parts != [] && y >= 0.0
    requires var n := |parts| - 1;
             && (if Timed(parts[..n], name) then IsLongest(parts[..n], name, x) else x == 0.0)
             && y == (if name in parts[n].phases then MaxReal(x, parts[n].phases[name].longest) else x)
             && (name in parts[n].phases ==> parts[n].phases[name].longest >= 0.0)
             && (Timed(parts[..n], name) || name in parts[n].phases)
    ensures IsLongest(parts, name, y)
  {
    var n := |parts| - 1;
    var init := parts[..n];
    forall i | 0 <= i < |parts| && name in parts[i].phases ensures parts[i].phases[name].longest <= y {
      if i < n {
        assert init[i] == parts[i] && Timed(init, name);
      }
    }
    if name in parts[n].phases && parts[n].phases[name].longest == y {
    } else {
      var i :| 0 <= i < n && name in init[i].phases && init[i].phases[name].longest == x;
      assert parts[i] == init[i];
    }
  }

  /** And its longest time is the longest of any record. */
  lemma {:induction false} FoldLongest(parts: seq<Interval>, name: string)
    requires parts != [] && AllShaped(parts) && Timed(parts, name)
    requires forall i :: 0 <= i < |parts| && name in parts[i].phases ==> parts[i].phases[name].longest >= 0.0
    ensures name in FoldHour(parts).phases && IsLongest(parts, name, FoldHour(parts).phases[name].longest)
  {
    var n := |parts| - 1;
    FoldPhases(parts, name);
    if n > 0 {
      var init := parts[..n];
      TimedMore(parts, name);
      FoldPhases(init, name);
      MergedPhase(FoldHour(init).phases, parts[n].phases, name);
      if Timed(init, name) {
        FoldLongest(init, name);
        LongestMore(parts, name, FoldHour(init).phases[name].longest, FoldHour(parts).phases[name].longest);
      } else {
        LongestMore(parts, name, 0.0, FoldHour(parts).phases[name].longest);
      }
    } else {
      assert FoldHour(parts).phases[name].longest == parts[0].phases[name].longest;
    }
  }

  /** Over every run, what a live hour row says of left-out events, flags and phases is said by its records. */
  lemma HourRowTells(offers: seq<Offer>, h: int, f: string, name: string)
    requires Legal(Begin(), offers) && h in Exec(Begin(), offers).s.hours
    ensures var end := Exec(Begin(), offers);
            && h in end.parts && AllShaped(end.parts[h]) && RecordsOf(h, end.parts[h], end.accepted)
            && end.s.hours[h].omitted == Total(Omitted(end.parts[h]))
            && (f in end.s.hours[h].flags <==> Caused(end.parts[h], f))
            && (name in end.s.hours[h].phases <==> Timed(end.parts[h], name))
            && (name in end.s.hours[h].phases ==>
                  && end.s.hours[h].phases[name].count == PhaseCount(end.parts[h], name)
                  && end.s.hours[h].phases[name].total == PhaseTime(end.parts[h], name))
  {
    HourRowIsExact(offers, h);
    RunKeeps(Begin(), offers);
    var end := Exec(Begin(), offers);
    assert end.s.hours[h] == FoldHour(end.parts[h]);
    FoldOmitted(end.parts[h]);
    FoldFlags(end.parts[h], f);
    FoldPhases(end.parts[h], name);
  }
}
