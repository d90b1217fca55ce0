/** Every run of appends on the diagnostics store, from empty. */
module StoreRuns {
  import opened Common
  import opened StoreModel

  /** The store with its history: what each live hour holds and every record ever merged. */
  datatype Tracked = Tracked(
    s: Store,
    parts: map<int, seq<Interval>>,
    merged: seq<IntervalKey>,
    accepted: map<IntervalKey, real>)

  datatype Offer = Offer(record: Record, conditions: Conditions, deletions: Deletions)

  function Begin(): Tracked {
    Tracked(EmptyStore(), map[], [], map[])
  }

  /** The record is newer than everything its boot had accepted. */
  predicate IsNew(t: Tracked, i: Interval) {
    forall k :: k in t.accepted && k.boot == i.boot ==> k.seqNo < i.seqNo
  }

  /** The record was accepted before and is offered again. */
  predicate IsReplay(t: Tracked, i: Interval) {
    KeyOf(i) in t.accepted && t.accepted[KeyOf(i)] == i.end
  }

  predicate Producible(r: Record) {
    WellShaped(r.interval.pipeline) && r.interval.intervals == 1 && r.interval.omitted == 0 && r.kept <= r.events
  }

  predicate Allowed(t: Tracked, o: Offer) {
    Producible(o.record) && (IsNew(t, o.record.interval) || IsReplay(t, o.record.interval))
  }

  /** Anything but a commit leaves every table and cached count as it was. */
  ghost predicate Commits(s: Store, o: Offer)
    requires Shaped(s.hours) && WellShaped(o.record.interval.pipeline)
  {
    Result(s, o.record, o.conditions).Committed? && GoodDeletions(s, o.record, o.conditions, o.deletions)
  }

  /** The parts with one more record in its hour. */
  function Extended(parts: map<int, seq<Interval>>, i: Interval): map<int, seq<Interval>> {
    var h := HourOf(i);
    parts[h := (if h in parts then parts[h] else []) + [i]]
  }

  function AfterCommit(t: Tracked, o: Offer): Tracked
    requires Shaped(t.s.hours) && WellShaped(o.record.interval.pipeline)
  {
    var i, d := o.record.interval, o.deletions;
    Tracked(Commit(t.s, o.record, d), Trim(Extended(t.parts, Stored(t.s, o.record)), d.expiredHours, d.excessHours),
            t.merged + [KeyOf(i)], t.accepted[KeyOf(i) := i.end])
  }

  ghost function Next(t: Tracked, o: Offer): Tracked
    requires Shaped(t.s.hours) && WellShaped(o.record.interval.pipeline)
  {
    if Commits(t.s, o) then AfterCommit(t, o) else t
  }

  ghost predicate Legal(t: Tracked, offers: seq<Offer>)
    decreases |offers|
  {
    offers == [] ||
    (Shaped(t.s.hours) && Allowed(t, offers[0]) && Legal(Next(t, offers[0]), offers[1..]))
  }

  ghost function Exec(t: Tracked, offers: seq<Offer>): Tracked
    requires Legal(t, offers)
    decreases |offers|
  {
    if offers == [] then t else Exec(Next(t, offers[0]), offers[1..])
  }

  // ---------------------------------------------------------------- hourly fold

  ghost predicate AllShaped(parts: seq<Interval>) {
    forall i :: 0 <= i < |parts| ==> WellShaped(parts[i].pipeline)
  }

  /** An hour row built by merging its records one after another. */
  ghost function FoldHour(parts: seq<Interval>): (out: Interval)
    requires parts != [] && AllShaped(parts)
    ensures WellShaped(out.pipeline)
  {
    if |parts| == 1 then parts[0]
    else MergeHour(FoldHour(parts[..|parts| - 1]), parts[|parts| - 1])
  }

  function Total(xs: seq<int>): int {
    if xs == [] then 0 else Total(xs[..|xs| - 1]) + xs[|xs| - 1]
  }

  function TotalReal(xs: seq<real>): real {
    if xs == [] then 0.0 else TotalReal(xs[..|xs| - 1]) + xs[|xs| - 1]
  }

  predicate IsMaximum(m: real, xs: seq<real>) {
    m in xs && forall x :: x in xs ==> x <= m
  }

  function Elapsed(parts: seq<Interval>): seq<real> {
    seq(|parts|, i requires 0 <= i < |parts| => parts[i].elapsed)
  }

  function Maxima(parts: seq<Interval>, k: nat): seq<real>
    requires forall i :: 0 <= i < |parts| ==> k < |parts[i].pipeline.maxima|
  {
    seq(|parts|, i requires 0 <= i < |parts| => parts[i].pipeline.maxima[k])
  }

  function Counters(parts: seq<Interval>, k: nat): seq<int>
    requires forall i :: 0 <= i < |parts| ==> k < |parts[i].pipeline.counters|
  {
    seq(|parts|, i requires 0 <= i < |parts| => parts[i].pipeline.counters[k])
  }

  function Buckets(parts: seq<Interval>, k: nat): (seq<int>, seq<int>)
    requires forall i :: 0 <= i < |parts| ==> k < |parts[i].pipeline.lag| && k < |parts[i].pipeline.critical|
  {
    (seq(|parts|, i requires 0 <= i < |parts| => parts[i].pipeline.lag[k]),
     seq(|parts|, i requires 0 <= i < |parts| => parts[i].pipeline.critical[k]))
  }

  lemma {:induction false} FoldCounters(parts: seq<Interval>, k: nat)
    requires parts != [] && AllShaped(parts) && k < 7
    ensures FoldHour(parts).pipeline.counters[k] == Total(Counters(parts, k))
  {
    var n := |parts| - 1;
    assert Counters(parts, k)[..n] == Counters(parts[..n], k);
    if n > 0 {
      FoldCounters(parts[..n], k);
    } else {
      assert Total(Counters(parts, k)[..n]) == 0;
    }
  }

  lemma {:induction false} FoldBuckets(parts: seq<Interval>, k: nat)
    requires parts != [] && AllShaped(parts) && k < HISTOGRAM
    ensures FoldHour(parts).pipeline.lag[k] == Total(Buckets(parts, k).0)
    ensures FoldHour(parts).pipeline.critical[k] == Total(Buckets(parts, k).1)
  {
    var n := |parts| - 1;
    assert Buckets(parts, k).0[..n] == Buckets(parts[..n], k).0;
    assert Buckets(parts, k).1[..n] == Buckets(parts[..n], k).1;
    if n > 0 {
      FoldBuckets(parts[..n], k);
    } else {
      assert Total(Buckets(parts, k).0[..n]) == 0 == Total(Buckets(parts, k).1[..n]);
    }
  }

  lemma {:induction false} FoldMaxima(parts: seq<Interval>, k: nat)
    requires parts != [] && AllShaped(parts) && k < 3
    ensures IsMaximum(FoldHour(parts).pipeline.maxima[k], Maxima(parts, k))
  {
    var n := |parts| - 1;
    var all := Maxima(parts, k);
    if n > 0 {
      FoldMaxima(parts[..n], k);
      assert all == Maxima(parts[..n], k) + [parts[n].pipeline.maxima[k]];
    } else {
      assert all == [parts[0].pipeline.maxima[k]];
    }
  }

  lemma {:induction false} FoldElapsed(parts: seq<Interval>)
    requires parts != [] && AllShaped(parts)
    requires forall i :: 0 <= i < |parts| ==> parts[i].intervals == 1
    ensures FoldHour(parts).elapsed == TotalReal(Elapsed(parts))
    ensures FoldHour(parts).intervals == |parts|
    ensures forall i :: 0 <= i < |parts| ==> FoldHour(parts).start <= parts[i].start
                                             && parts[i].end <= FoldHour(parts).end
  {
    var n := |parts| - 1;
    assert Elapsed(parts)[..n] == Elapsed(parts[..n]);
    if n > 0 {
      FoldElapsed(parts[..n]);
      forall i | 0 <= i < |parts|
        ensures FoldHour(parts).start <= parts[i].start && parts[i].end <= FoldHour(parts).end
      {
        if i < n { assert parts[..n][i] == parts[i]; }
      }
    } else {
      assert TotalReal(Elapsed(parts)[..n]) == 0.0;
    }
  }

  // ---------------------------------------------------------------- invariant

  /** Cached counts equal the real row counts. */
  predicate Counted(s: Store) {
    s.minuteCount == |s.minutes| && s.hourCount == |s.hours| && s.eventCount == |s.events|
    && s.bootCount == |s.boots|
  }

  predicate Capped(s: Store) {
    |s.minutes| <= MINUTE_ROWS && |s.hours| <= HOUR_ROWS && |s.events| <= EVENT_ROWS && |s.boots| <= BOOT_ROWS
  }

  /** Each live hour row is the fold of the records merged into it. */
  ghost predicate Folded(t: Tracked) {
    t.parts.Keys == t.s.hours.Keys
    && forall h :: h in t.parts ==> HourRow(h, t.s.hours[h], t.parts[h], t.merged)
  }

  /** An accepted record is remembered by its boot's watermark or by the retirement clock. */
  predicate Remembered(t: Tracked, k: IntervalKey)
    requires k in t.accepted
  {
    if k.boot in t.s.boots
    then k.seqNo <= t.s.boots[k.boot].seqNo && t.accepted[k] <= t.s.boots[k.boot].ended
    else t.accepted[k] <= t.s.retiredBefore
  }

  predicate OnceOnly(t: Tracked) {
    && Distinct(t.merged)
    && t.accepted.Keys == Elements(t.merged)
    && forall k :: k in t.accepted ==> Remembered(t, k)
  }

  ghost predicate Inv(t: Tracked) {
    Shaped(t.s.hours) && Counted(t.s) && Capped(t.s) && Folded(t) && OnceOnly(t)
  }

  lemma WithoutSize<K, V>(rows: map<K, V>, gone: set<K>)
    requires gone <= rows.Keys
    ensures Without(rows, gone).Keys == rows.Keys - gone
    ensures |Without(rows, gone)| == |rows| - |gone|
  {
    assert Without(rows, gone).Keys == rows.Keys - gone;
  }

  lemma TrimSize<K(!new), V>(
    rows: map<K, V>, at: map<K, real>, cached: int, cap: int, cutoff: real, expired: set<K>, excess: set<K>)
    requires at.Keys == rows.Keys && cached == |rows| && 0 <= cap && |rows| <= cap + 8
    requires TrimsRows(at, cached, cap, cutoff, expired, excess)
    ensures var out := Without(Without(rows, expired), excess);
            && |out| == |rows| - |expired| - |excess| && |out| <= cap
            && out.Keys == rows.Keys - expired - excess
  {
    WithoutSize(at, expired);
    WithoutSize(rows, expired);
    WithoutSize(Without(rows, expired), excess);
    assert |at.Keys| == |rows.Keys|;
  }

  lemma AddMinuteSize(minutes: map<IntervalKey, Interval>, i: Interval, reclaimed: set<IntervalKey>)
    requires reclaimed <= minutes.Keys && KeyOf(i) !in Without(minutes, reclaimed)
    ensures |AddMinute(minutes, i, reclaimed)| == |minutes| - |reclaimed| + 1
  {
    WithoutSize(minutes, reclaimed);
    assert AddMinute(minutes, i, reclaimed).Keys == Without(minutes, reclaimed).Keys + {KeyOf(i)};
  }

  lemma MinutesCounted(
    minutes: map<IntervalKey, Interval>, i: Interval, reclaimed: set<IntervalKey>, cutoff: real,
    expired: set<IntervalKey>, excess: set<IntervalKey>)
    requires |minutes| <= MINUTE_ROWS && reclaimed <= minutes.Keys && KeyOf(i) !in Without(minutes, reclaimed)
    requires TrimsRows(Starts(AddMinute(minutes, i, reclaimed)), |minutes| - |reclaimed| + 1, MINUTE_ROWS,
                       cutoff, expired, excess)
    ensures var out := Trim(AddMinute(minutes, i, reclaimed), expired, excess);
            |out| == |minutes| - |reclaimed| + 1 - |expired| - |excess| && |out| <= MINUTE_ROWS
  {
    AddMinuteSize(minutes, i, reclaimed);
    TrimSize(AddMinute(minutes, i, reclaimed), Starts(AddMinute(minutes, i, reclaimed)),
             |AddMinute(minutes, i, reclaimed)|, MINUTE_ROWS, cutoff, expired, excess);
  }

  lemma AddHourSize(hours: map<int, Interval>, i: Interval)
    requires Shaped(hours) && WellShaped(i.pipeline)
    ensures |AddHour(hours, i)| == |hours| + (if HourOf(i) in hours then 0 else 1)
    ensures AddHour(hours, i).Keys == hours.Keys + {HourOf(i)}
  {
    assert AddHour(hours, i).Keys == hours.Keys + {HourOf(i)};
  }

  lemma HoursCounted(hours: map<int, Interval>, i: Interval, cutoff: real, expired: set<int>, excess: set<int>)
    requires Shaped(hours) && WellShaped(i.pipeline) && |hours| <= HOUR_ROWS
    requires TrimsRows(Starts(AddHour(hours, i)), |hours| + (if HourOf(i) in hours then 0 else 1), HOUR_ROWS,
                       cutoff, expired, excess)
    ensures var out := Trim(AddHour(hours, i), expired, excess);
            |out| == |hours| + (if HourOf(i) in hours then 0 else 1) - |expired| - |excess| && |out| <= HOUR_ROWS
  {
    AddHourSize(hours, i);
    TrimSize(AddHour(hours, i), Starts(AddHour(hours, i)), |AddHour(hours, i)|, HOUR_ROWS, cutoff, expired, excess);
  }

  lemma JoinSize<K, V>(a: map<K, V>, b: map<K, V>)
    requires b.Keys * a.Keys == {}
    ensures |a + b| == |a| + |b|
  {
    forall k | k in a.Keys ensures k !in b.Keys {
      assert k in b.Keys ==> k in b.Keys * a.Keys;
    }
    assert (a + b).Keys == a.Keys + b.Keys;
    DisjointUnionSize(a.Keys, b.Keys);
  }

  lemma EventsCounted(
    events: map<EventKey, real>, added: map<EventKey, real>, cutoff: real,
    expired: set<EventKey>, excess: set<EventKey>)
    requires |events| <= EVENT_ROWS && |added| <= 8 && added.Keys * events.Keys == {}
    requires TrimsRows(events + added, |events| + |added|, EVENT_ROWS, cutoff, expired, excess)
    ensures var out := Trim(events + added, expired, excess);
            |out| == |events| + |added| - |expired| - |excess| && |out| <= EVENT_ROWS
  {
    JoinSize(events, added);
    TrimSize(events + added, events + added, |events| + |added|, EVENT_ROWS, cutoff, expired, excess);
  }

  lemma BootsCounted(s: Store, i: Interval, retired: Option<string>)
    requires s.bootCount == |s.boots| <= BOOT_ROWS
    requires RetiresOldest(AddBoot(s.boots, i), BootsAdded(s, i), i.boot, retired)
    ensures var out := RetireBoot(AddBoot(s.boots, i), retired);
            |out| == BootsAdded(s, i) - (if retired.Some? then 1 else 0) && |out| <= BOOT_ROWS
  {
    var boots := AddBoot(s.boots, i);
    assert boots.Keys == s.boots.Keys + {i.boot};
    assert |boots| == BootsAdded(s, i);
    assert |{i.boot}| == 1;
    if retired.Some? {
      WithoutSize(boots, {retired.value});
    }
  }

  lemma CommitMinutes(s: Store, r: Record, c: Conditions, d: Deletions)
    requires Shaped(s.hours) && WellShaped(r.interval.pipeline) && s.minuteCount == |s.minutes| <= MINUTE_ROWS
    requires Reclaims(s, Stored(s, r), c.reclaim, d.reclaimed)
    requires TrimsMinutes(s, r, d.reclaimed, d.expiredMinutes, d.excessMinutes)
    ensures Commit(s, r, d).minuteCount == |Commit(s, r, d).minutes| <= MINUTE_ROWS
  {
    MinutesCounted(s.minutes, Stored(s, r), d.reclaimed, Cutoff(s, r.interval, 30.0),
                   d.expiredMinutes, d.excessMinutes);
  }

  lemma CommitBoots(s: Store, r: Record, d: Deletions)
    requires Shaped(s.hours) && WellShaped(r.interval.pipeline) && s.bootCount == |s.boots| <= BOOT_ROWS
    requires RetiresOldest(AddBoot(s.boots, Stored(s, r)), BootsAdded(s, Stored(s, r)), r.interval.boot, d.retired)
    ensures Commit(s, r, d).bootCount == |Commit(s, r, d).boots| <= BOOT_ROWS
  {
    BootsCounted(s, Stored(s, r), d.retired);
  }

  lemma CommitHours(s: Store, r: Record, d: Deletions)
    requires Shaped(s.hours) && WellShaped(r.interval.pipeline) && s.hourCount == |s.hours| <= HOUR_ROWS
    requires TrimsHours(s, r, d.expiredHours, d.excessHours)
    ensures Commit(s, r, d).hourCount == |Commit(s, r, d).hours| <= HOUR_ROWS
  {
    HoursCounted(s.hours, Stored(s, r), Cutoff(s, r.interval, 365.0), d.expiredHours, d.excessHours);
  }

  /** The event table after a commit, spelled out. */
  lemma CommitEventTable(s: Store, r: Record, d: Deletions)
    requires Shaped(s.hours) && WellShaped(r.interval.pipeline)
    ensures Commit(s, r, d).events == Trim(s.events + NewEvents(r), d.expiredEvents, d.excessEvents)
    ensures Commit(s, r, d).eventCount == s.eventCount + |NewEvents(r)| - |d.expiredEvents| - |d.excessEvents|
  {
  }

  lemma CommitEvents(s: Store, r: Record, d: Deletions)
    requires Shaped(s.hours) && WellShaped(r.interval.pipeline) && s.eventCount == |s.events| <= EVENT_ROWS
    requires TrimsEvents(s, r, d.expiredEvents, d.excessEvents)
    requires r.kept <= 8 && NewEvents(r).Keys * s.events.Keys == {}
    ensures Commit(s, r, d).eventCount == |Commit(s, r, d).events| <= EVENT_ROWS
  {
    CommitEventTable(s, r, d);
    EventsCounted(s.events, NewEvents(r), Cutoff(s, r.interval, 90.0), d.expiredEvents, d.excessEvents);
  }

  /** Every cap holds and every cached count is exact after a committed append. */
  lemma CommitCounts(s: Store, r: Record, c: Conditions, d: Deletions)
    requires Shaped(s.hours) && WellShaped(r.interval.pipeline) && Counted(s) && Capped(s)
    requires Result(s, r, c).Committed? && GoodDeletions(s, r, c, d) && r.kept <= r.events
    ensures Counted(Commit(s, r, d)) && Capped(Commit(s, r, d))
  {
    CommitMinutes(s, r, c, d);
    CommitHours(s, r, d);
    CommitEvents(s, r, d);
    CommitBoots(s, r, d);
  }

  /** One hour row and the records behind it. */
  ghost predicate HourRow(h: int, row: Interval, parts: seq<Interval>, merged: seq<IntervalKey>) {
    && parts != [] && AllShaped(parts) && row == FoldHour(parts)
    && (forall i :: 0 <= i < |parts| ==>
          parts[i].intervals == 1 && HourOf(parts[i]) == h && KeyOf(parts[i]) in merged)
    && DistinctKeys(parts)
  }

  /** No record occurs twice. */
  predicate DistinctKeys(parts: seq<Interval>) {
    forall i, j :: 0 <= i < j < |parts| ==> KeyOf(parts[i]) != KeyOf(parts[j])
  }

  lemma HourRowGrows(
    h: int, hours: map<int, Interval>, parts: map<int, seq<Interval>>, merged: seq<IntervalKey>, i: Interval)
    requires Shaped(hours) && WellShaped(i.pipeline) && i.intervals == 1 && hours.Keys == parts.Keys
    requires KeyOf(i) !in merged
    requires h in parts ==> HourRow(h, hours[h], parts[h], merged)
    requires h in parts || h == HourOf(i)
    ensures HourRow(h, AddHour(hours, i)[h], Extended(parts, i)[h], merged + [KeyOf(i)])
  {
    assert h == HourOf(i) && h in parts ==> (parts[h] + [i])[..|parts[h]|] == parts[h];
  }

  lemma TrimmedRows(
    hours: map<int, Interval>, parts: map<int, seq<Interval>>, merged: seq<IntervalKey>,
    expired: set<int>, excess: set<int>)
    requires hours.Keys == parts.Keys
    requires forall h :: h in parts ==> HourRow(h, hours[h], parts[h], merged)
    ensures Trim(parts, expired, excess).Keys == Trim(hours, expired, excess).Keys
    ensures forall h :: h in Trim(parts, expired, excess) ==>
              HourRow(h, Trim(hours, expired, excess)[h], Trim(parts, expired, excess)[h], merged)
  {
  }

  lemma MergedRows(hours: map<int, Interval>, parts: map<int, seq<Interval>>, merged: seq<IntervalKey>, i: Interval)
    requires Shaped(hours) && WellShaped(i.pipeline) && i.intervals == 1 && hours.Keys == parts.Keys
    requires KeyOf(i) !in merged && forall h :: h in parts ==> HourRow(h, hours[h], parts[h], merged)
    ensures AddHour(hours, i).Keys == Extended(parts, i).Keys
    ensures forall h :: h in Extended(parts, i) ==>
              HourRow(h, AddHour(hours, i)[h], Extended(parts, i)[h], merged + [KeyOf(i)])
  {
    AddHourSize(hours, i);
    assert Extended(parts, i).Keys == parts.Keys + {HourOf(i)};
    forall h | h in Extended(parts, i)
      ensures HourRow(h, AddHour(hours, i)[h], Extended(parts, i)[h], merged + [KeyOf(i)])
    {
      HourRowGrows(h, hours, parts, merged, i);
    }
  }

  lemma CommitFolds(t: Tracked, o: Offer)
    requires Shaped(t.s.hours) && Folded(t) && Producible(o.record) && KeyOf(o.record.interval) !in t.merged
    ensures Folded(AfterCommit(t, o)) && Shaped(AfterCommit(t, o).s.hours)
  {
    var i, d := Stored(t.s, o.record), o.deletions;
    MergedRows(t.s.hours, t.parts, t.merged, i);
    TrimmedRows(AddHour(t.s.hours, i), Extended(t.parts, i), t.merged + [KeyOf(i)], d.expiredHours, d.excessHours);
    CommitHourTables(t, o);
  }

  /** The hour tables after a commit, spelled out. */
  lemma CommitHourTables(t: Tracked, o: Offer)
    requires Shaped(t.s.hours) && WellShaped(o.record.interval.pipeline)
    ensures var t', i, d := AfterCommit(t, o), Stored(t.s, o.record), o.deletions;
            && t'.s.hours == Trim(AddHour(t.s.hours, i), d.expiredHours, d.excessHours)
            && t'.parts == Trim(Extended(t.parts, Stored(t.s, o.record)), d.expiredHours, d.excessHours)
            && t'.merged == t.merged + [KeyOf(o.record.interval)]
  {
  }

  lemma RememberedBy(
    boots: map<string, Boot>, clock: real, i: Interval, retired: Option<string>, k: IntervalKey, end: real)
    requires i.boot in boots || i.end > clock
    requires k.boot == i.boot ==> k.seqNo <= i.seqNo
    requires k != KeyOf(i) ==>
      if k.boot in boots then k.seqNo <= boots[k.boot].seqNo && end <= boots[k.boot].ended else end <= clock
    requires k == KeyOf(i) ==> end == i.end
    ensures var after := RetireBoot(AddBoot(boots, i), retired);
            if k.boot in after then k.seqNo <= after[k.boot].seqNo && end <= after[k.boot].ended
            else end <= RetireClock(clock, AddBoot(boots, i), retired)
  {
  }

  /** A record accepted before is recognised, so it cannot commit again. */
  lemma CommitIsFirst(t: Tracked, o: Offer)
    requires Inv(t) && Allowed(t, o) && Commits(t.s, o)
    ensures KeyOf(o.record.interval) !in t.accepted && IsNew(t, o.record.interval)
  {
    var key := KeyOf(o.record.interval);
    assert key in t.accepted ==> Remembered(t, key);
  }

  lemma AcceptedGrows(merged: seq<IntervalKey>, accepted: map<IntervalKey, real>, key: IntervalKey, end: real)
    requires Distinct(merged) && accepted.Keys == Elements(merged) && key !in accepted
    ensures Distinct(merged + [key]) && accepted[key := end].Keys == Elements(merged + [key])
  {
    assert forall k :: k in merged ==> k in Elements(merged);
    assert Elements(merged + [key]) == Elements(merged) + {key};
  }

  /** A record that commits was never merged before, and stays remembered. */
  lemma CommitOnce(t: Tracked, o: Offer)
    requires Shaped(t.s.hours) && OnceOnly(t) && WellShaped(o.record.interval.pipeline)
    requires IsNew(t, o.record.interval) && !Expired(t.s, o.record.interval)
    ensures OnceOnly(AfterCommit(t, o))
  {
    var i, t' := o.record.interval, AfterCommit(t, o);
    AcceptedGrows(t.merged, t.accepted, KeyOf(i), i.end);
    forall k | k in t'.accepted ensures Remembered(t', k) {
      assert k in t.accepted ==> Remembered(t, k);
      RememberedBy(t.s.boots, t.s.retiredBefore, i, o.deletions.retired, k, t'.accepted[k]);
    }
  }

  /**
   * The increasing-sequence contract is needed. When a record returns under a boot whose
   * watermark was retired, an earlier record of that boot stays recognisable if and only if
   * its sequence does not exceed the returning one.
   */
  lemma OrderIsNeeded(t: Tracked, o: Offer, k: IntervalKey)
    requires Shaped(t.s.hours) && WellShaped(o.record.interval.pipeline)
    requires k in t.accepted && Remembered(t, k) && k != KeyOf(o.record.interval)
    requires k.boot == o.record.interval.boot && k.boot !in t.s.boots && !Expired(t.s, o.record.interval)
    requires o.deletions.retired != Some(k.boot)
    ensures k in AfterCommit(t, o).accepted
    ensures Remembered(AfterCommit(t, o), k) <==> k.seqNo <= o.record.interval.seqNo
  {
  }

  /** A well-formed record that nothing outside the boot watermarks keeps from committing. */
  ghost predicate Unhindered(s: Store, p: Offer)
    requires Shaped(s.hours) && WellShaped(p.record.interval.pipeline)
  {
    && WellFormed(p.record) && p.record.events <= 8
    && p.conditions.encodes && p.conditions.room && p.conditions.hourEncodes
    && KeyOf(p.record.interval) !in s.minutes && NewEvents(p.record).Keys * s.events.Keys == {}
    && GoodDeletions(s, p.record, p.conditions, p.deletions)
  }

  /**
   * After a returning record `o` of a retired boot, a replay `p` of an accepted record of that
   * boot is merged a second time exactly when `o` came out of order.
   */
  lemma OutOfOrderMergesTwice(t: Tracked, o: Offer, p: Offer)
    requires Inv(t) && Producible(o.record) && Commits(t.s, o) && Producible(p.record)
    requires var k := KeyOf(p.record.interval);
             IsReplay(t, p.record.interval) && k.boot == o.record.interval.boot && k.boot !in t.s.boots
    requires o.deletions.retired != Some(o.record.interval.boot) && Shaped(AfterCommit(t, o).s.hours)
    requires Unhindered(AfterCommit(t, o).s, p)
    ensures var between := AfterCommit(t, o);
            && (Commits(between.s, p) <==> o.record.interval.seqNo < p.record.interval.seqNo)
            && (Commits(between.s, p) ==> !Distinct(AfterCommit(between, p).merged))
  {
    var between := AfterCommit(t, o);
    BootAfterCommit(t, o);
    UnhinderedCommits(between.s, p);
    assert KeyOf(p.record.interval) in Elements(t.merged);
    MergesAgain(between, p);
  }

  /** Only the watermark of its boot can still turn such a record away. */
  lemma UnhinderedCommits(s: Store, p: Offer)
    requires Shaped(s.hours) && WellShaped(p.record.interval.pipeline) && p.record.interval.boot in s.boots
    requires Unhindered(s, p)
    ensures Commits(s, p) <==> s.boots[p.record.interval.boot].seqNo < p.record.interval.seqNo
  {
    OnlySeenIsRefused(s, p.record, p.conditions);
  }

  lemma OnlySeenIsRefused(s: Store, r: Record, c: Conditions)
    requires WellFormed(r) && r.events <= 8 && c.encodes && c.room && c.hourEncodes
    requires KeyOf(r.interval) !in s.minutes && NewEvents(r).Keys * s.events.Keys == {} && r.interval.boot in s.boots
    ensures Result(s, r, c).Committed? <==> s.boots[r.interval.boot].seqNo < r.interval.seqNo
  {
  }

  lemma MergesAgain(t: Tracked, p: Offer)
    requires Shaped(t.s.hours) && WellShaped(p.record.interval.pipeline) && KeyOf(p.record.interval) in t.merged
    ensures !Distinct(AfterCommit(t, p).merged)
  {
    var k, after := KeyOf(p.record.interval), AfterCommit(t, p).merged;
    var n :| 0 <= n < |t.merged| && t.merged[n] == k;
    assert after == t.merged + [k];
    assert after[n] == after[|t.merged|] == k;
  }

  /** A committed record is its boot's new watermark. */
  lemma BootAfterCommit(t: Tracked, o: Offer)
    requires Shaped(t.s.hours) && WellShaped(o.record.interval.pipeline)
    requires o.deletions.retired != Some(o.record.interval.boot)
    ensures var after, i := AfterCommit(t, o).s.boots, o.record.interval;
            i.boot in after && after[i.boot].seqNo == i.seqNo
  {
  }

  lemma StepKeeps(t: Tracked, o: Offer)
    requires Inv(t) && Allowed(t, o)
    ensures Inv(Next(t, o))
  {
    if Commits(t.s, o) {
      CommitIsFirst(t, o);
      assert KeyOf(o.record.interval) !in Elements(t.merged);
      CommitCounts(t.s, o.record, o.conditions, o.deletions);
      CommitFolds(t, o);
      CommitOnce(t, o);
    }
  }

  lemma {:induction false} RunKeeps(t: Tracked, offers: seq<Offer>)
    requires Inv(t) && Legal(t, offers)
    ensures Inv(Exec(t, offers))
    decreases |offers|
  {
    if offers == [] {
    } else {
      StepKeeps(t, offers[0]);
      RunKeeps(Next(t, offers[0]), offers[1..]);
    }
  }

  // ---------------------------------------------------------------- theorems over runs

  /**
   * However often accepted records are replayed, and even after their boot's watermark was
   * retired, no (boot, sequence) is merged twice.
   */
  lemma MergedAtMostOnce(offers: seq<Offer>)
    requires Legal(Begin(), offers)
    ensures Distinct(Exec(Begin(), offers).merged)
  {
    RunKeeps(Begin(), offers);
  }

  /** Cached counts are the real row counts and every cap holds after any run of appends. */
  lemma StoreStaysBounded(offers: seq<Offer>)
    requires Legal(Begin(), offers)
    ensures Counted(Exec(Begin(), offers).s) && Capped(Exec(Begin(), offers).s)
  {
    RunKeeps(Begin(), offers);
  }

  /** Accepted records of that hour, none of them twice. */
  predicate RecordsOf(h: int, parts: seq<Interval>, accepted: map<IntervalKey, real>) {
    && DistinctKeys(parts)
    && forall i :: 0 <= i < |parts| ==>
         HourOf(parts[i]) == h && KeyOf(parts[i]) in accepted && parts[i].intervals == 1
  }

  /**
   * A live hour row holds exactly the sums, maxima, histograms and elapsed time of distinct
   * accepted records of that hour.
   */
  lemma HourRowIsExact(offers: seq<Offer>, h: int)
    requires Legal(Begin(), offers) && h in Exec(Begin(), offers).s.hours
    ensures var end := Exec(Begin(), offers);
            && h in end.parts && AllShaped(end.parts[h]) && WellShaped(end.s.hours[h].pipeline)
            && RecordsOf(h, end.parts[h], end.accepted)
            && (forall k: nat :: k < 7 ==> end.s.hours[h].pipeline.counters[k] == Total(Counters(end.parts[h], k)))
            && (forall k: nat :: k < 3 ==> IsMaximum(end.s.hours[h].pipeline.maxima[k], Maxima(end.parts[h], k)))
            && (forall k: nat :: k < HISTOGRAM ==>
                  end.s.hours[h].pipeline.lag[k] == Total(Buckets(end.parts[h], k).0)
                  && end.s.hours[h].pipeline.critical[k] == Total(Buckets(end.parts[h], k).1))
            && end.s.hours[h].elapsed == TotalReal(Elapsed(end.parts[h]))
            && end.s.hours[h].intervals == |end.parts[h]|
  {
    RunKeeps(Begin(), offers);
    var end := Exec(Begin(), offers);
    var parts := end.parts[h];
    assert forall k :: k in end.merged ==> k in Elements(end.merged);
    forall k: nat | k < 7 ensures FoldHour(parts).pipeline.counters[k] == Total(Counters(parts, k)) {
      FoldCounters(parts, k);
    }
    forall k: nat | k < 3 ensures IsMaximum(FoldHour(parts).pipeline.maxima[k], Maxima(parts, k)) {
      FoldMaxima(parts, k);
    }
    forall k: nat | k < HISTOGRAM
      ensures FoldHour(parts).pipeline.lag[k] == Total(Buckets(parts, k).0)
              && FoldHour(parts).pipeline.critical[k] == Total(Buckets(parts, k).1)
    {
      FoldBuckets(parts, k);
    }
    FoldElapsed(parts);
  }

  /** One append: the clock does not go back and advances by at most the elapsed time plus five seconds. */
  lemma PacedStep(t: Tracked, o: Offer)
    requires Shaped(t.s.hours) && WellShaped(o.record.interval.pipeline) && t.s.retentionAt.Some?
    ensures var before, after := t.s.retentionAt.value, Next(t, o).s.retentionAt;
            && after.Some? && before <= after.value
            && (Commits(t.s, o) ==> after.value <= before + o.record.interval.elapsed + 5.0)
            && (!Commits(t.s, o) ==> after.value == before)
  {
  }

  /** Elapsed time plus five seconds, summed over the appends of a run that commit. */
  ghost function Allowance(t: Tracked, offers: seq<Offer>): real
    requires Legal(t, offers)
    decreases |offers|
  {
    if offers == [] then 0.0
    else
      (if Commits(t.s, offers[0]) then offers[0].record.interval.elapsed + 5.0 else 0.0)
      + Allowance(Next(t, offers[0]), offers[1..])
  }

  lemma {:induction false} PacedRun(t: Tracked, offers: seq<Offer>)
    requires Legal(t, offers) && t.s.retentionAt.Some?
    ensures var before, after := t.s.retentionAt.value, Exec(t, offers).s.retentionAt;
            after.Some? && before <= after.value <= before + Allowance(t, offers)
    decreases |offers|
  {
    if offers == [] {
    } else {
      PacedStep(t, offers[0]);
      PacedRun(Next(t, offers[0]), offers[1..]);
    }
  }

  lemma {:induction false} ExecConcat(t: Tracked, a: seq<Offer>, b: seq<Offer>)
    requires Legal(t, a + b)
    ensures Legal(t, a) && Legal(Exec(t, a), b) && Exec(t, a + b) == Exec(Exec(t, a), b)
    decreases |a|
  {
    if a == [] {
      assert a + b == b;
    } else {
      assert (a + b)[0] == a[0] && (a + b)[1..] == a[1..] + b;
      ExecConcat(Next(t, a[0]), a[1..], b);
    }
  }

  /**
   * Over every run from empty the retention clock never goes back and, once set, advances by at
   * most the monotonic elapsed time plus five seconds per committed append, whatever the wall
   * clock says.
   */
  lemma RetentionIsPaced(first: seq<Offer>, later: seq<Offer>)
    requires Legal(Begin(), first + later)
    ensures Legal(Begin(), first) && Legal(Exec(Begin(), first), later)
    ensures var middle, end := Exec(Begin(), first), Exec(Begin(), first + later);
            middle.s.retentionAt.Some? ==>
              && end.s.retentionAt.Some?
              && middle.s.retentionAt.value <= end.s.retentionAt.value
              && end.s.retentionAt.value <= middle.s.retentionAt.value + Allowance(middle, later)
  {
    ExecConcat(Begin(), first, later);
    if Exec(Begin(), first).s.retentionAt.Some? {
      PacedRun(Exec(Begin(), first), later);
    }
  }
}
