/**
 * The diagnostics history store: minute rows, hourly rollups, events, boot watermarks and
 * a retention clock, changed only by whole appends. Clocks are reals, in seconds.
 */
module StoreModel {
  import opened Common

  const MINUTE_ROWS: nat := 43_200
  const HOUR_ROWS: nat := 8_760
  const EVENT_ROWS: nat := 100_000
  const BOOT_ROWS: nat := 10_000
  const DAY: real := 86_400.0
  const BATCH: nat := 100
  const HISTOGRAM: nat := 9

  // ---------------------------------------------------------------- hourly rollup

  datatype Phase = Phase(count: int, total: real, longest: real)

  /** Seven counters, three maxima and two nine-bucket histograms. */
  datatype Pipeline = Pipeline(counters: seq<int>, maxima: seq<real>, lag: seq<int>, critical: seq<int>)

  predicate WellShaped(p: Pipeline) {
    |p.counters| == 7 && |p.maxima| == 3 && |p.lag| == HISTOGRAM && |p.critical| == HISTOGRAM
  }

  datatype Interval = Interval(
    boot: string,
    seqNo: nat,
    start: real,
    end: real,
    elapsed: real,
    flags: set<string>,
    context: int,
    pipeline: Pipeline,
    phases: map<string, Phase>,
    intervals: nat,
    omitted: nat)

  function AddEach(a: seq<int>, b: seq<int>): (out: seq<int>)
    requires |a| == |b|
    ensures |out| == |a| && forall i :: 0 <= i < |a| ==> out[i] == a[i] + b[i]
  {
    seq(|a|, i requires 0 <= i < |a| => a[i] + b[i])
  }

  function MaxEach(a: seq<real>, b: seq<real>): (out: seq<real>)
    requires |a| == |b|
    ensures |out| == |a| && forall i :: 0 <= i < |a| ==> out[i] == MaxReal(a[i], b[i])
  {
    seq(|a|, i requires 0 <= i < |a| => MaxReal(a[i], b[i]))
  }

  function MergePipeline(a: Pipeline, b: Pipeline): (out: Pipeline)
    requires WellShaped(a) && WellShaped(b)
    ensures WellShaped(out)
  {
    Pipeline(AddEach(a.counters, b.counters), MaxEach(a.maxima, b.maxima),
             AddEach(a.lag, b.lag), AddEach(a.critical, b.critical))
  }

  function MergePhases(a: map<string, Phase>, b: map<string, Phase>): map<string, Phase> {
    map k | k in a.Keys + b.Keys ::
      if k !in b then a[k]
      else
        var before := if k in a then a[k] else Phase(0, 0.0, 0.0);
        Phase(before.count + b[k].count, before.total + b[k].total, MaxReal(before.longest, b[k].longest))
  }

  function MergeHour(previous: Interval, current: Interval): (out: Interval)
    requires WellShaped(previous.pipeline) && WellShaped(current.pipeline)
    ensures WellShaped(out.pipeline)
  {
    current.(
      start := MinReal(previous.start, current.start),
      end := MaxReal(previous.end, current.end),
      elapsed := previous.elapsed + current.elapsed,
      intervals := previous.intervals + 1,
      omitted := previous.omitted + current.omitted,
      flags := previous.flags + current.flags
               + (if previous.context != current.context then {"mixed_context"} else {})
               + (if previous.boot != current.boot then {"multiple_boots"} else {})
               + (if current.start - previous.end > 5.0 then {"recording_gap"} else {}),
      pipeline := MergePipeline(previous.pipeline, current.pipeline),
      phases := MergePhases(previous.phases, current.phases))
  }

  // ---------------------------------------------------------------- tables

  datatype IntervalKey = IntervalKey(boot: string, seqNo: nat)

  datatype EventKey = EventKey(boot: string, seqNo: nat, item: nat)

  datatype Boot = Boot(seqNo: nat, ended: real)

  datatype Store = Store(
    minutes: map<IntervalKey, Interval>,
    hours: map<int, Interval>,
    events: map<EventKey, real>,
    boots: map<string, Boot>,
    retentionAt: Option<real>,
    retiredBefore: real,
    minuteCount: int,
    hourCount: int,
    eventCount: int,
    bootCount: int,
    early: int)

  function EmptyStore(): Store {
    Store(map[], map[], map[], map[], None, -1.0, 0, 0, 0, 0, 0)
  }

  // ---------------------------------------------------------------- one record

  /** What a record says, with how many of its (at most eight) events fit the byte cap. */
  datatype Record = Record(interval: Interval, events: nat, kept: nat)

  /** Conditions met outside the tables: sizes, free space, page pressure, a failing statement. */
  datatype Conditions = Conditions(encodes: bool, room: bool, reclaim: bool, hourEncodes: bool)

  /** Rows a committed append removes. */
  datatype Deletions = Deletions(
    reclaimed: set<IntervalKey>,
    expiredMinutes: set<IntervalKey>,
    excessMinutes: set<IntervalKey>,
    expiredHours: set<int>,
    excessHours: set<int>,
    expiredEvents: set<EventKey>,
    excessEvents: set<EventKey>,
    retired: Option<string>)

  datatype Outcome = Committed | Duplicate | Paused | Failed

  function KeyOf(i: Interval): IntervalKey {
    IntervalKey(i.boot, i.seqNo)
  }

  function HourOf(i: Interval): int {
    (i.end / 3600.0).Floor
  }

  predicate HexBoot(boot: string) {
    |boot| == 32 && forall c :: c in boot ==> c in "0123456789abcdef"
  }

  predicate WellFormed(r: Record) {
    HexBoot(r.interval.boot) && r.interval.seqNo < 0x20_0000_0000_0000
    && 0.0 <= r.interval.elapsed <= DAY && r.interval.end >= 0.0
  }

  predicate Seen(s: Store, i: Interval) {
    i.boot in s.boots && i.seqNo <= s.boots[i.boot].seqNo
  }

  predicate Expired(s: Store, i: Interval) {
    i.boot !in s.boots && i.end <= s.retiredBefore
  }

  /** The interval as stored: a skipped sequence and omitted events leave flags. */
  function Stored(s: Store, r: Record): Interval {
    var i := r.interval;
    var expected := if i.boot in s.boots then s.boots[i.boot].seqNo + 1 else 0;
    var gap := if i.seqNo > expected then {"recording_gap"} else {};
    if r.kept < r.events
    then i.(flags := i.flags + gap + {"event_omitted"}, omitted := r.events - r.kept)
    else i.(flags := i.flags + gap)
  }

  function Retention(s: Store, i: Interval): real {
    var bounded := if s.retentionAt.None? then i.end
                   else MinReal(i.end, s.retentionAt.value + i.elapsed + 5.0);
    MaxReal(if s.retentionAt.None? then 0.0 else s.retentionAt.value, bounded)
  }

  /** Rows from before this instant have outlived their tier's days. */
  function Cutoff(s: Store, i: Interval, days: real): real {
    Retention(s, i) - days * DAY
  }

  /** Event rows 0, 1, ... of one record. */
  function EventRows(i: Interval, kept: nat): (rows: map<EventKey, real>)
    ensures |rows| == kept
    ensures forall k :: k in rows ==> k.boot == i.boot && k.seqNo == i.seqNo && k.item < kept && rows[k] == i.end
  {
    if kept == 0 then map[]
    else
      var rest := EventRows(i, kept - 1);
      assert EventKey(i.boot, i.seqNo, kept - 1) !in rest;
      rest[EventKey(i.boot, i.seqNo, kept - 1) := i.end]
  }

  function NewEvents(r: Record): map<EventKey, real> {
    EventRows(r.interval, r.kept)
  }

  /** The outcome of an append, decided before and inside its transaction. */
  function Result(s: Store, r: Record, c: Conditions): Outcome {
    if !WellFormed(r) then Failed
    else if Seen(s, r.interval) then Duplicate
    else if Expired(s, r.interval) || r.events > 8 || !c.encodes then Failed
    else if !c.room then Paused
    else if KeyOf(r.interval) in s.minutes && !c.reclaim then Failed
    else if !c.hourEncodes || NewEvents(r).Keys * s.events.Keys != {} then Failed
    else Committed
  }

  // ---------------------------------------------------------------- ordered deletion

  /** `DELETE ... ORDER BY at LIMIT n` among the eligible rows. */
  ghost predicate Oldest<K(!new)>(at: map<K, real>, eligible: set<K>, n: int, gone: set<K>) {
    && eligible <= at.Keys
    && gone <= eligible
    && |gone| == (if n < 0 then 0 else Min(n, |eligible|))
    && forall g, k :: g in gone && k in eligible && k !in gone ==> at[g] <= at[k]
  }

  function Starts<K>(rows: map<K, Interval>): map<K, real> {
    map k | k in rows :: rows[k].start
  }

  function OlderThan<K>(at: map<K, real>, limit: real): set<K> {
    set k | k in at && at[k] < limit
  }

  function Without<K, V>(rows: map<K, V>, gone: set<K>): map<K, V> {
    map k | k in rows && k !in gone :: rows[k]
  }

  // ---------------------------------------------------------------- the transaction, table by table

  predicate Shaped(hours: map<int, Interval>) {
    forall h :: h in hours ==> WellShaped(hours[h].pipeline)
  }

  function AddMinute(
    minutes: map<IntervalKey, Interval>, i: Interval, reclaimed: set<IntervalKey>): map<IntervalKey, Interval>
  {
    Without(minutes, reclaimed)[KeyOf(i) := i]
  }

  function AddBoot(boots: map<string, Boot>, i: Interval): map<string, Boot> {
    boots[i.boot := Boot(i.seqNo, if i.boot in boots then MaxReal(i.end, boots[i.boot].ended) else i.end)]
  }

  function RetireBoot(boots: map<string, Boot>, retired: Option<string>): map<string, Boot> {
    if retired.Some? then Without(boots, {retired.value}) else boots
  }

  function RetireClock(before: real, boots: map<string, Boot>, retired: Option<string>): real {
    if retired.Some? && retired.value in boots then MaxReal(before, boots[retired.value].ended) else before
  }

  function AddHour(hours: map<int, Interval>, i: Interval): map<int, Interval>
    requires Shaped(hours) && WellShaped(i.pipeline)
  {
    var h := HourOf(i);
    hours[h := if h in hours then MergeHour(hours[h], i) else i]
  }

  function Trim<K, V>(rows: map<K, V>, expired: set<K>, excess: set<K>): map<K, V> {
    Without(Without(rows, expired), excess)
  }

  /** All effects of a committed append; the cached counters move with the rows. */
  function Commit(s: Store, r: Record, d: Deletions): Store
    requires Shaped(s.hours) && WellShaped(r.interval.pipeline)
  {
    var i := Stored(s, r);
    var boots := AddBoot(s.boots, i);
    Store(
      Trim(AddMinute(s.minutes, i, d.reclaimed), d.expiredMinutes, d.excessMinutes),
      Trim(AddHour(s.hours, i), d.expiredHours, d.excessHours),
      Trim(s.events + NewEvents(r), d.expiredEvents, d.excessEvents),
      RetireBoot(boots, d.retired),
      Some(Retention(s, r.interval)),
      RetireClock(s.retiredBefore, boots, d.retired),
      MinutesAdded(s, d.reclaimed) - |d.expiredMinutes| - |d.excessMinutes|,
      HoursAdded(s, i) - |d.expiredHours| - |d.excessHours|,
      EventsAdded(s, r) - |d.expiredEvents| - |d.excessEvents|,
      BootsAdded(s, i) - (if d.retired.Some? then 1 else 0),
      s.early + |d.reclaimed| + |d.excessMinutes| + |d.excessHours|)
  }

  function MinutesAdded(s: Store, reclaimed: set<IntervalKey>): int {
    s.minuteCount - |reclaimed| + 1
  }

  function EventsAdded(s: Store, r: Record): int {
    s.eventCount + r.kept
  }

  function HoursAdded(s: Store, i: Interval): int {
    s.hourCount + (if HourOf(i) in s.hours then 0 else 1)
  }

  function BootsAdded(s: Store, i: Interval): int {
    s.bootCount + (if i.boot in s.boots then 0 else 1)
  }

  // ---------------------------------------------------------------- legal deletions

  ghost predicate RetiresOldest(boots: map<string, Boot>, cached: int, current: string, retired: Option<string>) {
    if cached > BOOT_ROWS && boots.Keys != {current} then
      && retired.Some? && retired.value in boots && retired.value != current
      && forall b :: b in boots && b != current ==> boots[retired.value].ended <= boots[b].ended
    else retired.None?
  }

  ghost predicate TrimsRows<K(!new)>(
    at: map<K, real>, cached: int, cap: int, cutoff: real, expired: set<K>, excess: set<K>)
  {
    && Oldest(at, OlderThan(at, cutoff), BATCH, expired)
    && Oldest(Without(at, expired), Without(at, expired).Keys,
              Min(BATCH, Max(0, cached - |expired| - cap)), excess)
  }

  ghost predicate Reclaims(s: Store, i: Interval, reclaim: bool, reclaimed: set<IntervalKey>) {
    && Oldest(Starts(s.minutes), s.minutes.Keys, if reclaim then BATCH else 0, reclaimed)
    && KeyOf(i) !in Without(s.minutes, reclaimed)
  }

  ghost predicate TrimsMinutes(
    s: Store, r: Record, reclaimed: set<IntervalKey>, expired: set<IntervalKey>, excess: set<IntervalKey>)
  {
    TrimsRows(Starts(AddMinute(s.minutes, Stored(s, r), reclaimed)), MinutesAdded(s, reclaimed), MINUTE_ROWS,
              Cutoff(s, r.interval, 30.0), expired, excess)
  }

  ghost predicate TrimsHours(s: Store, r: Record, expired: set<int>, excess: set<int>)
    requires Shaped(s.hours) && WellShaped(r.interval.pipeline)
  {
    TrimsRows(Starts(AddHour(s.hours, Stored(s, r))), HoursAdded(s, Stored(s, r)), HOUR_ROWS,
              Cutoff(s, r.interval, 365.0), expired, excess)
  }

  ghost predicate TrimsEvents(s: Store, r: Record, expired: set<EventKey>, excess: set<EventKey>) {
    TrimsRows(s.events + NewEvents(r), EventsAdded(s, r), EVENT_ROWS,
              Cutoff(s, r.interval, 90.0), expired, excess)
  }

  ghost predicate GoodDeletions(s: Store, r: Record, c: Conditions, d: Deletions)
    requires Shaped(s.hours) && WellShaped(r.interval.pipeline)
  {
    && Reclaims(s, Stored(s, r), c.reclaim, d.reclaimed)
    && RetiresOldest(AddBoot(s.boots, Stored(s, r)), BootsAdded(s, Stored(s, r)), r.interval.boot, d.retired)
    && TrimsMinutes(s, r, d.reclaimed, d.expiredMinutes, d.excessMinutes)
    && TrimsHours(s, r, d.expiredHours, d.excessHours)
    && TrimsEvents(s, r, d.expiredEvents, d.excessEvents)
  }
}
