/** Which rows of the three tiers an append keeps, and which it must let go. */
module StoreTiers {
  import opened Common
  import opened StoreModel
  import opened StoreRuns

  /** Trimming a table that stays within its cap removes old rows only. */
  lemma YoungStays<K(!new), V>(
    rows: map<K, V>, at: map<K, real>, cached: int, cap: int, cutoff: real, expired: set<K>, excess: set<K>, k: K)
    requires at.Keys == rows.Keys && TrimsRows(at, cached, cap, cutoff, expired, excess) && cached <= cap
    requires k in rows && at[k] >= cutoff
    ensures k in Trim(rows, expired, excess) && Trim(rows, expired, excess)[k] == rows[k]
  {
    assert k !in OlderThan(at, cutoff);
    assert |excess| == 0;
  }

  /** Of the rows past their cutoff the oldest hundred are removed, or all of them. */
  lemma OldGoes<K(!new), V>(
    rows: map<K, V>, at: map<K, real>, cached: int, cap: int, cutoff: real, expired: set<K>, excess: set<K>)
    requires at.Keys == rows.Keys && TrimsRows(at, cached, cap, cutoff, expired, excess)
    ensures var past := set k | k in rows && at[k] < cutoff;
            && expired <= past && |expired| == (if |past| < 100 then |past| else 100)
            && (forall k, l :: k in expired && l in past - expired ==> at[k] <= at[l])
            && forall k :: k in expired ==> k !in Trim(rows, expired, excess)
  {
    assert (set k | k in rows && at[k] < cutoff) == OlderThan(at, cutoff);
  }

  // ---------------------------------------------------------------- the three tiers of a run

  /** The start of the time that a tier still keeps, by the store's own clock after the append. */
  function KeptFrom(s: Store, days: real): real {
    (if s.retentionAt.Some? then s.retentionAt.value else 0.0) - days * 86_400.0
  }

  function MinutesLeft(s: Store, o: Offer): map<IntervalKey, Interval> {
    var d := o.deletions;
    Trim(AddMinute(s.minutes, Stored(s, o.record), d.reclaimed), d.expiredMinutes, d.excessMinutes)
  }

  function HoursLeft(s: Store, o: Offer): map<int, Interval>
    requires Shaped(s.hours) && WellShaped(o.record.interval.pipeline)
  {
    Trim(AddHour(s.hours, Stored(s, o.record)), o.deletions.expiredHours, o.deletions.excessHours)
  }

  function EventsLeft(s: Store, o: Offer): map<EventKey, real> {
    Trim(s.events + NewEvents(o.record), o.deletions.expiredEvents, o.deletions.excessEvents)
  }

  /** The tables after a commit, spelled out. */
  lemma CommittedTables(s: Store, o: Offer)
    requires Shaped(s.hours) && WellShaped(o.record.interval.pipeline)
    ensures var out := Commit(s, o.record, o.deletions);
            && out.minutes == MinutesLeft(s, o) && out.hours == HoursLeft(s, o) && out.events == EventsLeft(s, o)
  {
    CommittedMinutes(s, o);
    CommittedHours(s, o);
    CommitEventTable(s, o.record, o.deletions);
  }

  lemma CommittedMinutes(s: Store, o: Offer)
    requires Shaped(s.hours) && WellShaped(o.record.interval.pipeline)
    ensures Commit(s, o.record, o.deletions).minutes == MinutesLeft(s, o)
  {
  }

  lemma CommittedHours(s: Store, o: Offer)
    requires Shaped(s.hours) && WellShaped(o.record.interval.pipeline)
    ensures Commit(s, o.record, o.deletions).hours == HoursLeft(s, o)
  {
  }

  lemma KeptFromIs(s: Store, o: Offer, days: real)
    requires Shaped(s.hours) && WellShaped(o.record.interval.pipeline)
    ensures KeptFrom(Commit(s, o.record, o.deletions), days) == Cutoff(s, o.record.interval, days)
  {
  }

  lemma NothingReclaimed(s: Store, o: Offer)
    requires Reclaims(s, Stored(s, o.record), false, o.deletions.reclaimed)
    ensures o.deletions.reclaimed == {}
  {
  }

  lemma YoungMinute(s: Store, o: Offer, k: IntervalKey)
    requires Shaped(s.hours) && WellShaped(o.record.interval.pipeline)
    requires var d := o.deletions; TrimsMinutes(s, o.record, d.reclaimed, d.expiredMinutes, d.excessMinutes)
    requires Reclaims(s, Stored(s, o.record), false, o.deletions.reclaimed) && s.minuteCount < 43_200 && k in s.minutes
    requires s.minutes[k].start >= Cutoff(s, o.record.interval, 30.0)
    ensures var out := MinutesLeft(s, o); k in out && out[k] == s.minutes[k]
  {
    NothingReclaimed(s, o);
    var i, d := Stored(s, o.record), o.deletions;
    var rows := AddMinute(s.minutes, i, {});
    assert k != KeyOf(i);
    YoungStays(rows, Starts(rows), MinutesAdded(s, {}), MINUTE_ROWS, Cutoff(s, o.record.interval, 30.0),
               d.expiredMinutes, d.excessMinutes, k);
  }

  lemma YoungHour(s: Store, o: Offer, h: int)
    requires Shaped(s.hours) && WellShaped(o.record.interval.pipeline)
    requires TrimsHours(s, o.record, o.deletions.expiredHours, o.deletions.excessHours)
    requires s.hourCount < 8_760 && h in s.hours && h != HourOf(o.record.interval)
    requires s.hours[h].start >= Cutoff(s, o.record.interval, 365.0)
    ensures var out := HoursLeft(s, o); h in out && out[h] == s.hours[h]
  {
    var i, d := Stored(s, o.record), o.deletions;
    var rows := AddHour(s.hours, i);
    YoungStays(rows, Starts(rows), HoursAdded(s, i), HOUR_ROWS, Cutoff(s, o.record.interval, 365.0),
               d.expiredHours, d.excessHours, h);
  }

  lemma YoungEvent(s: Store, o: Offer, k: EventKey)
    requires Shaped(s.hours) && WellShaped(o.record.interval.pipeline)
    requires TrimsEvents(s, o.record, o.deletions.expiredEvents, o.deletions.excessEvents)
    requires NewEvents(o.record).Keys * s.events.Keys == {}
    requires s.eventCount + o.record.kept <= 100_000 && k in s.events
    requires s.events[k] >= Cutoff(s, o.record.interval, 90.0)
    ensures var out := EventsLeft(s, o); k in out && out[k] == s.events[k]
  {
    var d := o.deletions;
    var rows := s.events + NewEvents(o.record);
    assert k !in NewEvents(o.record) by {
      assert k in NewEvents(o.record) ==> k in NewEvents(o.record).Keys * s.events.Keys;
    }
    YoungStays(rows, rows, EventsAdded(s, o.record), EVENT_ROWS, Cutoff(s, o.record.interval, 90.0),
               d.expiredEvents, d.excessEvents, k);
  }

  /**
   * Over every run an append that stays within the caps and reclaims nothing keeps every minute row
   * of the last 30 days, hour row of the last 365 and event row of the last 90, unchanged but for the
   * hour it merges into; the days are counted by the store's own clock.
   */
  lemma YoungRowsStay(offers: seq<Offer>, o: Offer)
    requires Legal(Begin(), offers) && Allowed(Exec(Begin(), offers), o)
    requires var s := Exec(Begin(), offers).s; Shaped(s.hours) && Commits(s, o)
    ensures var s, out := Exec(Begin(), offers).s, Next(Exec(Begin(), offers), o).s;
            && (!o.conditions.reclaim && |s.minutes| < 43_200 ==>
                  forall k :: k in s.minutes && s.minutes[k].start >= KeptFrom(out, 30.0) ==>
                    k in out.minutes && out.minutes[k] == s.minutes[k])
            && (|s.hours| < 8_760 ==>
                  forall h :: h in s.hours && h != HourOf(o.record.interval)
                              && s.hours[h].start >= KeptFrom(out, 365.0) ==>
                    h in out.hours && out.hours[h] == s.hours[h])
            && (|s.events| + o.record.kept <= 100_000 ==>
                  forall k :: k in s.events && s.events[k] >= KeptFrom(out, 90.0) ==>
                    k in out.events && out.events[k] == s.events[k])
  {
    RunKeeps(Begin(), offers);
    var t := Exec(Begin(), offers);
    var out := Next(t, o).s;
    assert out == Commit(t.s, o.record, o.deletions);
    CommittedTables(t.s, o);
    KeptFromIs(t.s, o, 30.0);
    KeptFromIs(t.s, o, 365.0);
    KeptFromIs(t.s, o, 90.0);
    if !o.conditions.reclaim && |t.s.minutes| < 43_200 {
      forall k | k in t.s.minutes && t.s.minutes[k].start >= KeptFrom(out, 30.0)
        ensures k in out.minutes && out.minutes[k] == t.s.minutes[k]
      {
        YoungMinute(t.s, o, k);
      }
    }
    if |t.s.hours| < 8_760 {
      forall h | h in t.s.hours && h != HourOf(o.record.interval) && t.s.hours[h].start >= KeptFrom(out, 365.0)
        ensures h in out.hours && out.hours[h] == t.s.hours[h]
      {
        YoungHour(t.s, o, h);
      }
    }
    if |t.s.events| + o.record.kept <= 100_000 {
      forall k | k in t.s.events && t.s.events[k] >= KeptFrom(out, 90.0)
        ensures k in out.events && out.events[k] == t.s.events[k]
      {
        YoungEvent(t.s, o, k);
      }
    }
  }

  lemma NewMinute(s: Store, o: Offer)
    requires Shaped(s.hours) && WellShaped(o.record.interval.pipeline)
    requires var d := o.deletions; TrimsMinutes(s, o.record, d.reclaimed, d.expiredMinutes, d.excessMinutes)
    requires Reclaims(s, Stored(s, o.record), false, o.deletions.reclaimed) && s.minuteCount < 43_200
    requires o.record.interval.start >= Cutoff(s, o.record.interval, 30.0)
    ensures var out, k := MinutesLeft(s, o), KeyOf(o.record.interval);
            k in out && out[k] == Stored(s, o.record)
  {
    NothingReclaimed(s, o);
    var i, d := Stored(s, o.record), o.deletions;
    var rows := AddMinute(s.minutes, i, {});
    YoungStays(rows, Starts(rows), MinutesAdded(s, {}), MINUTE_ROWS, Cutoff(s, o.record.interval, 30.0),
               d.expiredMinutes, d.excessMinutes, KeyOf(i));
  }

  lemma NewEvent(s: Store, o: Offer, k: EventKey)
    requires Shaped(s.hours) && WellShaped(o.record.interval.pipeline)
    requires TrimsEvents(s, o.record, o.deletions.expiredEvents, o.deletions.excessEvents)
    requires NewEvents(o.record).Keys * s.events.Keys == {}
    requires s.eventCount + o.record.kept <= 100_000 && k in NewEvents(o.record)
    requires o.record.interval.end >= Cutoff(s, o.record.interval, 90.0)
    ensures k in EventsLeft(s, o)
  {
    var d := o.deletions;
    var rows := s.events + NewEvents(o.record);
    YoungStays(rows, rows, EventsAdded(s, o.record), EVENT_ROWS, Cutoff(s, o.record.interval, 90.0),
               d.expiredEvents, d.excessEvents, k);
  }

  /** A committed record of the last 30 days has its own minute row, and its kept events have theirs for 90. */
  lemma NewRowsAreStored(offers: seq<Offer>, o: Offer)
    requires Legal(Begin(), offers) && Allowed(Exec(Begin(), offers), o)
    requires var s := Exec(Begin(), offers).s; Shaped(s.hours) && Commits(s, o)
    ensures var s, out, i := Exec(Begin(), offers).s, Next(Exec(Begin(), offers), o).s, o.record.interval;
            && (!o.conditions.reclaim && |s.minutes| < 43_200 && i.start >= KeptFrom(out, 30.0) ==>
                  KeyOf(i) in out.minutes && out.minutes[KeyOf(i)] == Stored(s, o.record))
            && (|s.events| + o.record.kept <= 100_000 && i.end >= KeptFrom(out, 90.0) ==>
                  forall k :: k in NewEvents(o.record) ==> k in out.events)
  {
    RunKeeps(Begin(), offers);
    var t := Exec(Begin(), offers);
    var s, out, i := t.s, Next(t, o).s, o.record.interval;
    assert out == Commit(s, o.record, o.deletions);
    CommittedTables(s, o);
    KeptFromIs(s, o, 30.0);
    KeptFromIs(s, o, 90.0);
    if !o.conditions.reclaim && |s.minutes| < 43_200 && i.start >= KeptFrom(out, 30.0) {
      NewMinute(s, o);
    }
    if |s.events| + o.record.kept <= 100_000 && i.end >= KeptFrom(out, 90.0) {
      forall k | k in NewEvents(o.record) ensures k in out.events {
        NewEvent(s, o, k);
      }
    }
  }

  // ---------------------------------------------------------------- what must go

  lemma LeftBehind<K(!new), V>(
    rows: map<K, V>, at: map<K, real>, cached: int, cap: int, cutoff: real, expired: set<K>, excess: set<K>, k: K)
    requires at.Keys == rows.Keys && TrimsRows(at, cached, cap, cutoff, expired, excess)
    requires k in Trim(rows, expired, excess) && at[k] < cutoff
    ensures |expired| == 100
  {
    OldGoes(rows, at, cached, cap, cutoff, expired, excess);
    var past := set k | k in rows && at[k] < cutoff;
    assert k in past && k !in expired;
    SubsetSize(expired + {k}, past);
  }

  lemma OldMinute(s: Store, o: Offer, k: IntervalKey)
    requires Shaped(s.hours) && WellShaped(o.record.interval.pipeline)
    requires var d := o.deletions; TrimsMinutes(s, o.record, d.reclaimed, d.expiredMinutes, d.excessMinutes)
    requires var out := MinutesLeft(s, o); k in out && out[k].start < Cutoff(s, o.record.interval, 30.0)
    ensures |o.deletions.expiredMinutes| == 100
  {
    var i, d := Stored(s, o.record), o.deletions;
    var rows := AddMinute(s.minutes, i, d.reclaimed);
    LeftBehind(rows, Starts(rows), MinutesAdded(s, d.reclaimed), MINUTE_ROWS, Cutoff(s, o.record.interval, 30.0),
               d.expiredMinutes, d.excessMinutes, k);
  }

  lemma OldHour(s: Store, o: Offer, h: int)
    requires Shaped(s.hours) && WellShaped(o.record.interval.pipeline)
    requires TrimsHours(s, o.record, o.deletions.expiredHours, o.deletions.excessHours)
    requires var out := HoursLeft(s, o); h in out && out[h].start < Cutoff(s, o.record.interval, 365.0)
    ensures |o.deletions.expiredHours| == 100
  {
    var i, d := Stored(s, o.record), o.deletions;
    var rows := AddHour(s.hours, i);
    LeftBehind(rows, Starts(rows), HoursAdded(s, i), HOUR_ROWS, Cutoff(s, o.record.interval, 365.0),
               d.expiredHours, d.excessHours, h);
  }

  lemma OldEvent(s: Store, o: Offer, k: EventKey)
    requires Shaped(s.hours) && WellShaped(o.record.interval.pipeline)
    requires TrimsEvents(s, o.record, o.deletions.expiredEvents, o.deletions.excessEvents)
    requires var out := EventsLeft(s, o); k in out && out[k] < Cutoff(s, o.record.interval, 90.0)
    ensures |o.deletions.expiredEvents| == 100
  {
    var d := o.deletions;
    var rows := s.events + NewEvents(o.record);
    LeftBehind(rows, rows, EventsAdded(s, o.record), EVENT_ROWS, Cutoff(s, o.record.interval, 90.0),
               d.expiredEvents, d.excessEvents, k);
  }

  /** An append that leaves a row past its days in some tier has deleted a hundred others of that tier. */
  lemma OldRowsGo(s: Store, o: Offer)
    requires Shaped(s.hours) && WellShaped(o.record.interval.pipeline) && Commits(s, o)
    ensures var out := Commit(s, o.record, o.deletions);
            && ((exists k :: k in out.minutes && out.minutes[k].start < KeptFrom(out, 30.0)) ==>
                  out.minuteCount <= s.minuteCount + 1 - 100)
            && ((exists h :: h in out.hours && out.hours[h].start < KeptFrom(out, 365.0)) ==>
                  out.hourCount <= s.hourCount + 1 - 100)
            && ((exists k :: k in out.events && out.events[k] < KeptFrom(out, 90.0)) ==>
                  out.eventCount <= s.eventCount + o.record.kept - 100)
  {
    var out := Commit(s, o.record, o.deletions);
    CommittedTables(s, o);
    KeptFromIs(s, o, 30.0);
    KeptFromIs(s, o, 365.0);
    KeptFromIs(s, o, 90.0);
    if k :| k in out.minutes && out.minutes[k].start < KeptFrom(out, 30.0) {
      OldMinute(s, o, k);
    }
    if h :| h in out.hours && out.hours[h].start < KeptFrom(out, 365.0) {
      OldHour(s, o, h);
    }
    if k :| k in out.events && out.events[k] < KeptFrom(out, 90.0) {
      OldEvent(s, o, k);
    }
  }

  /** Rows deleted for a full table are the oldest: none that is left is older. */
  lemma ExcessIsOldest<K(!new), V>(
    rows: map<K, V>, at: map<K, real>, cached: int, cap: int, cutoff: real, expired: set<K>, excess: set<K>)
    requires at.Keys == rows.Keys && TrimsRows(at, cached, cap, cutoff, expired, excess)
    ensures forall g, l :: g in excess && l in Trim(rows, expired, excess) ==> g in at && at[g] <= at[l]
    ensures |excess| <= 100 && (excess != {} ==> |excess| <= cached - |expired| - cap)
  {
    var left := Without(at, expired);
    forall g, l | g in excess && l in Trim(rows, expired, excess) ensures g in at && at[g] <= at[l] {
      assert g in left && l in left && l !in excess;
    }
  }

  lemma FullTablesLoseTheOldest(s: Store, o: Offer)
    requires Shaped(s.hours) && WellShaped(o.record.interval.pipeline)
    requires var d := o.deletions;
             && TrimsMinutes(s, o.record, d.reclaimed, d.expiredMinutes, d.excessMinutes)
             && TrimsHours(s, o.record, d.expiredHours, d.excessHours)
             && TrimsEvents(s, o.record, d.expiredEvents, d.excessEvents)
    ensures var i, d := Stored(s, o.record), o.deletions;
            var minutes, hours := AddMinute(s.minutes, i, d.reclaimed), AddHour(s.hours, i);
            var events := s.events + NewEvents(o.record);
            && (forall g, l :: g in d.excessMinutes && l in MinutesLeft(s, o) ==>
                  g in minutes && minutes[g].start <= minutes[l].start)
            && (forall g, l :: g in d.excessHours && l in HoursLeft(s, o) ==>
                  g in hours && hours[g].start <= hours[l].start)
            && (forall g, l :: g in d.excessEvents && l in EventsLeft(s, o) ==> g in events && events[g] <= events[l])
  {
    var i, d := Stored(s, o.record), o.deletions;
    var minutes, hours := AddMinute(s.minutes, i, d.reclaimed), AddHour(s.hours, i);
    var events := s.events + NewEvents(o.record);
    ExcessIsOldest(minutes, Starts(minutes), MinutesAdded(s, d.reclaimed), MINUTE_ROWS,
                   Cutoff(s, o.record.interval, 30.0), d.expiredMinutes, d.excessMinutes);
    ExcessIsOldest(hours, Starts(hours), HoursAdded(s, i), HOUR_ROWS, Cutoff(s, o.record.interval, 365.0),
                   d.expiredHours, d.excessHours);
    ExcessIsOldest(events, events, EventsAdded(s, o.record), EVENT_ROWS, Cutoff(s, o.record.interval, 90.0),
                   d.expiredEvents, d.excessEvents);
  }

  // ---------------------------------------------------------------- boots, reclaimed and early rows

  lemma CommittedBoots(s: Store, o: Offer)
    requires Shaped(s.hours) && WellShaped(o.record.interval.pipeline)
    ensures var out, i, d := Commit(s, o.record, o.deletions), o.record.interval, o.deletions;
            && out.boots == RetireBoot(AddBoot(s.boots, i), d.retired)
            && out.retiredBefore == RetireClock(s.retiredBefore, AddBoot(s.boots, i), d.retired)
  {
  }

  /** The boots known after the record, before one is retired. */
  function KnownBoots(s: Store, boot: string): set<string> {
    s.boots.Keys + {boot}
  }

  /** The boot that goes: not the record's own, and none of the others ended earlier. */
  predicate LongestEnded(s: Store, boot: string, gone: string) {
    gone in s.boots && gone != boot && forall b :: b in s.boots && b != boot ==> s.boots[gone].ended <= s.boots[b].ended
  }

  lemma RetiredBoot(s: Store, o: Offer)
    requires Shaped(s.hours) && WellShaped(o.record.interval.pipeline) && s.bootCount == |s.boots|
    requires var i := Stored(s, o.record);
             RetiresOldest(AddBoot(s.boots, i), BootsAdded(s, i), i.boot, o.deletions.retired)
    ensures var boot, d := o.record.interval.boot, o.deletions;
            && (d.retired.Some? <==> |KnownBoots(s, boot)| > 10_000)
            && (d.retired.Some? ==> LongestEnded(s, boot, d.retired.value))
  {
    var i := Stored(s, o.record);
    var boots := AddBoot(s.boots, i);
    assert boots.Keys == KnownBoots(s, i.boot);
    assert |boots| == BootsAdded(s, i);
    assert |{i.boot}| == 1;
    assert forall b :: b in s.boots && b != i.boot ==> b in boots && boots[b] == s.boots[b];
  }

  /** What a commit makes of the boots and the retired clock. */
  ghost predicate BootsMove(s: Store, out: Store, i: Interval) {
    var ended := if i.boot in s.boots && s.boots[i.boot].ended > i.end then s.boots[i.boot].ended else i.end;
    && i.boot in out.boots && out.boots[i.boot] == Boot(i.seqNo, ended)
    && (forall b :: b in out.boots && b != i.boot ==> b in s.boots && out.boots[b] == s.boots[b])
    && if |KnownBoots(s, i.boot)| <= 10_000 then
         out.boots.Keys == KnownBoots(s, i.boot) && out.retiredBefore == s.retiredBefore
       else
         exists gone :: LongestEnded(s, i.boot, gone) && out.boots.Keys == KnownBoots(s, i.boot) - {gone}
                        && out.retiredBefore == MaxReal(s.retiredBefore, s.boots[gone].ended)
  }

  /**
   * Over every run a commit knows the record's boot by its sequence and latest end and keeps every
   * other boot as it was, up to 10,000; beyond, exactly one goes, the longest ended of the others,
   * and the retired clock moves to its end if that is later.
   */
  lemma BootsExactly(offers: seq<Offer>, o: Offer)
    requires Legal(Begin(), offers) && Allowed(Exec(Begin(), offers), o)
    requires var s := Exec(Begin(), offers).s; Shaped(s.hours) && Commits(s, o)
    ensures BootsMove(Exec(Begin(), offers).s, Next(Exec(Begin(), offers), o).s, o.record.interval)
  {
    RunKeeps(Begin(), offers);
    BootsOnce(Exec(Begin(), offers).s, o);
  }

  lemma RetiresOne(s: Store, o: Offer)
    requires Shaped(s.hours) && WellShaped(o.record.interval.pipeline) && Commits(s, o)
    ensures var i := Stored(s, o.record);
            RetiresOldest(AddBoot(s.boots, i), BootsAdded(s, i), i.boot, o.deletions.retired)
  {
  }

  lemma BootsOnce(s: Store, o: Offer)
    requires Shaped(s.hours) && WellShaped(o.record.interval.pipeline) && Commits(s, o) && s.bootCount == |s.boots|
    ensures BootsMove(s, Commit(s, o.record, o.deletions), o.record.interval)
  {
    CommittedBoots(s, o);
    RetiresOne(s, o);
    RetiredBoot(s, o);
    BootsFollow(s, o.record.interval, o.deletions.retired, Commit(s, o.record, o.deletions));
  }

  lemma BootsFollow(s: Store, i: Interval, retired: Option<string>, out: Store)
    requires out.boots == RetireBoot(AddBoot(s.boots, i), retired)
    requires out.retiredBefore == RetireClock(s.retiredBefore, AddBoot(s.boots, i), retired)
    requires retired.Some? <==> |KnownBoots(s, i.boot)| > 10_000
    requires retired.Some? ==> LongestEnded(s, i.boot, retired.value)
    ensures BootsMove(s, out, i)
  {
    BootsLeft(s.boots, i, s.retiredBefore, retired);
  }

  lemma BootsLeft(boots: map<string, Boot>, i: Interval, clock: real, retired: Option<string>)
    requires retired.Some? ==> retired.value in boots && retired.value != i.boot
    ensures var out := RetireBoot(AddBoot(boots, i), retired);
            var ended := if i.boot in boots && boots[i.boot].ended > i.end then boots[i.boot].ended else i.end;
            && i.boot in out && out[i.boot] == Boot(i.seqNo, ended)
            && (forall b :: b in out && b != i.boot ==> b in boots && out[b] == boots[b])
            && out.Keys == boots.Keys + {i.boot} - (if retired.Some? then {retired.value} else {})
    ensures RetireClock(clock, AddBoot(boots, i), retired)
            == if retired.Some? then MaxReal(clock, boots[retired.value].ended) else clock
  {
  }

  /** Page pressure reclaims the oldest hundred minute rows, or all of them; otherwise none. */
  lemma ReclaimExactly(s: Store, o: Offer)
    requires Shaped(s.hours) && WellShaped(o.record.interval.pipeline) && Commits(s, o)
    ensures var gone := o.deletions.reclaimed;
            && gone <= s.minutes.Keys
            && |gone| == (if !o.conditions.reclaim then 0 else if |s.minutes| < 100 then |s.minutes| else 100)
            && (forall k, l :: k in gone && l in s.minutes && l !in gone ==> s.minutes[k].start <= s.minutes[l].start)
  {
    ReclaimedAre(s.minutes, Stored(s, o.record), o.conditions.reclaim, o.deletions.reclaimed, s);
  }

  lemma ReclaimedAre(
    minutes: map<IntervalKey, Interval>, i: Interval, reclaim: bool, gone: set<IntervalKey>, s: Store)
    requires minutes == s.minutes && Reclaims(s, i, reclaim, gone)
    ensures gone <= minutes.Keys
    ensures |gone| == (if !reclaim then 0 else if |minutes| < 100 then |minutes| else 100)
    ensures forall k, l :: k in gone && l in minutes && l !in gone ==> minutes[k].start <= minutes[l].start
  {
    assert Starts(minutes).Keys == minutes.Keys;
    assert |minutes.Keys| == |minutes|;
    forall k, l | k in gone && l in minutes && l !in gone ensures minutes[k].start <= minutes[l].start {
      assert Starts(minutes)[k] <= Starts(minutes)[l];
    }
  }

  /** Rows that left the minute and hour tables, by an append of one record. */
  function RowsLeft(s: Store, out: Store, hour: int): int {
    (|s.minutes| + 1 - |out.minutes|) + (|s.hours| + (if hour in s.hours then 0 else 1) - |out.hours|)
  }

  /** Over every run each minute or hour row that leaves is deleted for its age or counted as evicted early. */
  lemma EarlyIsCounted(offers: seq<Offer>, o: Offer)
    requires Legal(Begin(), offers) && Allowed(Exec(Begin(), offers), o)
    requires var s := Exec(Begin(), offers).s; Shaped(s.hours) && Commits(s, o)
    ensures var s, out, d := Exec(Begin(), offers).s, Next(Exec(Begin(), offers), o).s, o.deletions;
            RowsLeft(s, out, HourOf(o.record.interval))
            == |d.expiredMinutes| + |d.expiredHours| + (out.early - s.early)
  {
    RunKeeps(Begin(), offers);
    EarlyNext(Exec(Begin(), offers), o);
  }

  lemma CountedNext(t: Tracked, o: Offer)
    requires Inv(t) && Allowed(t, o)
    ensures Counted(t.s) && Counted(Next(t, o).s)
  {
    StepKeeps(t, o);
  }

  lemma HourIsStored(s: Store, o: Offer)
    ensures HourOf(Stored(s, o.record)) == HourOf(o.record.interval)
  {
  }

  lemma EarlyNext(t: Tracked, o: Offer)
    requires Inv(t) && Allowed(t, o) && Commits(t.s, o)
    ensures RowsLeft(t.s, Next(t, o).s, HourOf(o.record.interval))
            == |o.deletions.expiredMinutes| + |o.deletions.expiredHours| + (Next(t, o).s.early - t.s.early)
  {
    CountedNext(t, o);
    CommittedEarly(t.s, o);
    CommittedCounts(t.s, o);
    HourIsStored(t.s, o);
    var out := Commit(t.s, o.record, o.deletions);
    assert Next(t, o).s == out;
    EarlyOnce(t.s, out, o.deletions, HourOf(o.record.interval));
  }

  lemma EarlyOnce(s: Store, out: Store, d: Deletions, hour: int)
    requires Counted(s) && Counted(out)
    requires out.early == s.early + |d.reclaimed| + |d.excessMinutes| + |d.excessHours|
    requires out.minuteCount == s.minuteCount + 1 - |d.reclaimed| - |d.expiredMinutes| - |d.excessMinutes|
    requires out.hourCount
             == s.hourCount + (if hour in s.hours then 0 else 1) - |d.expiredHours| - |d.excessHours|
    ensures RowsLeft(s, out, hour) == |d.expiredMinutes| + |d.expiredHours| + (out.early - s.early)
  {
  }

  lemma CommittedEarly(s: Store, o: Offer)
    requires Shaped(s.hours) && WellShaped(o.record.interval.pipeline)
    ensures var out, d := Commit(s, o.record, o.deletions), o.deletions;
            out.early == s.early + |d.reclaimed| + |d.excessMinutes| + |d.excessHours|
  {
  }

  lemma CommittedCounts(s: Store, o: Offer)
    requires Shaped(s.hours) && WellShaped(o.record.interval.pipeline)
    ensures var out, d := Commit(s, o.record, o.deletions), o.deletions;
            && out.minuteCount == s.minuteCount + 1 - |d.reclaimed| - |d.expiredMinutes| - |d.excessMinutes|
            && out.hourCount == HoursAdded(s, Stored(s, o.record)) - |d.expiredHours| - |d.excessHours|
  {
  }

  /** Only rows past their days are deleted for their age. */
  lemma ExpiredAreOld(s: Store, o: Offer)
    requires Shaped(s.hours) && WellShaped(o.record.interval.pipeline) && Commits(s, o)
    ensures forall k :: k in o.deletions.expiredMinutes ==>
              if k in s.minutes && k != KeyOf(o.record.interval)
              then s.minutes[k].start < Cutoff(s, o.record.interval, 30.0)
              else o.record.interval.start < Cutoff(s, o.record.interval, 30.0)
  {
    ExpiredMinutes(s, o);
  }

  lemma ExpiredMinutes(s: Store, o: Offer)
    requires var d := o.deletions; TrimsMinutes(s, o.record, d.reclaimed, d.expiredMinutes, d.excessMinutes)
    ensures forall k :: k in o.deletions.expiredMinutes ==>
              if k in s.minutes && k != KeyOf(o.record.interval)
              then s.minutes[k].start < Cutoff(s, o.record.interval, 30.0)
              else o.record.interval.start < Cutoff(s, o.record.interval, 30.0)
  {
    var rows := AddMinute(s.minutes, Stored(s, o.record), o.deletions.reclaimed);
    forall k | k in o.deletions.expiredMinutes ensures k in rows && rows[k].start < Cutoff(s, o.record.interval, 30.0) {
      assert k in OlderThan(Starts(rows), Cutoff(s, o.record.interval, 30.0));
    }
  }
}
