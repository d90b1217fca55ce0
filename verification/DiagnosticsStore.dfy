/** The store object: one all-or-nothing append over its tables and cached counts. */
module DiagnosticsStore {
  import opened Common
  import opened StoreModel

  /** A row with the smallest timestamp among a nonempty choice. */
  method OldestRow<K(==, !new)>(at: map<K, real>, choice: set<K>) returns (k: K)
    requires choice != {} && choice <= at.Keys
    ensures k in choice && forall x :: x in choice ==> at[k] <= at[x]
  {
    k :| k in choice;
    var rest := choice - {k};
    while rest != {}
      invariant k in choice && rest <= choice
      invariant forall x :: x in choice && x !in rest ==> at[k] <= at[x]
      decreases |rest|
    {
      var x :| x in rest;
      if at[x] < at[k] {
        k := x;
      }
      rest := rest - {x};
    }
  }

  /** `DELETE ... ORDER BY at LIMIT n`: the identities of the rows removed. */
  method DeleteOldest<K(==, !new)>(at: map<K, real>, eligible: set<K>, n: nat) returns (gone: set<K>)
    requires eligible <= at.Keys
    ensures Oldest(at, eligible, n, gone)
  {
    gone := {};
    while |gone| < n && gone != eligible
      invariant gone <= eligible && |gone| <= n
      invariant forall g, k :: g in gone && k in eligible && k !in gone ==> at[g] <= at[k]
      decreases |eligible - gone|
    {
      var rest := eligible - gone;
      assert gone + rest == eligible;
      var k := OldestRow(at, rest);
      assert eligible - (gone + {k}) == rest - {k};
      gone := gone + {k};
    }
    SubsetSize(gone, eligible);
  }

  /** Expired rows first, then the excess over the cap, each at most one batch. */
  method TrimRows<K(==, !new)>(at: map<K, real>, cached: int, cap: int, cutoff: real)
    returns (expired: set<K>, excess: set<K>)
    ensures TrimsRows(at, cached, cap, cutoff, expired, excess)
  {
    expired := DeleteOldest(at, OlderThan(at, cutoff), BATCH);
    var left := Without(at, expired);
    excess := DeleteOldest(left, left.Keys, Min(BATCH, Max(0, cached - |expired| - cap)));
  }

  /** The boot whose watermark makes room, if there is one besides the current boot. */
  method RetiringBoot(boots: map<string, Boot>, cached: int, current: string) returns (retired: Option<string>)
    requires current in boots
    ensures RetiresOldest(boots, cached, current, retired)
  {
    retired := None;
    if cached > BOOT_ROWS {
      var ended := map b | b in boots :: boots[b].ended;
      var others := boots.Keys - {current};
      if others != {} {
        var b := OldestRow(ended, others);
        retired := Some(b);
        assert boots.Keys != {current};
        assert forall x :: x in boots && x != current ==> x in others && ended[b] <= ended[x];
      } else {
        assert boots.Keys == {current};
      }
    }
  }

  // ---------------------------------------------------------------- the transaction

  /** The record passes every check made before the transaction. */
  predicate Admitted(s: StoreModel.Store, r: Record, c: Conditions) {
    WellFormed(r) && !Seen(s, r.interval) && !Expired(s, r.interval) && r.events <= 8 && c.encodes && c.room
  }

  /** Reclaim detail if the pages are full, then insert the row unless its identity is taken. */
  method WriteMinute(minutes: map<IntervalKey, Interval>, i: Interval, reclaim: bool)
    returns (ok: bool, out: map<IntervalKey, Interval>, reclaimed: set<IntervalKey>)
    ensures Oldest(Starts(minutes), minutes.Keys, if reclaim then BATCH else 0, reclaimed)
    ensures ok == (KeyOf(i) !in Without(minutes, reclaimed))
    ensures ok ==> out == AddMinute(minutes, i, reclaimed)
  {
    reclaimed := DeleteOldest(Starts(minutes), minutes.Keys, if reclaim then BATCH else 0);
    out := Without(minutes, reclaimed);
    ok := KeyOf(i) !in out;
    if ok {
      out := out[KeyOf(i) := i];
    }
  }

  /** Move the boot's watermark; with too many boots retire the one that ended first. */
  method WriteBoot(boots: map<string, Boot>, clock: real, i: Interval, cached: int)
    returns (out: map<string, Boot>, clock': real, retired: Option<string>)
    ensures RetiresOldest(AddBoot(boots, i), cached, i.boot, retired)
    ensures out == RetireBoot(AddBoot(boots, i), retired)
    ensures clock' == RetireClock(clock, AddBoot(boots, i), retired)
  {
    var ended := if i.boot in boots then MaxReal(i.end, boots[i.boot].ended) else i.end;
    out, clock' := boots[i.boot := Boot(i.seqNo, ended)], clock;
    retired := RetiringBoot(out, cached, i.boot);
    if retired.Some? {
      clock' := MaxReal(clock, out[retired.value].ended);
      out := Without(out, {retired.value});
    }
  }

  /** Merge the interval into its hour row, or start the row. */
  method WriteHour(hours: map<int, Interval>, i: Interval) returns (out: map<int, Interval>)
    requires Shaped(hours) && WellShaped(i.pipeline)
    ensures out == AddHour(hours, i)
  {
    var hour := HourOf(i);
    out := hours[hour := i];
    if hour in hours {
      out := hours[hour := MergeHour(hours[hour], i)];
    }
  }

  /** Delete the rows that are expired, then the excess; return what is left. */
  method TrimTable<K(==, !new), V>(rows: map<K, V>, at: map<K, real>, cached: int, cap: int, cutoff: real)
    returns (out: map<K, V>, expired: set<K>, excess: set<K>)
    ensures TrimsRows(at, cached, cap, cutoff, expired, excess) && out == Trim(rows, expired, excess)
  {
    expired, excess := TrimRows(at, cached, cap, cutoff);
    out := Without(rows, expired);
    out := Without(out, excess);
  }

  /** What is left to go wrong once a record is admitted. */
  lemma AdmittedResult(s: StoreModel.Store, r: Record, c: Conditions)
    requires Admitted(s, r, c)
    ensures Result(s, r, c)
            == if KeyOf(r.interval) in s.minutes && !c.reclaim then Failed
               else if !c.hourEncodes || NewEvents(r).Keys * s.events.Keys != {} then Failed
               else Committed
  {
  }

  /** The rows one append inserts, table by table; false as soon as a statement raises. */
  method InsertAll(s: StoreModel.Store, r: Record, c: Conditions)
    returns (ok: bool, minutes: map<IntervalKey, Interval>, hours: map<int, Interval>, events: map<EventKey, real>,
             boots: map<string, Boot>, clock: real, reclaimed: set<IntervalKey>, retired: Option<string>)
    requires Shaped(s.hours) && WellShaped(r.interval.pipeline) && Admitted(s, r, c)
    ensures !ok ==> Result(s, r, c).Failed? || KeyOf(r.interval) in s.minutes
    ensures ok ==> Result(s, r, c).Committed? && Reclaims(s, Stored(s, r), c.reclaim, reclaimed)
    ensures ok ==> minutes == AddMinute(s.minutes, Stored(s, r), reclaimed) && hours == AddHour(s.hours, Stored(s, r))
    ensures ok ==> events == s.events + NewEvents(r)
    ensures ok ==>
              && RetiresOldest(AddBoot(s.boots, Stored(s, r)), BootsAdded(s, Stored(s, r)), r.interval.boot, retired)
              && boots == RetireBoot(AddBoot(s.boots, Stored(s, r)), retired)
              && clock == RetireClock(s.retiredBefore, AddBoot(s.boots, Stored(s, r)), retired)
  {
    var i := Stored(s, r);
    AdmittedResult(s, r, c);
    hours, events := s.hours, s.events;
    ok, minutes, reclaimed := WriteMinute(s.minutes, i, c.reclaim);
    boots, clock, retired := WriteBoot(s.boots, s.retiredBefore, i, BootsAdded(s, i));
    if ok && c.hourEncodes {
      hours := WriteHour(s.hours, i);
    }
    ok := ok && c.hourEncodes && NewEvents(r).Keys * s.events.Keys == {};
    if ok {
      events := s.events + NewEvents(r);
    }
  }

  /** The whole transaction on a private copy of the tables; nothing is published unless `ok`. */
  method Transact(s: StoreModel.Store, r: Record, c: Conditions)
    returns (ok: bool, next: StoreModel.Store, d: Deletions)
    requires Shaped(s.hours) && WellShaped(r.interval.pipeline) && Admitted(s, r, c)
    ensures !ok ==> Result(s, r, c).Failed? || KeyOf(r.interval) in s.minutes
    ensures ok ==> Result(s, r, c).Committed? && GoodDeletions(s, r, c, d) && next == Commit(s, r, d)
  {
    var minutes, hours, events, boots, clock, reclaimed, retired;
    ok, minutes, hours, events, boots, clock, reclaimed, retired := InsertAll(s, r, c);
    next, d := s, Deletions(reclaimed, {}, {}, {}, {}, {}, {}, retired);
    if ok {
      next, d := Finish(s, r, minutes, hours, events, boots, clock, reclaimed, retired);
    }
  }

  lemma CommitTablesAre(s: StoreModel.Store, r: Record, d: Deletions)
    requires Shaped(s.hours) && WellShaped(r.interval.pipeline)
    ensures var next, i := Commit(s, r, d), Stored(s, r);
            && next.minutes == Trim(AddMinute(s.minutes, i, d.reclaimed), d.expiredMinutes, d.excessMinutes)
            && next.hours == Trim(AddHour(s.hours, i), d.expiredHours, d.excessHours)
            && next.events == Trim(s.events + NewEvents(r), d.expiredEvents, d.excessEvents)
            && next.boots == RetireBoot(AddBoot(s.boots, i), d.retired)
            && next.retiredBefore == RetireClock(s.retiredBefore, AddBoot(s.boots, i), d.retired)
  {
  }

  lemma CommitCountsAre(s: StoreModel.Store, r: Record, d: Deletions)
    requires Shaped(s.hours) && WellShaped(r.interval.pipeline)
    ensures var next, i := Commit(s, r, d), Stored(s, r);
            && next.retentionAt == Some(Retention(s, r.interval))
            && next.minuteCount == MinutesAdded(s, d.reclaimed) - |d.expiredMinutes| - |d.excessMinutes|
            && next.hourCount == HoursAdded(s, i) - |d.expiredHours| - |d.excessHours|
            && next.eventCount == EventsAdded(s, r) - |d.expiredEvents| - |d.excessEvents|
            && next.bootCount == BootsAdded(s, i) - (if d.retired.Some? then 1 else 0)
            && next.early == s.early + |d.reclaimed| + |d.excessMinutes| + |d.excessHours|
  {
  }

  /** Stores that agree field by field are equal. */
  lemma SameStore(a: StoreModel.Store, b: StoreModel.Store)
    requires a.minutes == b.minutes && a.hours == b.hours && a.events == b.events && a.boots == b.boots
    requires a.retentionAt == b.retentionAt && a.retiredBefore == b.retiredBefore && a.early == b.early
    requires a.minuteCount == b.minuteCount && a.hourCount == b.hourCount
    requires a.eventCount == b.eventCount && a.bootCount == b.bootCount
    ensures a == b
  {
  }

  /** A store whose every field is as a commit leaves it is the committed store. */
  lemma CommitIs(s: StoreModel.Store, r: Record, d: Deletions, next: StoreModel.Store)
    requires Shaped(s.hours) && WellShaped(r.interval.pipeline)
    requires next.minutes == Trim(AddMinute(s.minutes, Stored(s, r), d.reclaimed), d.expiredMinutes, d.excessMinutes)
    requires next.hours == Trim(AddHour(s.hours, Stored(s, r)), d.expiredHours, d.excessHours)
    requires next.events == Trim(s.events + NewEvents(r), d.expiredEvents, d.excessEvents)
    requires next.boots == RetireBoot(AddBoot(s.boots, Stored(s, r)), d.retired)
    requires next.retentionAt == Some(Retention(s, r.interval))
    requires next.retiredBefore == RetireClock(s.retiredBefore, AddBoot(s.boots, Stored(s, r)), d.retired)
    requires next.minuteCount == MinutesAdded(s, d.reclaimed) - |d.expiredMinutes| - |d.excessMinutes|
    requires next.hourCount == HoursAdded(s, Stored(s, r)) - |d.expiredHours| - |d.excessHours|
    requires next.eventCount == EventsAdded(s, r) - |d.expiredEvents| - |d.excessEvents|
    requires next.bootCount == BootsAdded(s, Stored(s, r)) - (if d.retired.Some? then 1 else 0)
    requires next.early == s.early + |d.reclaimed| + |d.excessMinutes| + |d.excessHours|
    ensures next == Commit(s, r, d)
  {
    CommitTablesAre(s, r, d);
    CommitCountsAre(s, r, d);
    SameStore(next, Commit(s, r, d));
  }

  /** Retention of the three tables, then the clock and the cached counts. */
  method Finish(
    s: StoreModel.Store, r: Record, minutes: map<IntervalKey, Interval>, hours: map<int, Interval>,
    events: map<EventKey, real>, boots: map<string, Boot>, clock: real, reclaimed: set<IntervalKey>,
    retired: Option<string>) returns (next: StoreModel.Store, d: Deletions)
    requires Shaped(s.hours) && WellShaped(r.interval.pipeline)
    requires minutes == AddMinute(s.minutes, Stored(s, r), reclaimed) && hours == AddHour(s.hours, Stored(s, r))
    requires events == s.events + NewEvents(r) && boots == RetireBoot(AddBoot(s.boots, Stored(s, r)), retired)
    requires clock == RetireClock(s.retiredBefore, AddBoot(s.boots, Stored(s, r)), retired)
    ensures d.reclaimed == reclaimed && d.retired == retired
    ensures TrimsMinutes(s, r, d.reclaimed, d.expiredMinutes, d.excessMinutes)
    ensures TrimsHours(s, r, d.expiredHours, d.excessHours) && TrimsEvents(s, r, d.expiredEvents, d.excessEvents)
    ensures next == Commit(s, r, d)
  {
    var i := Stored(s, r);
    var minuteRows, hourRows, eventRows := MinutesAdded(s, reclaimed), HoursAdded(s, i), EventsAdded(s, r);
    var m, expired, excess := TrimTable(minutes, Starts(minutes), minuteRows, MINUTE_ROWS, Cutoff(s, r.interval, 30.0));
    var h, gone, extra := TrimTable(hours, Starts(hours), hourRows, HOUR_ROWS, Cutoff(s, r.interval, 365.0));
    var e, past, over := TrimTable(events, events, eventRows, EVENT_ROWS, Cutoff(s, r.interval, 90.0));
    d := Deletions(reclaimed, expired, excess, gone, extra, past, over, retired);
    next := StoreModel.Store(
      m, h, e, boots, Some(Retention(s, r.interval)), clock,
      minuteRows - |expired| - |excess|, hourRows - |gone| - |extra|, eventRows - |past| - |over|,
      BootsAdded(s, i) - (if retired.Some? then 1 else 0), s.early + |reclaimed| + |excess| + |extra|);
    CommitIs(s, r, d, next);
  }

  class Store {
    var minutes: map<IntervalKey, Interval>
    var hours: map<int, Interval>
    var events: map<EventKey, real>
    var boots: map<string, Boot>
    var retentionAt: Option<real>
    var retiredBefore: real
    var minuteCount: int
    var hourCount: int
    var eventCount: int
    var bootCount: int
    var early: int

    function View(): StoreModel.Store
      reads this
    {
      StoreModel.Store(minutes, hours, events, boots, retentionAt, retiredBefore,
                       minuteCount, hourCount, eventCount, bootCount, early)
    }

    constructor ()
      ensures View() == EmptyStore()
    {
      minutes, hours, events, boots := map[], map[], map[], map[];
      retentionAt, retiredBefore := None, -1.0;
      minuteCount, hourCount, eventCount, bootCount, early := 0, 0, 0, 0, 0;
    }

    /**
     * One append. A committed one has every effect of `Commit`; any other outcome leaves the
     * tables, the cached counts and the clocks exactly as they were.
     */
    method Append(r: Record, c: Conditions) returns (outcome: Outcome, ghost d: Deletions)
      requires Shaped(hours) && WellShaped(r.interval.pipeline)
      modifies this
      ensures outcome.Committed? ==>
                && Result(old(View()), r, c).Committed? && GoodDeletions(old(View()), r, c, d)
                && View() == Commit(old(View()), r, d)
      ensures !outcome.Committed? ==> View() == old(View())
      ensures outcome == Result(old(View()), r, c) || (outcome.Failed? && KeyOf(r.interval) in old(minutes))
    {
      d := Deletions({}, {}, {}, {}, {}, {}, {}, None);
      outcome := Admit(r, c);
      if outcome.Committed? {
        var ok, next, plan := Transact(View(), r, c);
        if ok {
          d := plan;
          Publish(next);
        } else {
          outcome := Failed;
        }
      }
    }

    /** The checks made before the transaction; `Committed` stands for going on. */
    method Admit(r: Record, c: Conditions) returns (outcome: Outcome)
      ensures outcome.Committed? ==> Admitted(View(), r, c)
      ensures !outcome.Committed? ==> outcome == Result(View(), r, c)
    {
      if !WellFormed(r) {
        return Failed;
      }
      if r.interval.boot in boots && r.interval.seqNo <= boots[r.interval.boot].seqNo {
        return Duplicate;
      }
      if r.interval.boot !in boots && r.interval.end <= retiredBefore {
        return Failed;
      }
      if r.events > 8 || !c.encodes {
        return Failed;
      }
      return if c.room then Committed else Paused;
    }

    /** The commit: the transaction's tables become visible, then the cached fields follow. */
    method Publish(next: StoreModel.Store)
      modifies this
      ensures View() == next
    {
      minutes, hours, events, boots := next.minutes, next.hours, next.events, next.boots;
      retentionAt, retiredBefore, early := next.retentionAt, next.retiredBefore, next.early;
      minuteCount, hourCount, eventCount, bootCount :=
        next.minuteCount, next.hourCount, next.eventCount, next.bootCount;
    }
  }
}
