/**
 * A run of the diagnostics store from empty after which a single out-of-order record makes it
 * merge an accepted record twice: the producers' increasing-sequence contract cannot be dropped.
 */
module StoreCounterexample {
  import opened Common
  import opened StoreModel
  import opened StoreRuns

  // ---------------------------------------------------------------- boot names

  const HEX: string := "0123456789abcdef"

  function Power(width: nat): nat {
    if width == 0 then 1 else 16 * Power(width - 1)
  }

  /** The last hexadecimal digits of a number. */
  function Digits(n: nat, width: nat): (out: string)
    ensures |out| == width && forall c :: c in out ==> c in HEX
  {
    if width == 0 then [] else Digits(n / 16, width - 1) + [HEX[n % 16]]
  }

  lemma {:induction false} DigitsDiffer(a: nat, b: nat, width: nat)
    requires a != b && a < Power(width) && b < Power(width)
    ensures Digits(a, width) != Digits(b, width)
  {
    if a % 16 != b % 16 {
      assert HEX[a % 16] != HEX[b % 16];
      assert Digits(a, width)[width - 1] == HEX[a % 16] && Digits(b, width)[width - 1] == HEX[b % 16];
    } else {
      DigitsDiffer(a / 16, b / 16, width - 1);
      assert Digits(a, width)[..width - 1] == Digits(a / 16, width - 1);
      assert Digits(b, width)[..width - 1] == Digits(b / 16, width - 1);
    }
  }

  lemma {:induction false} PowerGrows(width: nat)
    requires width >= 4
    ensures Power(width) >= 0x1_0000
  {
    if width == 4 {
      assert Power(4) == 16 * Power(3) && Power(2) == 16 * Power(1);
    } else {
      PowerGrows(width - 1);
    }
  }

  /** One boot more than the table holds. */
  predicate Usable(names: seq<string>) {
    |names| == BOOT_ROWS + 1 && Distinct(names) && forall n :: 0 <= n < |names| ==> HexBoot(names[n])
  }

  lemma NamesExist() returns (names: seq<string>)
    ensures Usable(names)
  {
    names := seq(BOOT_ROWS + 1, n requires 0 <= n => Digits(n, 32));
    PowerGrows(32);
    forall i, j | 0 <= i < j < |names| ensures names[i] != names[j] {
      DigitsDiffer(i, j, 32);
    }
  }

  // ---------------------------------------------------------------- small records

  function Only(reclaimed: set<IntervalKey>, retired: Option<string>): Deletions {
    Deletions(reclaimed, {}, {}, {}, {}, {}, {}, retired)
  }

  /** An empty record of the first seconds, offered when nothing stands in its way. */
  predicate IsSample(o: Offer) {
    var i, d := o.record.interval, o.deletions;
    && HexBoot(i.boot) && i.seqNo <= 1 && 0.0 <= i.start == i.end <= 2.0 && i.elapsed == 0.0
    && WellShaped(i.pipeline) && i.intervals == 1 && i.omitted == 0 && o.record.events == o.record.kept == 0
    && o.conditions == Conditions(true, true, d.reclaimed != {}, true) && d == Only(d.reclaimed, d.retired)
  }

  lemma Sample(boot: string, seqNo: nat, end: real, reclaimed: set<IntervalKey>, retired: Option<string>)
    returns (o: Offer)
    requires HexBoot(boot) && seqNo <= 1 && 0.0 <= end <= 2.0
    ensures IsSample(o) && KeyOf(o.record.interval) == IntervalKey(boot, seqNo) && o.record.interval.end == end
    ensures o.deletions == Only(reclaimed, retired)
  {
    var none := [0, 0, 0, 0, 0, 0, 0, 0, 0];
    var pipeline := Pipeline([0, 0, 0, 0, 0, 0, 0], [0.0, 0.0, 0.0], none, none);
    o := Offer(Record(Interval(boot, seqNo, end, end, 0.0, {}, 0, pipeline, map[], 1, 0), 0, 0),
               Conditions(true, true, reclaimed != {}, true), Only(reclaimed, retired));
  }

  /** A table within its cap and without old rows is left alone. */
  lemma TrimNothing<K(!new)>(at: map<K, real>, cached: int, cap: int, cutoff: real)
    requires cached <= cap && forall k :: k in at ==> at[k] >= cutoff
    ensures TrimsRows(at, cached, cap, cutoff, {}, {})
  {
    assert OlderThan(at, cutoff) == {};
  }

  lemma NothingTrimmed<K, V>(rows: map<K, V>)
    ensures Trim(rows, {}, {}) == rows
  {
  }

  /** A young store without events, all of whose rows are of the first hour. */
  predicate Quiet(s: Store) {
    && Shaped(s.hours) && 0 <= s.hourCount <= 1 && s.hours.Keys == (if s.hourCount == 0 then {} else {0})
    && (forall h :: h in s.hours ==> s.hours[h].start >= 0.0)
    && (forall k :: k in s.minutes ==> s.minutes[k].start >= 0.0)
    && s.events == map[] && s.eventCount == 0
    && (s.retentionAt.Some? ==> s.retentionAt.value <= 2.0)
  }

  lemma HourIsFirst(o: Offer)
    requires IsSample(o)
    ensures HourOf(o.record.interval) == 0
  {
    var end := o.record.interval.end;
    assert 0.0 <= end / 3600.0 < 1.0;
  }

  lemma HoursStay(s: Store, o: Offer)
    requires Quiet(s) && IsSample(o)
    ensures TrimsHours(s, o.record, {}, {})
  {
    var i := Stored(s, o.record);
    HourIsFirst(o);
    var all := AddHour(s.hours, i);
    assert all.Keys == {0} && all[0].start >= 0.0;
    TrimNothing(Starts(all), HoursAdded(s, i), HOUR_ROWS, Cutoff(s, o.record.interval, 365.0));
  }

  lemma MinutesStay(s: Store, o: Offer)
    requires Quiet(s) && IsSample(o) && s.minuteCount < MINUTE_ROWS
    ensures TrimsMinutes(s, o.record, o.deletions.reclaimed, {}, {})
  {
    TrimNothing(Starts(AddMinute(s.minutes, Stored(s, o.record), o.deletions.reclaimed)),
                MinutesAdded(s, o.deletions.reclaimed), MINUTE_ROWS, Cutoff(s, o.record.interval, 30.0));
  }

  lemma EventsStay(s: Store, o: Offer)
    requires Quiet(s) && IsSample(o)
    ensures TrimsEvents(s, o.record, {}, {})
  {
    assert s.events + NewEvents(o.record) == map[];
    TrimNothing<EventKey>(map[], EventsAdded(s, o.record), EVENT_ROWS, Cutoff(s, o.record.interval, 90.0));
  }

  /** Only reclaimed minutes and a retired boot are deleted. */
  lemma DeletesOnly(s: Store, o: Offer)
    requires Quiet(s) && IsSample(o) && s.minuteCount < MINUTE_ROWS
    requires Reclaims(s, Stored(s, o.record), o.conditions.reclaim, o.deletions.reclaimed)
    requires RetiresOldest(AddBoot(s.boots, Stored(s, o.record)), BootsAdded(s, Stored(s, o.record)),
                           o.record.interval.boot, o.deletions.retired)
    ensures GoodDeletions(s, o.record, o.conditions, o.deletions)
  {
    MinutesStay(s, o);
    HoursStay(s, o);
    EventsStay(s, o);
  }

  /** The tables after such a commit. */
  lemma SampleTables(s: Store, o: Offer)
    requires Quiet(s) && IsSample(o)
    ensures var out, i, d := Commit(s, o.record, o.deletions), Stored(s, o.record), o.deletions;
            && out.minutes == AddMinute(s.minutes, i, d.reclaimed) && out.hours == AddHour(s.hours, i)
            && out.events == map[] && out.eventCount == 0 && out.hourCount == HoursAdded(s, i)
  {
    var i, d := Stored(s, o.record), o.deletions;
    assert NewEvents(o.record) == map[] && s.events + NewEvents(o.record) == map[];
    NothingTrimmed(AddMinute(s.minutes, i, d.reclaimed));
    NothingTrimmed(AddHour(s.hours, i));
    NothingTrimmed<EventKey, real>(map[]);
  }

  lemma HoursAfter(s: Store, o: Offer)
    requires Quiet(s) && IsSample(o)
    ensures var out, i := AddHour(s.hours, Stored(s, o.record)), Stored(s, o.record);
            Shaped(out) && out.Keys == {0} && out[0].start >= 0.0 && HoursAdded(s, i) == 1
  {
    HourIsFirst(o);
    assert AddHour(s.hours, Stored(s, o.record)).Keys == {0};
  }

  lemma QuietAfter(s: Store, o: Offer)
    requires Quiet(s) && IsSample(o)
    ensures Quiet(Commit(s, o.record, o.deletions))
  {
    SampleTables(s, o);
    HoursAfter(s, o);
  }

  /** How the store and its history look after such a commit. */
  predicate Leaves(t: Tracked, i: Interval, reclaimed: set<IntervalKey>, retired: Option<string>, out: Tracked) {
    && Quiet(out.s)
    && out.s.minutes.Keys == t.s.minutes.Keys - reclaimed + {KeyOf(i)}
    && out.s.minuteCount == t.s.minuteCount - |reclaimed| + 1
    && out.s.boots == RetireBoot(AddBoot(t.s.boots, i), retired)
    && out.s.retiredBefore == RetireClock(t.s.retiredBefore, AddBoot(t.s.boots, i), retired)
    && out.s.bootCount == BootsAdded(t.s, i) - (if retired.Some? then 1 else 0)
    && out.merged == t.merged + [KeyOf(i)] && out.accepted == t.accepted[KeyOf(i) := i.end]
  }

  lemma BootsAfter(s: Store, o: Offer)
    requires Quiet(s) && IsSample(o)
    ensures var out, i, d := Commit(s, o.record, o.deletions), o.record.interval, o.deletions;
            && out.boots == RetireBoot(AddBoot(s.boots, i), d.retired)
            && out.retiredBefore == RetireClock(s.retiredBefore, AddBoot(s.boots, i), d.retired)
            && out.bootCount == BootsAdded(s, i) - (if d.retired.Some? then 1 else 0)
            && out.minuteCount == s.minuteCount - |d.reclaimed| + 1
  {
  }

  lemma MinutesAfter(s: Store, o: Offer)
    requires Quiet(s) && IsSample(o)
    ensures Commit(s, o.record, o.deletions).minutes.Keys
            == s.minutes.Keys - o.deletions.reclaimed + {KeyOf(o.record.interval)}
  {
    SampleTables(s, o);
  }

  lemma CommitLeaves(t: Tracked, o: Offer)
    requires Quiet(t.s) && IsSample(o)
    ensures Leaves(t, o.record.interval, o.deletions.reclaimed, o.deletions.retired, AfterCommit(t, o))
  {
    QuietAfter(t.s, o);
    MinutesAfter(t.s, o);
    BootsAfter(t.s, o);
  }

  /** The store has room for the record and its boot, retiring `retired` if need be. */
  predicate Fits(s: Store, i: Interval, reclaimed: set<IntervalKey>, retired: Option<string>) {
    && s.minuteCount < MINUTE_ROWS && KeyOf(i) !in s.minutes && !Seen(s, i) && !Expired(s, i)
    && (reclaimed == {} || (reclaimed == s.minutes.Keys && |reclaimed| == 1))
    && if retired.None? then BootsAdded(s, i) <= BOOT_ROWS
       else
         && BootsAdded(s, i) > BOOT_ROWS && retired.value in s.boots && retired.value != i.boot
         && forall b :: b in s.boots && b != i.boot ==> s.boots[retired.value].ended <= s.boots[b].ended
  }

  lemma ReclaimFits(s: Store, o: Offer)
    requires Quiet(s) && IsSample(o) && Fits(s, o.record.interval, o.deletions.reclaimed, o.deletions.retired)
    ensures Reclaims(s, Stored(s, o.record), o.conditions.reclaim, o.deletions.reclaimed)
  {
    assert Starts(s.minutes).Keys == s.minutes.Keys;
  }

  lemma RetireFits(s: Store, o: Offer)
    requires Quiet(s) && IsSample(o) && Fits(s, o.record.interval, o.deletions.reclaimed, o.deletions.retired)
    ensures RetiresOldest(AddBoot(s.boots, Stored(s, o.record)), BootsAdded(s, Stored(s, o.record)),
                          o.record.interval.boot, o.deletions.retired)
  {
    if o.deletions.retired.Some? {
      assert o.deletions.retired.value in AddBoot(s.boots, Stored(s, o.record)).Keys;
    }
  }

  lemma SampleCommits(s: Store, o: Offer)
    requires Quiet(s) && IsSample(o) && Fits(s, o.record.interval, o.deletions.reclaimed, o.deletions.retired)
    ensures Commits(s, o)
  {
    ReclaimFits(s, o);
    RetireFits(s, o);
    DeletesOnly(s, o);
    assert NewEvents(o.record) == map[];
  }

  /** One committed record, without its details. */
  lemma Accepted(t: Tracked, o: Offer)
    requires Quiet(t.s) && IsSample(o) && Fits(t.s, o.record.interval, o.deletions.reclaimed, o.deletions.retired)
    ensures Commits(t.s, o)
    ensures Leaves(t, o.record.interval, o.deletions.reclaimed, o.deletions.retired, AfterCommit(t, o))
  {
    SampleCommits(t.s, o);
    CommitLeaves(t, o);
  }

  // ---------------------------------------------------------------- runs

  /** The end of some run from empty whose records are all new or replays. */
  ghost predicate Reached(t: Tracked) {
    exists offers :: Legal(Begin(), offers) && Exec(Begin(), offers) == t
  }

  lemma BeginReached()
    ensures Reached(Begin())
  {
    assert Legal(Begin(), []) && Exec(Begin(), []) == Begin();
  }

  lemma {:induction false} LegalAppend(t: Tracked, offers: seq<Offer>, o: Offer)
    requires Legal(t, offers) && Shaped(Exec(t, offers).s.hours) && Allowed(Exec(t, offers), o)
    ensures Legal(t, offers + [o]) && Exec(t, offers + [o]) == Next(Exec(t, offers), o)
    decreases |offers|
  {
    var all := offers + [o];
    if offers == [] {
      assert all[1..] == [];
    } else {
      assert all[0] == offers[0] && all[1..] == offers[1..] + [o];
      LegalAppend(Next(t, offers[0]), offers[1..], o);
    }
  }

  lemma NextReached(t: Tracked, o: Offer)
    requires Reached(t) && Shaped(t.s.hours) && Allowed(t, o)
    ensures Reached(Next(t, o))
  {
    var offers :| Legal(Begin(), offers) && Exec(Begin(), offers) == t;
    LegalAppend(Begin(), offers, o);
  }

  /** One more step of a run: a record of a boot that is not among the accepted ones. */
  lemma Extend(t: Tracked, o: Offer) returns (out: Tracked)
    requires Reached(t) && Quiet(t.s) && IsSample(o) && IsNew(t, o.record.interval)
    requires Fits(t.s, o.record.interval, o.deletions.reclaimed, o.deletions.retired)
    ensures Reached(out) && Leaves(t, o.record.interval, o.deletions.reclaimed, o.deletions.retired, out)
  {
    out := AfterCommit(t, o);
    Accepted(t, o);
    NextReached(t, o);
  }

  // ---------------------------------------------------------------- filling the boot table

  /**
   * `n` boots, all in `used`, have each had one record accepted. The first boot accepted
   * record 1, whose minute row is gone; `second` is one of the others.
   */
  predicate Filled(t: Tracked, first: string, second: string, used: set<string>, n: nat) {
    && Quiet(t.s) && t.s.minuteCount == n - 1 && t.s.bootCount == n && t.s.retiredBefore == -1.0
    && FilledMinutes(t.s.minutes.Keys, first, used) && FilledBoots(t.s.boots, first, second, used)
    && FilledHistory(t, first, used)
  }

  predicate FilledMinutes(keys: set<IntervalKey>, first: string, used: set<string>) {
    forall k :: k in keys ==> k.boot != first && k.boot in used
  }

  predicate FilledBoots(boots: map<string, Boot>, first: string, second: string, used: set<string>) {
    && (forall b :: b in boots ==> b in used && (b != first ==> boots[b].ended == 1.0))
    && first in boots && second in boots && first != second && boots[first] == Boot(1, 0.5)
  }

  predicate FilledHistory(t: Tracked, first: string, used: set<string>) {
    var k := IntervalKey(first, 1);
    && k in t.accepted && t.accepted[k] == 0.5 && k in t.merged
    && forall k :: k in t.accepted ==> k.boot in used
  }

  lemma HistoryGrows(t: Tracked, i: Interval, first: string, used: set<string>, out: Tracked)
    requires FilledHistory(t, first, used) && i.boot != first
    requires out.merged == t.merged + [KeyOf(i)] && out.accepted == t.accepted[KeyOf(i) := i.end]
    ensures FilledHistory(out, first, used + {i.boot})
  {
  }

  lemma FilledGrows(
    t: Tracked, i: Interval, first: string, second: string, used: set<string>, n: nat, out: Tracked)
    requires Filled(t, first, second, used, n) && i.boot !in used && i.end == 1.0 && Leaves(t, i, {}, None, out)
    ensures Filled(out, first, second, used + {i.boot}, n + 1)
  {
    HistoryGrows(t, i, first, used, out);
  }

  /** One more boot. */
  lemma FillOne(t: Tracked, first: string, second: string, used: set<string>, n: nat, boot: string)
    returns (out: Tracked)
    requires Reached(t) && n < BOOT_ROWS && Filled(t, first, second, used, n) && HexBoot(boot) && boot !in used
    ensures Reached(out) && Filled(out, first, second, used + {boot}, n + 1)
  {
    var o := Sample(boot, 0, 1.0, {}, None);
    out := Extend(t, o);
    FilledGrows(t, o.record.interval, first, second, used, n, out);
  }

  lemma FilledTwo(t: Tracked, i: Interval, j: Interval, out: Tracked)
    requires Leaves(Begin(), i, {}, None, t) && Leaves(t, j, {KeyOf(i)}, None, out) && i.boot != j.boot
    requires i.seqNo == 1 && i.end == 0.5 && j.end == 1.0
    ensures Filled(out, i.boot, j.boot, {i.boot, j.boot}, 2)
  {
    assert out.merged[0] == KeyOf(i);
    assert |{KeyOf(i)}| == 1;
  }

  /** The first boot's record 1, and one of a second boot that reclaims its minute row. */
  lemma FillTwo(first: string, second: string) returns (out: Tracked)
    requires HexBoot(first) && HexBoot(second) && first != second
    ensures Reached(out) && Filled(out, first, second, {first, second}, 2)
  {
    BeginReached();
    var a := Sample(first, 1, 0.5, {}, None);
    var t := Extend(Begin(), a);
    assert t.s.minutes.Keys == {IntervalKey(first, 1)};
    var b := Sample(second, 0, 1.0, {IntervalKey(first, 1)}, None);
    out := Extend(t, b);
    FilledTwo(t, a.record.interval, b.record.interval, out);
  }

  function Used(names: seq<string>, n: nat): set<string>
    requires n <= |names|
  {
    Elements(names[..n])
  }

  lemma UsedSoFar(names: seq<string>, n: nat)
    requires Usable(names) && n < |names|
    ensures HexBoot(names[n]) && names[n] !in Used(names, n) && Used(names, n + 1) == Used(names, n) + {names[n]}
  {
    assert names[..n + 1] == names[..n] + [names[n]];
  }

  lemma UsedTwo(names: seq<string>)
    requires Usable(names)
    ensures Used(names, 2) == {names[0], names[1]} && names[0] != names[1]
  {
    assert names[..2] == [names[0], names[1]];
  }

  lemma {:induction false} FillUpTo(names: seq<string>, n: nat) returns (out: Tracked)
    requires Usable(names) && 2 <= n <= BOOT_ROWS
    ensures Reached(out) && Filled(out, names[0], names[1], Used(names, n), n)
  {
    if n == 2 {
      UsedTwo(names);
      out := FillTwo(names[0], names[1]);
    } else {
      var t := FillUpTo(names, n - 1);
      UsedSoFar(names, n - 1);
      out := FillOne(t, names[0], names[1], Used(names, n - 1), n - 1, names[n - 1]);
    }
  }

  // ---------------------------------------------------------------- the record that is merged twice

  /** The boot table is full, and the first boot, whose record 1 was accepted, is retired. */
  predicate Retired(t: Tracked, first: string, second: string) {
    var k := IntervalKey(first, 1);
    && Quiet(t.s) && t.s.minuteCount == t.s.bootCount == BOOT_ROWS && t.s.retiredBefore == 0.5
    && (forall k :: k in t.s.minutes.Keys ==> k.boot != first)
    && (forall b :: b in t.s.boots ==> b != first && t.s.boots[b].ended == 1.0) && second in t.s.boots
    && k in t.accepted && t.accepted[k] == 0.5 && k in t.merged
  }

  lemma RetiredNow(t: Tracked, i: Interval, first: string, second: string, used: set<string>, out: Tracked)
    requires Filled(t, first, second, used, BOOT_ROWS) && i.boot !in used && i.end == 1.0
    requires Leaves(t, i, {}, Some(first), out)
    ensures Retired(out, first, second)
  {
    HistoryGrows(t, i, first, used, out);
  }

  lemma RetireFirst(t: Tracked, first: string, second: string, used: set<string>, boot: string)
    returns (out: Tracked)
    requires Reached(t) && Filled(t, first, second, used, BOOT_ROWS) && HexBoot(boot) && boot !in used
    ensures Reached(out) && Retired(out, first, second)
  {
    var o := Sample(boot, 0, 1.0, {}, Some(first));
    out := Extend(t, o);
    RetiredNow(t, o.record.interval, first, second, used, out);
  }

  /** `o` commits out of order, and then a replay `p` of an accepted record commits and is merged again. */
  ghost predicate MergesTwice(t: Tracked, o: Offer, p: Offer) {
    && Shaped(t.s.hours) && Producible(o.record) && Producible(p.record) && Commits(t.s, o)
    && IsReplay(t, p.record.interval) && p.record.interval.boot == o.record.interval.boot
    && o.record.interval.seqNo < p.record.interval.seqNo
    && var between := AfterCommit(t, o);
       Shaped(between.s.hours) && Commits(between.s, p) && !Distinct(AfterCommit(between, p).merged)
  }

  lemma ReturnFits(t: Tracked, first: string, second: string) returns (o: Offer)
    requires Retired(t, first, second) && HexBoot(first)
    ensures IsSample(o) && Commits(t.s, o) && KeyOf(o.record.interval) == IntervalKey(first, 0)
    ensures Leaves(t, o.record.interval, {}, Some(second), AfterCommit(t, o))
  {
    o := Sample(first, 0, 2.0, {}, Some(second));
    Accepted(t, o);
  }

  lemma ReplayFits(t: Tracked, i: Interval, first: string, second: string, between: Tracked) returns (p: Offer)
    requires Retired(t, first, second) && HexBoot(first) && KeyOf(i) == IntervalKey(first, 0)
    requires Leaves(t, i, {}, Some(second), between)
    ensures IsSample(p) && Commits(between.s, p) && p.record.interval.end == 0.5
    ensures KeyOf(p.record.interval) == IntervalKey(first, 1) && IntervalKey(first, 1) in between.merged
  {
    p := Sample(first, 1, 0.5, {}, None);
    assert KeyOf(p.record.interval) !in between.s.minutes.Keys;
    Accepted(between, p);
  }

  lemma ReturnMerges(t: Tracked, first: string, second: string) returns (o: Offer, p: Offer)
    requires Retired(t, first, second) && HexBoot(first)
    ensures MergesTwice(t, o, p)
  {
    o := ReturnFits(t, first, second);
    p := ReplayFits(t, o.record.interval, first, second, AfterCommit(t, o));
    MergesAgain(AfterCommit(t, o), p);
  }

  /**
   * From empty, a run of records in order can end so that one record out of order makes the
   * store merge an accepted record a second time.
   */
  lemma MergedTwiceFromEmpty()
    ensures exists t, o, p :: Reached(t) && MergesTwice(t, o, p)
  {
    var names := NamesExist();
    var filled := FillUpTo(names, BOOT_ROWS);
    UsedSoFar(names, BOOT_ROWS);
    var t := RetireFirst(filled, names[0], names[1], Used(names, BOOT_ROWS), names[BOOT_ROWS]);
    var o, p := ReturnMerges(t, names[0], names[1]);
    assert MergesTwice(t, o, p);
  }
}
