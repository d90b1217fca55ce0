/**
 * Whole runs of a bucket log and its cursor. Only the newest bucket grows; a snapshot is any
 * suffix of the log (older buckets may have been evicted). Every count is reported once or
 * missed, never both and never twice.
 */
module PipelineRuns {
  import opened Common
  import opened PipelineModel

  datatype World = World(log: seq<Bucket>, cursor: Cursor)

  datatype Step =
    | Add(bucket: Bucket)
    | Grow(bucket: Bucket)
    | Take(first: nat)

  /** Later counts of one bucket; a maximum moves only together with its processed count. */
  predicate Extends(next: Bucket, before: Bucket)
    requires Shaped(next) && Shaped(before)
  {
    && next.serial == before.serial
    && (forall c :: 0 <= c < WIDTH ==> next.counts[c] >= before.counts[c])
    && (forall c :: 0 <= c < PEAKS ==> next.peaks[c] >= before.peaks[c])
    && (next.counts[PROCESSED] == before.counts[PROCESSED] ==> next.peaks == before.peaks)
  }

  /** A new bucket has the next serial; before it processes anything its maxima are zero. */
  predicate Opens(b: Bucket, serial: nat)
    requires Shaped(b)
  {
    b.serial == serial && (b.counts[PROCESSED] == 0 ==> Flat(b))
  }

  predicate Flat(b: Bucket)
    requires Shaped(b)
  {
    forall c :: 0 <= c < PEAKS ==> b.peaks[c] == 0.0
  }

  predicate Ok(w: World, step: Step) {
    match step
    case Add(b) => Shaped(b) && Opens(b, |w.log| + 1)
    case Grow(b) =>
      w.log != [] && Shaped(b) && Shaped(w.log[|w.log| - 1]) && Extends(b, w.log[|w.log| - 1])
    case Take(first) => first <= |w.log|
  }

  function Next(w: World, step: Step): World
    requires Ok(w, step)
  {
    match step
    case Add(b) => w.(log := w.log + [b])
    case Grow(b) => w.(log := w.log[|w.log| - 1 := b])
    case Take(first) => w.(cursor := Advance(w.cursor, w.log[first..]))
  }

  predicate Valid(w: World) {
    && ShapedAll(w.log) && Shaped(w.cursor.last) && w.cursor.serial <= |w.log|
    && (forall i :: 0 <= i < |w.log| ==> w.log[i].serial == i + 1)
    && (w.cursor.serial > 0 ==> Extends(w.log[w.cursor.serial - 1], w.cursor.last))
  }

  lemma NextKeeps(w: World, step: Step)
    requires Valid(w) && Ok(w, step)
    ensures Valid(Next(w, step))
  {
  }

  // ---------------------------------------------------------------- totals

  /** Component `c` summed over the first `n` buckets. */
  function Sum(log: seq<Bucket>, n: nat, c: nat): nat
    requires ShapedAll(log) && n <= |log| && c < WIDTH
  {
    if n == 0 then 0 else Sum(log, n - 1, c) + log[n - 1].counts[c]
  }

  /** The counts in every bucket up to the cursor, the last one as it was when last seen. */
  function Seen(w: World, c: nat): nat
    requires Valid(w) && c < WIDTH
  {
    if w.cursor.serial == 0 then 0
    else Sum(w.log, w.cursor.serial - 1, c) + w.cursor.last.counts[c]
  }

  lemma {:induction false} SumFrame(a: seq<Bucket>, b: seq<Bucket>, n: nat, c: nat)
    requires ShapedAll(a) && ShapedAll(b) && n <= |a| && n <= |b| && c < WIDTH && a[..n] == b[..n]
    ensures Sum(a, n, c) == Sum(b, n, c)
  {
    if n > 0 {
      assert a[..n - 1] == a[..n][..n - 1] == b[..n][..n - 1] == b[..n - 1];
      SumFrame(a, b, n - 1, c);
      assert a[n - 1] == a[..n][n - 1] == b[..n][n - 1] == b[n - 1];
    }
  }

  lemma {:induction false} SumGrows(log: seq<Bucket>, m: nat, n: nat, c: nat)
    requires ShapedAll(log) && m <= n <= |log| && c < WIDTH
    ensures Sum(log, m, c) <= Sum(log, n, c)
  {
    if m < n {
      SumGrows(log, m, n - 1, c);
    }
  }

  /** A slice of the log that is one bucket longer. */
  lemma SlicePush(log: seq<Bucket>, first: nat, end: nat)
    requires first <= end < |log|
    ensures log[first..end + 1] == log[first..end] + [log[end]]
  {
  }

  lemma ConsumedPush(cursor: Cursor, xs: seq<Bucket>, x: Bucket, c: nat)
    requires Shaped(cursor.last) && ShapedAll(xs) && Shaped(x) && c < WIDTH
    ensures ShapedAll(xs + [x])
    ensures Consumed(cursor, xs + [x], c) == Consumed(cursor, xs, c) + Increment(cursor, x, c)
  {
    assert (xs + [x])[..|xs|] == xs;
  }

  lemma PeakPush(cursor: Cursor, xs: seq<Bucket>, x: Bucket, c: nat)
    requires Shaped(cursor.last) && ShapedAll(xs) && Shaped(x) && c < PEAKS
    ensures ShapedAll(xs + [x])
    ensures Peak(cursor, xs + [x], c)
            == if Active(cursor, x) then MaxReal(Peak(cursor, xs, c), x.peaks[c]) else Peak(cursor, xs, c)
  {
    assert (xs + [x])[..|xs|] == xs;
  }

  /** What one bucket adds: nothing before the cursor, its growth at the cursor, all of it beyond. */
  lemma IncrementIs(w: World, i: nat, c: nat)
    requires Valid(w) && i < |w.log| && c < WIDTH
    ensures i + 1 < w.cursor.serial ==> Increment(w.cursor, w.log[i], c) == 0
    ensures i + 1 == w.cursor.serial ==>
              Increment(w.cursor, w.log[i], c) == w.log[i].counts[c] - w.cursor.last.counts[c]
    ensures i + 1 > w.cursor.serial ==> Increment(w.cursor, w.log[i], c) == w.log[i].counts[c]
  {
  }

  /** A snapshot that still holds the last consumed bucket reports exactly what is new. */
  lemma {:induction false} ConsumedFromSeen(w: World, first: nat, end: nat, c: nat)
    requires Valid(w) && first < w.cursor.serial && first <= end <= |w.log| && c < WIDTH
    ensures Consumed(w.cursor, w.log[first..end], c)
            == if end < w.cursor.serial then 0 else Sum(w.log, end, c) - Seen(w, c)
  {
    if first < end {
      var k := end - 1;
      ConsumedFromSeen(w, first, k, c);
      IncrementIs(w, k, c);
      SliceConsumed(w.cursor, w.log, first, k, end, c);
    } else {
      assert w.log[first..end] == [];
    }
  }

  /** One that starts later reports every bucket it holds in full. */
  lemma {:induction false} ConsumedBeyond(w: World, first: nat, end: nat, c: nat)
    requires Valid(w) && w.cursor.serial <= first <= end <= |w.log| && c < WIDTH
    ensures Consumed(w.cursor, w.log[first..end], c) == Sum(w.log, end, c) - Sum(w.log, first, c)
    ensures Sum(w.log, end, c) >= Sum(w.log, first, c)
  {
    if first < end {
      var k := end - 1;
      ConsumedBeyond(w, first, k, c);
      IncrementIs(w, k, c);
      SliceConsumed(w.cursor, w.log, first, k, end, c);
    } else {
      assert w.log[first..end] == [];
    }
  }

  lemma SliceConsumed(cursor: Cursor, log: seq<Bucket>, first: nat, k: nat, end: nat, c: nat)
    requires Shaped(cursor.last) && ShapedAll(log) && first <= k < |log| && end == k + 1 && c < WIDTH
    ensures Consumed(cursor, log[first..end], c) == Consumed(cursor, log[first..k], c) + Increment(cursor, log[k], c)
  {
    SlicePush(log, first, k);
    ConsumedPush(cursor, log[first..k], log[k], c);
  }

  lemma SlicePeak(cursor: Cursor, log: seq<Bucket>, first: nat, k: nat, end: nat, c: nat)
    requires Shaped(cursor.last) && ShapedAll(log) && first <= k < |log| && end == k + 1 && c < PEAKS
    ensures Peak(cursor, log[first..end], c)
            == if Active(cursor, log[k]) then MaxReal(Peak(cursor, log[first..k], c), log[k].peaks[c])
               else Peak(cursor, log[first..k], c)
  {
    SlicePush(log, first, k);
    PeakPush(cursor, log[first..k], log[k], c);
  }

  /** The snapshot still holds the last consumed bucket, or nothing was consumed and it is whole. */
  predicate Holds(w: World, first: nat) {
    first < w.cursor.serial || first == 0
  }

  /** Counts a snapshot can no longer report: late growth of the last bucket, and skipped ones. */
  function Skipped(w: World, first: nat, c: nat): nat
    requires Valid(w) && first <= |w.log| && c < WIDTH
  {
    if first == |w.log| || Holds(w, first) then 0
    else
      SeenAtMost(w, c);
      SumGrows(w.log, w.cursor.serial, first, c);
      Sum(w.log, first, c) - Seen(w, c)
  }

  lemma SeenAtMost(w: World, c: nat)
    requires Valid(w) && c < WIDTH
    ensures Seen(w, c) <= Sum(w.log, w.cursor.serial, c)
  {
  }

  // ---------------------------------------------------------------- runs

  ghost predicate Legal(trace: seq<Step>)
    decreases |trace|, 0
  {
    trace == [] || (Legal(trace[..|trace| - 1]) && Ok(Run(trace[..|trace| - 1]), trace[|trace| - 1]))
  }

  ghost function Run(trace: seq<Step>): World
    requires Legal(trace)
    decreases |trace|, 1
  {
    if trace == [] then World([], Start()) else Next(Run(trace[..|trace| - 1]), trace[|trace| - 1])
  }

  lemma {:induction false} RunKeeps(trace: seq<Step>)
    requires Legal(trace)
    ensures Valid(Run(trace))
  {
    if trace == [] {
    } else {
      RunKeeps(trace[..|trace| - 1]);
      NextKeeps(Run(trace[..|trace| - 1]), trace[|trace| - 1]);
    }
  }

  function Reported(w: World, step: Step, c: nat): nat
    requires Valid(w) && Ok(w, step) && c < WIDTH
  {
    if step.Take? then Consumed(w.cursor, w.log[step.first..], c) else 0
  }

  function Missing(w: World, step: Step, c: nat): nat
    requires Valid(w) && Ok(w, step) && c < WIDTH
  {
    if step.Take? then Skipped(w, step.first, c) else 0
  }

  /** Everything the cursor returned for component `c` over a run. */
  ghost function Taken(trace: seq<Step>, c: nat): nat
    requires Legal(trace) && c < WIDTH
  {
    if trace == [] then 0
    else
      RunKeeps(trace[..|trace| - 1]);
      Taken(trace[..|trace| - 1], c) + Reported(Run(trace[..|trace| - 1]), trace[|trace| - 1], c)
  }

  ghost function Missed(trace: seq<Step>, c: nat): nat
    requires Legal(trace) && c < WIDTH
  {
    if trace == [] then 0
    else
      RunKeeps(trace[..|trace| - 1]);
      Missed(trace[..|trace| - 1], c) + Missing(Run(trace[..|trace| - 1]), trace[|trace| - 1], c)
  }

  lemma TakeCounts(w: World, first: nat, c: nat)
    requires Valid(w) && first < |w.log| && c < WIDTH
    ensures Seen(w, c) + Consumed(w.cursor, w.log[first..], c) + Skipped(w, first, c) == Sum(w.log, |w.log|, c)
  {
    assert w.log[first..|w.log|] == w.log[first..];
    if first < w.cursor.serial {
      ConsumedFromSeen(w, first, |w.log|, c);
    } else {
      ConsumedBeyond(w, first, |w.log|, c);
    }
  }

  lemma SeenAfterTake(w: World, first: nat, c: nat)
    requires Valid(w) && first < |w.log| && c < WIDTH
    ensures Valid(Next(w, Take(first))) && Seen(Next(w, Take(first)), c) == Sum(w.log, |w.log|, c)
  {
    NextKeeps(w, Take(first));
    var kept := w.log[first..];
    assert kept[|kept| - 1] == w.log[|w.log| - 1];
  }

  lemma SeenAfterGrowth(w: World, step: Step, c: nat)
    requires Valid(w) && Ok(w, step) && !step.Take? && c < WIDTH
    ensures Valid(Next(w, step)) && Seen(Next(w, step), c) == Seen(w, c)
  {
    NextKeeps(w, step);
    if w.cursor.serial > 0 {
      SumFrame(w.log, Next(w, step).log, w.cursor.serial - 1, c);
    }
  }

  lemma StepCounts(w: World, step: Step, c: nat)
    requires Valid(w) && Ok(w, step) && c < WIDTH
    ensures Valid(Next(w, step))
    ensures Seen(w, c) + Reported(w, step, c) + Missing(w, step, c) == Seen(Next(w, step), c)
  {
    if !step.Take? {
      SeenAfterGrowth(w, step, c);
    } else if step.first < |w.log| {
      TakeCounts(w, step.first, c);
      SeenAfterTake(w, step.first, c);
    }
  }

  /** Reported plus missed is exactly what the log held up to the cursor. */
  lemma {:induction false} CountsAreConserved(trace: seq<Step>, c: nat)
    requires Legal(trace) && c < WIDTH
    ensures Valid(Run(trace)) && Taken(trace, c) + Missed(trace, c) == Seen(Run(trace), c)
  {
    RunKeeps(trace);
    if trace == [] {
    } else {
      var before, step := trace[..|trace| - 1], trace[|trace| - 1];
      CountsAreConserved(before, c);
      StepCounts(Run(before), step, c);
    }
  }

  lemma NeverExceeds(trace: seq<Step>, c: nat)
    requires Legal(trace) && c < WIDTH
    ensures Valid(Run(trace)) && Taken(trace, c) <= Sum(Run(trace).log, |Run(trace).log|, c)
  {
    CountsAreConserved(trace, c);
    var w := Run(trace);
    SeenAtMost(w, c);
    SumGrows(w.log, w.cursor.serial, |w.log|, c);
  }

  /** Every nonempty snapshot still held the last consumed bucket. */
  ghost predicate Retained(trace: seq<Step>)
    requires Legal(trace)
  {
    trace == [] ||
    var before, step := trace[..|trace| - 1], trace[|trace| - 1];
    Retained(before) && (step.Take? && step.first < |Run(before).log| ==> Holds(Run(before), step.first))
  }

  lemma {:induction false} NothingMissed(trace: seq<Step>, c: nat)
    requires Legal(trace) && Retained(trace) && c < WIDTH
    ensures Missed(trace, c) == 0
  {
    if trace == [] {
    } else {
      NothingMissed(trace[..|trace| - 1], c);
    }
  }

  /** Right after a nonempty snapshot of a retained run, the totals are the log's own. */
  lemma ExactWhenRetained(trace: seq<Step>, c: nat)
    requires Legal(trace) && Retained(trace) && c < WIDTH
    ensures Valid(Run(trace)) && Taken(trace, c) == Seen(Run(trace), c)
    ensures trace != [] && trace[|trace| - 1].Take? && trace[|trace| - 1].first < |Run(trace).log| ==>
              Taken(trace, c) == Sum(Run(trace).log, |Run(trace).log|, c)
  {
    CountsAreConserved(trace, c);
    NothingMissed(trace, c);
    if trace != [] && trace[|trace| - 1].Take? {
      var before, first := trace[..|trace| - 1], trace[|trace| - 1].first;
      RunKeeps(before);
      if first < |Run(before).log| {
        SeenAfterTake(Run(before), first, c);
      }
    }
  }

  // ---------------------------------------------------------------- the gap flag

  /** The flag is raised exactly when a whole bucket was never shown to the cursor. */
  lemma GapExactly(w: World, first: nat)
    requires Valid(w) && first <= |w.log|
    ensures Gap(w.cursor, w.log[first..]) <==> (w.cursor.serial < first < |w.log|)
  {
  }

  /** The recording side opens a new bucket after each snapshot, and no gap was ever flagged. */
  ghost predicate SealedWithoutGap(trace: seq<Step>)
    requires Legal(trace)
  {
    trace == [] ||
    var before, step := trace[..|trace| - 1], trace[|trace| - 1];
    && SealedWithoutGap(before)
    && (step.Grow? ==> Run(before).cursor.serial < |Run(before).log|)
    && (step.Take? ==> !Gap(Run(before).cursor, Run(before).log[step.first..]))
  }

  /** The cursor's memory of its last bucket is current. */
  predicate Settled(w: World)
    requires Valid(w)
  {
    w.cursor.serial > 0 ==> w.cursor.last == w.log[w.cursor.serial - 1]
  }

  lemma SettledStep(w: World, step: Step)
    requires Valid(w) && Settled(w) && Ok(w, step)
    requires step.Grow? ==> w.cursor.serial < |w.log|
    ensures Valid(Next(w, step)) && Settled(Next(w, step))
  {
    NextKeeps(w, step);
  }

  lemma SettledMissesNothing(w: World, first: nat, c: nat)
    requires Valid(w) && Settled(w) && first <= |w.log| && c < WIDTH && !Gap(w.cursor, w.log[first..])
    ensures Skipped(w, first, c) == 0
  {
    GapExactly(w, first);
  }

  /** Then even a snapshot that lost the last bucket misses nothing. */
  lemma {:induction false} SealedIsExact(trace: seq<Step>, c: nat)
    requires Legal(trace) && SealedWithoutGap(trace) && c < WIDTH
    ensures Valid(Run(trace)) && Settled(Run(trace))
    ensures Missed(trace, c) == 0 && Taken(trace, c) == Seen(Run(trace), c)
  {
    CountsAreConserved(trace, c);
    if trace == [] {
    } else {
      var before, step := trace[..|trace| - 1], trace[|trace| - 1];
      SealedIsExact(before, c);
      SettledStep(Run(before), step);
      if step.Take? {
        SettledMissesNothing(Run(before), step.first, c);
      }
    }
  }

  // ---------------------------------------------------------------- maxima

  /** The largest maximum over the first `n` buckets. */
  function Highest(log: seq<Bucket>, n: nat, c: nat): real
    requires ShapedAll(log) && n <= |log| && c < PEAKS
  {
    if n == 0 then 0.0 else MaxReal(Highest(log, n - 1, c), log[n - 1].peaks[c])
  }

  function SeenPeak(w: World, c: nat): real
    requires Valid(w) && c < PEAKS
  {
    if w.cursor.serial == 0 then 0.0
    else MaxReal(Highest(w.log, w.cursor.serial - 1, c), w.cursor.last.peaks[c])
  }

  lemma {:induction false} HighestFrame(a: seq<Bucket>, b: seq<Bucket>, n: nat, c: nat)
    requires ShapedAll(a) && ShapedAll(b) && n <= |a| && n <= |b| && c < PEAKS && a[..n] == b[..n]
    ensures Highest(a, n, c) == Highest(b, n, c)
  {
    if n > 0 {
      assert a[..n - 1] == a[..n][..n - 1] == b[..n][..n - 1] == b[..n - 1];
      HighestFrame(a, b, n - 1, c);
      assert a[n - 1] == a[..n][n - 1] == b[..n][n - 1] == b[n - 1];
    }
  }

  /** A bucket that processed nothing has no maximum; every bucket started empty. */
  predicate QuietAreFlat(w: World)
    requires Valid(w)
  {
    forall i :: 0 <= i < |w.log| && w.log[i].counts[PROCESSED] == 0 ==> Flat(w.log[i])
  }

  /** When a bucket of the log still has a maximum to report. */
  lemma ActiveIs(w: World, i: nat)
    requires Valid(w) && QuietAreFlat(w) && i < |w.log|
    ensures i + 1 < w.cursor.serial ==> !Active(w.cursor, w.log[i])
    ensures i + 1 == w.cursor.serial && !Active(w.cursor, w.log[i]) ==> w.log[i].peaks == w.cursor.last.peaks
    ensures i + 1 > w.cursor.serial && !Active(w.cursor, w.log[i]) ==> Flat(w.log[i])
  {
  }

  lemma {:induction false} NoPeakBefore(w: World, first: nat, end: nat, c: nat)
    requires Valid(w) && QuietAreFlat(w) && first <= end < w.cursor.serial && c < PEAKS
    ensures Peak(w.cursor, w.log[first..end], c) == 0.0
  {
    if first < end {
      var k := end - 1;
      NoPeakBefore(w, first, k, c);
      ActiveIs(w, k);
      SlicePeak(w.cursor, w.log, first, k, end, c);
    } else {
      assert w.log[first..end] == [];
    }
  }

  /** Up to the cursor only late growth of the last bucket is left to report. */
  lemma PeakAtStart(w: World, first: nat, c: nat)
    requires Valid(w) && QuietAreFlat(w) && Holds(w, first) && first <= w.cursor.serial && c < PEAKS
    ensures MaxReal(SeenPeak(w, c), Peak(w.cursor, w.log[first..w.cursor.serial], c))
            == Highest(w.log, w.cursor.serial, c)
  {
    if first < w.cursor.serial {
      var k := w.cursor.serial - 1;
      NoPeakBefore(w, first, k, c);
      ActiveIs(w, k);
      SlicePeak(w.cursor, w.log, first, k, w.cursor.serial, c);
      HighestAtLeastZero(w.log, k, c);
    } else {
      assert w.log[0..0] == [];
    }
  }

  lemma {:induction false} PeakFromSeen(w: World, first: nat, end: nat, c: nat)
    requires Valid(w) && QuietAreFlat(w) && Holds(w, first) && c < PEAKS
    requires first <= w.cursor.serial <= end <= |w.log|
    ensures MaxReal(SeenPeak(w, c), Peak(w.cursor, w.log[first..end], c)) == Highest(w.log, end, c)
  {
    if end == w.cursor.serial {
      PeakAtStart(w, first, c);
    } else {
      var k := end - 1;
      PeakFromSeen(w, first, k, c);
      ActiveIs(w, k);
      SlicePeak(w.cursor, w.log, first, k, end, c);
      HighestAtLeastZero(w.log, k, c);
    }
  }

  lemma {:induction false} HighestAtLeastZero(log: seq<Bucket>, n: nat, c: nat)
    requires ShapedAll(log) && n <= |log| && c < PEAKS
    ensures Highest(log, n, c) >= 0.0
  {
    if n > 0 {
      HighestAtLeastZero(log, n - 1, c);
    }
  }

  ghost function TakenPeak(trace: seq<Step>, c: nat): real
    requires Legal(trace) && c < PEAKS
  {
    if trace == [] then 0.0
    else
      var before, step := trace[..|trace| - 1], trace[|trace| - 1];
      RunKeeps(before);
      if step.Take? then MaxReal(TakenPeak(before, c), Peak(Run(before).cursor, Run(before).log[step.first..], c))
      else TakenPeak(before, c)
  }

  /** Over a retained run the reported maxima are those of everything seen. */
  lemma {:induction false} PeaksAreExact(trace: seq<Step>, c: nat)
    requires Legal(trace) && Retained(trace) && c < PEAKS
    ensures Valid(Run(trace)) && QuietAreFlat(Run(trace)) && TakenPeak(trace, c) == SeenPeak(Run(trace), c)
  {
    RunKeeps(trace);
    if trace == [] {
    } else {
      var before, step := trace[..|trace| - 1], trace[|trace| - 1];
      PeaksAreExact(before, c);
      FlatStep(Run(before), step);
      PeakStep(Run(before), step, c);
    }
  }

  lemma FlatStep(w: World, step: Step)
    requires Valid(w) && QuietAreFlat(w) && Ok(w, step)
    ensures Valid(Next(w, step)) && QuietAreFlat(Next(w, step))
  {
    NextKeeps(w, step);
  }

  lemma PeakAfterTake(w: World, first: nat, c: nat)
    requires Valid(w) && QuietAreFlat(w) && first < |w.log| && Holds(w, first) && c < PEAKS
    ensures Valid(Next(w, Take(first)))
    ensures SeenPeak(Next(w, Take(first)), c) == MaxReal(SeenPeak(w, c), Peak(w.cursor, w.log[first..], c))
  {
    NextKeeps(w, Take(first));
    var kept := w.log[first..];
    assert w.log[first..|w.log|] == kept;
    assert kept[|kept| - 1] == w.log[|w.log| - 1];
    PeakFromSeen(w, first, |w.log|, c);
  }

  lemma PeakAfterGrowth(w: World, step: Step, c: nat)
    requires Valid(w) && Ok(w, step) && !step.Take? && c < PEAKS
    ensures Valid(Next(w, step)) && SeenPeak(Next(w, step), c) == SeenPeak(w, c)
  {
    NextKeeps(w, step);
    if w.cursor.serial > 0 {
      HighestFrame(w.log, Next(w, step).log, w.cursor.serial - 1, c);
    }
  }

  lemma PeakStep(w: World, step: Step, c: nat)
    requires Valid(w) && QuietAreFlat(w) && Ok(w, step) && c < PEAKS
    requires step.Take? && step.first < |w.log| ==> Holds(w, step.first)
    ensures Valid(Next(w, step))
    ensures SeenPeak(Next(w, step), c)
            == if step.Take? then MaxReal(SeenPeak(w, c), Peak(w.cursor, w.log[step.first..], c)) else SeenPeak(w, c)
  {
    if !step.Take? {
      PeakAfterGrowth(w, step, c);
    } else if step.first < |w.log| {
      PeakAfterTake(w, step.first, c);
    } else {
      SeenPeakAtLeastZero(w, c);
    }
  }

  lemma SeenPeakAtLeastZero(w: World, c: nat)
    requires Valid(w) && c < PEAKS
    ensures SeenPeak(w, c) >= 0.0
  {
  }

  /** The bucket processed something since the cursor last saw it. */
  predicate Worked(cursor: Cursor, item: Bucket)
    requires Shaped(cursor.last) && Shaped(item)
  {
    || (item.serial > cursor.serial && item.counts[PROCESSED] > 0)
    || (item.serial == cursor.serial && item.counts[PROCESSED] > cursor.last.counts[PROCESSED])
  }

  /** The value is the largest maximum among the buckets that worked, and zero if none of them has a positive one. */
  ghost predicate IsPeak(cursor: Cursor, buckets: seq<Bucket>, c: nat, peak: real)
    requires Shaped(cursor.last) && ShapedAll(buckets) && c < PEAKS
  {
    && peak >= 0.0
    && (forall i :: 0 <= i < |buckets| && Worked(cursor, buckets[i]) ==> buckets[i].peaks[c] <= peak)
    && (peak > 0.0 ==> exists i :: 0 <= i < |buckets| && Worked(cursor, buckets[i]) && buckets[i].peaks[c] == peak)
  }

  /** A snapshot reports the largest maximum of the buckets that worked since, not one it has reported before. */
  lemma {:induction false} SnapshotPeakExactly(cursor: Cursor, buckets: seq<Bucket>, c: nat)
    requires Shaped(cursor.last) && ShapedAll(buckets) && c < PEAKS
    ensures IsPeak(cursor, buckets, c, Peak(cursor, buckets, c))
  {
    if buckets != [] {
      var n := |buckets| - 1;
      SnapshotPeakExactly(cursor, buckets[..n], c);
      var earlier, peak := Peak(cursor, buckets[..n], c), Peak(cursor, buckets, c);
      assert Active(cursor, buckets[n]) == Worked(cursor, buckets[n]);
      forall i | 0 <= i < |buckets| && Worked(cursor, buckets[i]) ensures buckets[i].peaks[c] <= peak {
        assert i < n ==> buckets[..n][i] == buckets[i];
      }
      if earlier > 0.0 {
        var i :| 0 <= i < n && Worked(cursor, buckets[..n][i]) && buckets[..n][i].peaks[c] == earlier;
        assert buckets[i] == buckets[..n][i];
      }
    }
  }
}
