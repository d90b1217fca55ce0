/**
 * Per-second pipeline buckets and the cursor that turns overlapping snapshots of them into
 * counts that are each reported once.
 */
module PipelineModel {
  import opened Common

  // Seven named counters and two nine-slot histograms, flattened; three maxima.
  const WIDTH: nat := 25
  const PEAKS: nat := 3
  const PROCESSED: nat := 1

  datatype Bucket = Bucket(serial: nat, counts: seq<nat>, peaks: seq<real>)

  predicate Shaped(b: Bucket) {
    |b.counts| == WIDTH && |b.peaks| == PEAKS && forall c :: 0 <= c < PEAKS ==> b.peaks[c] >= 0.0
  }

  function Repeated<T>(value: T, n: nat): (out: seq<T>)
    ensures |out| == n && forall i :: 0 <= i < n ==> out[i] == value
  {
    if n == 0 then [] else Repeated(value, n - 1) + [value]
  }

  /** An absent bucket counts as all zeros. */
  function Empty(): (b: Bucket)
    ensures Shaped(b) && forall c :: 0 <= c < WIDTH ==> b.counts[c] == 0
  {
    Bucket(0, Repeated(0, WIDTH), Repeated(0.0, PEAKS))
  }

  datatype Cursor = Cursor(serial: nat, last: Bucket)

  function Start(): Cursor {
    Cursor(0, Empty())
  }

  predicate ShapedAll(buckets: seq<Bucket>) {
    forall i :: 0 <= i < |buckets| ==> Shaped(buckets[i])
  }

  function Rise(now: nat, before: nat): nat {
    if now > before then now - before else 0
  }

  /** A count of this bucket as the cursor last saw it; zero for a bucket it has not seen. */
  function Before(cursor: Cursor, item: Bucket, c: nat): nat
    requires Shaped(cursor.last) && c < WIDTH
  {
    if item.serial == cursor.serial then cursor.last.counts[c] else 0
  }

  /** What one bucket contributes to component `c`. */
  function Increment(cursor: Cursor, item: Bucket, c: nat): nat
    requires Shaped(cursor.last) && Shaped(item) && c < WIDTH
  {
    if item.serial < cursor.serial then 0 else Rise(item.counts[c], Before(cursor, item, c))
  }

  function Consumed(cursor: Cursor, buckets: seq<Bucket>, c: nat): nat
    requires Shaped(cursor.last) && ShapedAll(buckets) && c < WIDTH
  {
    if buckets == [] then 0
    else Consumed(cursor, buckets[..|buckets| - 1], c) + Increment(cursor, buckets[|buckets| - 1], c)
  }

  /** A bucket's maximum is reported only when it processed something since it was last seen. */
  predicate Active(cursor: Cursor, item: Bucket)
    requires Shaped(cursor.last) && Shaped(item)
  {
    item.serial >= cursor.serial && item.counts[PROCESSED] > Before(cursor, item, PROCESSED)
  }

  function Peak(cursor: Cursor, buckets: seq<Bucket>, c: nat): real
    requires Shaped(cursor.last) && ShapedAll(buckets) && c < PEAKS
  {
    if buckets == [] then 0.0
    else
      var item := buckets[|buckets| - 1];
      var earlier := Peak(cursor, buckets[..|buckets| - 1], c);
      if Active(cursor, item) then MaxReal(earlier, item.peaks[c]) else earlier
  }

  function Advance(cursor: Cursor, buckets: seq<Bucket>): Cursor {
    if buckets == [] then cursor
    else Cursor(buckets[|buckets| - 1].serial, buckets[|buckets| - 1])
  }

  predicate Gap(cursor: Cursor, buckets: seq<Bucket>) {
    buckets != [] && buckets[0].serial > cursor.serial + 1
  }
}
