/** The cursor object: reads one snapshot, returns the new counts, remembers the newest bucket. */
module PipelineCursor {
  import opened Common
  import opened PipelineModel

  method AddCounts(cursor: Cursor, totals: seq<nat>, item: Bucket) returns (out: seq<nat>)
    requires Shaped(cursor.last) && Shaped(item) && |totals| == WIDTH && item.serial >= cursor.serial
    ensures |out| == WIDTH
    ensures forall c :: 0 <= c < WIDTH ==> out[c] == totals[c] + Increment(cursor, item, c)
  {
    out := [];
    for c := 0 to WIDTH
      invariant |out| == c
      invariant forall k :: 0 <= k < c ==> out[k] == totals[k] + Increment(cursor, item, k)
    {
      out := out + [totals[c] + Rise(item.counts[c], Before(cursor, item, c))];
    }
  }

  method RaisePeaks(peaks: seq<real>, item: Bucket) returns (out: seq<real>)
    requires Shaped(item) && |peaks| == PEAKS
    ensures |out| == PEAKS
    ensures forall c :: 0 <= c < PEAKS ==> out[c] == MaxReal(peaks[c], item.peaks[c])
  {
    out := [];
    for c := 0 to PEAKS
      invariant |out| == c
      invariant forall k :: 0 <= k < c ==> out[k] == MaxReal(peaks[k], item.peaks[k])
    {
      out := out + [MaxReal(peaks[c], item.peaks[c])];
    }
  }

  class PipelineCursor {
    var serial: nat
    var last: Bucket

    ghost function View(): Cursor
      reads this
    {
      Cursor(serial, last)
    }

    constructor ()
      ensures View() == Start()
    {
      serial, last := 0, Empty();
    }

    method Take(buckets: seq<Bucket>) returns (totals: seq<nat>, peaks: seq<real>, gap: bool)
      requires Shaped(last) && ShapedAll(buckets)
      modifies this
      ensures View() == Advance(old(View()), buckets) && Shaped(last)
      ensures gap == Gap(old(View()), buckets)
      ensures |totals| == WIDTH && |peaks| == PEAKS
      ensures forall c :: 0 <= c < WIDTH ==> totals[c] == Consumed(old(View()), buckets, c)
      ensures forall c :: 0 <= c < PEAKS ==> peaks[c] == Peak(old(View()), buckets, c)
    {
      var cursor := Cursor(serial, last);
      totals, peaks := Repeated(0, WIDTH), Repeated(0.0, PEAKS);
      gap := buckets != [] && buckets[0].serial > serial + 1;
      for i := 0 to |buckets|
        invariant unchanged(this)
        invariant |totals| == WIDTH && |peaks| == PEAKS
        invariant forall c :: 0 <= c < WIDTH ==> totals[c] == Consumed(cursor, buckets[..i], c)
        invariant forall c :: 0 <= c < PEAKS ==> peaks[c] == Peak(cursor, buckets[..i], c)
      {
        var item := buckets[i];
        assert buckets[..i + 1][..i] == buckets[..i];
        if item.serial >= serial {
          totals := AddCounts(cursor, totals, item);
          if item.counts[PROCESSED] > Before(cursor, item, PROCESSED) {
            peaks := RaisePeaks(peaks, item);
          }
        }
      }
      assert buckets[..|buckets|] == buckets;
      if buckets != [] {
        last := buckets[|buckets| - 1];
        serial := last.serial;
      }
    }
  }
}
