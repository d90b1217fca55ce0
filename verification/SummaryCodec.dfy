/**
 * The compact form of a proof summary: named metrics become pairs of an index into a fixed
 * list of names and a value. Other fields pass through.
 */
module SummaryCodec {
  import opened Common

  type Value = int

  datatype Name = Name(text: string)

  /** A summary's two special fields, and all others. */
  datatype Summary = Summary(
    others: map<Name, Value>, metrics: Option<map<Name, Value>>, packed: Option<seq<(int, Value)>>)

  /** The pairs of the names from position `i` on that occur among the metrics. */
  function PairsFrom(names: seq<Name>, metrics: map<Name, Value>, i: nat): seq<(int, Value)>
    requires i <= |names|
    decreases |names| - i
  {
    if i == |names| then []
    else if names[i] in metrics then [(i, metrics[names[i]])] + PairsFrom(names, metrics, i + 1)
    else PairsFrom(names, metrics, i + 1)
  }

  function Pack(names: seq<Name>, s: Summary): Summary {
    if s.metrics.None? then s else s.(metrics := None, packed := Some(PairsFrom(names, s.metrics.value, 0)))
  }

  /** The metrics named by a list of pairs; none for an index out of range or a repeated name. */
  function Named(names: seq<Name>, pairs: seq<(int, Value)>): Option<map<Name, Value>> {
    if pairs == [] then Some(map[])
    else
      var earlier, last := Named(names, pairs[..|pairs| - 1]), pairs[|pairs| - 1];
      if earlier.None? || !(0 <= last.0 < |names|) || names[last.0] in earlier.value then None
      else Some(earlier.value[names[last.0] := last.1])
  }

  function Unpack(names: seq<Name>, s: Summary): Option<Summary> {
    if s.packed.None? then Some(s)
    else
      var metrics := Named(names, s.packed.value);
      if metrics.None? then None else Some(s.(metrics := metrics, packed := None))
  }

  // ---------------------------------------------------------------- the loops

  method PackSummary(names: seq<Name>, s: Summary) returns (out: Summary)
    ensures out == Pack(names, s)
  {
    if s.metrics.None? {
      return s;
    }
    var pairs := [];
    for i := 0 to |names|
      invariant pairs + PairsFrom(names, s.metrics.value, i) == PairsFrom(names, s.metrics.value, 0)
    {
      if names[i] in s.metrics.value {
        pairs := pairs + [(i, s.metrics.value[names[i]])];
      }
    }
    assert pairs + [] == pairs;
    return s.(metrics := None, packed := Some(pairs));
  }

  method UnpackSummary(names: seq<Name>, s: Summary) returns (out: Option<Summary>)
    ensures out == Unpack(names, s)
  {
    if s.packed.None? {
      return Some(s);
    }
    var pairs, metrics, i, ok := s.packed.value, map[], 0, true;
    while ok && i < |pairs|
      invariant 0 <= i <= |pairs|
      invariant Named(names, pairs[..i]) == if ok then Some(metrics) else None
    {
      assert pairs[..i + 1][..i] == pairs[..i];
      var (index, item) := pairs[i];
      ok := 0 <= index < |names| && names[index] !in metrics;
      if ok {
        metrics := metrics[names[index] := item];
      }
      i := i + 1;
    }
    if ok {
      assert pairs[..i] == pairs;
      return Some(s.(metrics := Some(metrics), packed := None));
    }
    FailureStays(names, pairs, i);
    return None;
  }

  /** Once a pair is invalid the whole list is. */
  lemma {:induction false} FailureStays(names: seq<Name>, pairs: seq<(int, Value)>, i: nat)
    requires i <= |pairs| && Named(names, pairs[..i]).None?
    ensures Named(names, pairs).None?
    decreases |pairs|
  {
    if i == |pairs| {
      assert pairs[..i] == pairs;
    } else {
      assert pairs[..|pairs| - 1][..i] == pairs[..i];
      FailureStays(names, pairs[..|pairs| - 1], i);
    }
  }

  // ---------------------------------------------------------------- which lists are readable

  predicate InRange(names: seq<Name>, pairs: seq<(int, Value)>) {
    forall i :: 0 <= i < |pairs| ==> 0 <= pairs[i].0 < |names|
  }

  predicate NoRepeat(pairs: seq<(int, Value)>) {
    forall i, j :: 0 <= i < j < |pairs| ==> pairs[i].0 != pairs[j].0
  }

  ghost predicate Mentions(names: seq<Name>, pairs: seq<(int, Value)>, k: Name) {
    exists i :: 0 <= i < |pairs| && 0 <= pairs[i].0 < |names| && names[pairs[i].0] == k
  }

  /** The map holds exactly the listed names with the listed values. */
  ghost predicate Holds(metrics: map<Name, Value>, names: seq<Name>, pairs: seq<(int, Value)>) {
    && (forall k :: k in metrics <==> Mentions(names, pairs, k))
    && (forall i :: 0 <= i < |pairs| ==>
          0 <= pairs[i].0 < |names| && names[pairs[i].0] in metrics && metrics[names[pairs[i].0]] == pairs[i].1)
  }

  lemma HoldsMore(metrics: map<Name, Value>, names: seq<Name>, pairs: seq<(int, Value)>, last: (int, Value))
    requires Holds(metrics, names, pairs) && 0 <= last.0 < |names| && names[last.0] !in metrics
    ensures Holds(metrics[names[last.0] := last.1], names, pairs + [last])
  {
    var more, all := metrics[names[last.0] := last.1], pairs + [last];
    assert forall i :: 0 <= i < |pairs| ==> all[i] == pairs[i];
    assert all[|pairs|] == last;
    forall k ensures k in more <==> Mentions(names, all, k) {
      if Mentions(names, pairs, k) {
        var i :| 0 <= i < |pairs| && 0 <= pairs[i].0 < |names| && names[pairs[i].0] == k;
        assert names[all[i].0] == k;
      }
    }
  }

  predicate Readable(names: seq<Name>, pairs: seq<(int, Value)>) {
    InRange(names, pairs) && NoRepeat(pairs)
  }

  /** One more pair keeps a list readable exactly when its name is known and not mentioned yet. */
  lemma ReadableStep(names: seq<Name>, init: seq<(int, Value)>, last: (int, Value))
    requires Distinct(names)
    ensures Readable(names, init + [last]) <==>
            Readable(names, init) && 0 <= last.0 < |names| && !Mentions(names, init, names[last.0])
  {
    var pairs := init + [last];
    assert forall i :: 0 <= i < |init| ==> pairs[i] == init[i];
    assert pairs[|init|] == last;
    if Readable(names, init) && 0 <= last.0 < |names| {
      if Mentions(names, init, names[last.0]) {
        var i :| 0 <= i < |init| && 0 <= init[i].0 < |names| && names[init[i].0] == names[last.0];
        assert pairs[i].0 == pairs[|init|].0;
      }
    }
  }

  /** A list is read exactly when its indices are in range and none repeats; then it means what it lists. */
  lemma {:induction false} NamedExactly(names: seq<Name>, pairs: seq<(int, Value)>)
    requires Distinct(names)
    ensures Named(names, pairs).Some? <==> InRange(names, pairs) && NoRepeat(pairs)
    ensures Named(names, pairs).Some? ==> Holds(Named(names, pairs).value, names, pairs)
  {
    if pairs == [] {
    } else {
      var init, last := pairs[..|pairs| - 1], pairs[|pairs| - 1];
      NamedExactly(names, init);
      assert pairs == init + [last];
      ReadableStep(names, init, last);
      if Named(names, pairs).Some? {
        HoldsMore(Named(names, init).value, names, init, last);
      }
    }
  }

  // ---------------------------------------------------------------- round trips

  /** Pairs in increasing index order, as packing writes them. */
  predicate Increasing(pairs: seq<(int, Value)>) {
    forall i, j :: 0 <= i < j < |pairs| ==> pairs[i].0 < pairs[j].0
  }

  /** Each pair names a known metric from position `i` on, with its value. */
  predicate Listed(pairs: seq<(int, Value)>, names: seq<Name>, metrics: map<Name, Value>, i: nat) {
    && Increasing(pairs)
    && forall n :: 0 <= n < |pairs| ==>
         i <= pairs[n].0 < |names| && names[pairs[n].0] in metrics && pairs[n].1 == metrics[names[pairs[n].0]]
  }

  ghost predicate HasIndex(pairs: seq<(int, Value)>, j: int) {
    exists n :: 0 <= n < |pairs| && pairs[n].0 == j
  }

  lemma ListedCons(
    pairs: seq<(int, Value)>, rest: seq<(int, Value)>, names: seq<Name>, metrics: map<Name, Value>, i: nat)
    requires i < |names| && names[i] in metrics && Listed(rest, names, metrics, i + 1)
    requires pairs == [(i as int, metrics[names[i]])] + rest
    ensures Listed(pairs, names, metrics, i) && HasIndex(pairs, i)
    ensures forall j :: HasIndex(rest, j) ==> HasIndex(pairs, j)
  {
    assert pairs[0] == (i as int, metrics[names[i]]);
    assert forall n :: 0 <= n < |rest| ==> pairs[n + 1] == rest[n];
    forall n | 0 < n < |pairs| ensures pairs[n] == rest[n - 1] && pairs[n].0 > i {
    }
    forall j | HasIndex(rest, j) ensures HasIndex(pairs, j) {
      var n :| 0 <= n < |rest| && rest[n].0 == j;
      assert pairs[n + 1].0 == j;
    }
  }

  /** Packing lists exactly the known metrics, once each and in order. */
  lemma {:induction false} PairsAre(names: seq<Name>, metrics: map<Name, Value>, i: nat)
    requires i <= |names|
    ensures Listed(PairsFrom(names, metrics, i), names, metrics, i)
    ensures forall j :: i <= j < |names| && names[j] in metrics ==> HasIndex(PairsFrom(names, metrics, i), j)
    decreases |names| - i
  {
    if i < |names| {
      var rest, pairs := PairsFrom(names, metrics, i + 1), PairsFrom(names, metrics, i);
      PairsAre(names, metrics, i + 1);
      if names[i] in metrics {
        ListedCons(pairs, rest, names, metrics, i);
      }
      forall j | i <= j < |names| && names[j] in metrics ensures HasIndex(pairs, j) {
        assert j == i || HasIndex(rest, j);
      }
    }
  }

  function Known(names: seq<Name>, metrics: map<Name, Value>): map<Name, Value> {
    map k | k in metrics && k in names :: metrics[k]
  }

  lemma PairsMention(names: seq<Name>, metrics: map<Name, Value>, k: Name)
    ensures Mentions(names, PairsFrom(names, metrics, 0), k) <==> k in Known(names, metrics)
  {
    var pairs := PairsFrom(names, metrics, 0);
    PairsAre(names, metrics, 0);
    if k in metrics && k in names {
      var j :| 0 <= j < |names| && names[j] == k;
      assert HasIndex(pairs, j);
      var n :| 0 <= n < |pairs| && pairs[n].0 == j;
      assert names[pairs[n].0] == k;
    }
  }

  lemma PairsAreReadable(names: seq<Name>, metrics: map<Name, Value>)
    ensures InRange(names, PairsFrom(names, metrics, 0)) && NoRepeat(PairsFrom(names, metrics, 0))
    ensures forall n :: 0 <= n < |PairsFrom(names, metrics, 0)| ==>
              var p := PairsFrom(names, metrics, 0)[n];
              0 <= p.0 < |names| && names[p.0] in metrics && p.1 == metrics[names[p.0]]
  {
    PairsAre(names, metrics, 0);
  }

  lemma SameMap(out: map<Name, Value>, known: map<Name, Value>, names: seq<Name>, pairs: seq<(int, Value)>)
    requires Holds(out, names, pairs) && Holds(known, names, pairs)
    ensures out == known
  {
  }

  lemma KnownHolds(names: seq<Name>, metrics: map<Name, Value>)
    ensures Holds(Known(names, metrics), names, PairsFrom(names, metrics, 0))
  {
    PairsAreReadable(names, metrics);
    forall k ensures k in Known(names, metrics) <==> Mentions(names, PairsFrom(names, metrics, 0), k) {
      PairsMention(names, metrics, k);
    }
  }

  /** Reading a packed map back gives its known part. */
  lemma UnpackedIsKnown(names: seq<Name>, metrics: map<Name, Value>)
    requires Distinct(names)
    ensures Named(names, PairsFrom(names, metrics, 0)) == Some(Known(names, metrics))
  {
    var pairs := PairsFrom(names, metrics, 0);
    PairsAreReadable(names, metrics);
    NamedExactly(names, pairs);
    KnownHolds(names, metrics);
    SameMap(Named(names, pairs).value, Known(names, metrics), names, pairs);
  }

  /** Packing then unpacking gives the summary back exactly when it only uses known metric names. */
  lemma RoundTripExactly(names: seq<Name>, s: Summary)
    requires Distinct(names)
    ensures Unpack(names, Pack(names, s)) == Some(s) <==>
            s.packed.None? && (s.metrics.Some? ==> forall k :: k in s.metrics.value ==> k in names)
  {
    if s.metrics.Some? {
      var m := s.metrics.value;
      UnpackedIsKnown(names, m);
      var known := Known(names, m);
      assert known == m <==> forall k :: k in m ==> k in names by {
        if known == m {
          assert forall k :: k in m ==> k in known;
        }
      }
    }
  }

  /** The pairs with an index below `i` are the first `n`. */
  predicate SplitAt(pairs: seq<(int, Value)>, i: nat, n: nat) {
    n <= |pairs| && forall j :: 0 <= j < |pairs| ==> (pairs[j].0 < i <==> j < n)
  }

  lemma SplitNext(pairs: seq<(int, Value)>, i: nat, n: nat)
    requires Increasing(pairs) && SplitAt(pairs, i, n)
    ensures SplitAt(pairs, i + 1, if n < |pairs| && pairs[n].0 == i then n + 1 else n)
  {
    assert n < |pairs| ==> pairs[n].0 >= i;
  }

  /** A name is listed exactly when the next pair is its own. */
  lemma NextMentioned(names: seq<Name>, pairs: seq<(int, Value)>, metrics: map<Name, Value>, i: nat, n: nat)
    requires Distinct(names) && Holds(metrics, names, pairs) && i < |names|
    requires Increasing(pairs) && SplitAt(pairs, i, n)
    ensures names[i] in metrics <==> n < |pairs| && pairs[n].0 == i
  {
    if names[i] in metrics {
      assert Mentions(names, pairs, names[i]);
      var j :| 0 <= j < |pairs| && 0 <= pairs[j].0 < |names| && names[pairs[j].0] == names[i];
      assert pairs[j].0 == i && n <= j;
    }
  }

  /** The pairs from the split on begin with the pair of the next name, if it is listed. */
  lemma NextPair(names: seq<Name>, pairs: seq<(int, Value)>, metrics: map<Name, Value>, i: nat, n: nat)
    requires Distinct(names) && Holds(metrics, names, pairs) && i < |names|
    requires Increasing(pairs) && SplitAt(pairs, i, n)
    ensures names[i] in metrics ==> n < |pairs| && SplitAt(pairs, i + 1, n + 1)
    ensures names[i] in metrics ==> pairs[n..] == [(i as int, metrics[names[i]])] + pairs[n + 1..]
    ensures names[i] !in metrics ==> SplitAt(pairs, i + 1, n)
  {
    NextMentioned(names, pairs, metrics, i, n);
    SplitNext(pairs, i, n);
  }

  lemma {:induction false} RepackedFrom(
    names: seq<Name>, pairs: seq<(int, Value)>, metrics: map<Name, Value>, i: nat, n: nat)
    requires Distinct(names) && Holds(metrics, names, pairs) && i <= |names|
    requires Increasing(pairs) && SplitAt(pairs, i, n)
    ensures PairsFrom(names, metrics, i) == pairs[n..]
    decreases |names| - i
  {
    assert n < |pairs| ==> i <= pairs[n].0 < |names|;
    if i < |names| {
      NextPair(names, pairs, metrics, i, n);
      RepackedFrom(names, pairs, metrics, i + 1, if names[i] in metrics then n + 1 else n);
    }
  }

  /** Unpacking then packing gives a readable packed summary back exactly when its indices increase. */
  lemma RepackExactly(names: seq<Name>, s: Summary)
    requires Distinct(names) && s.packed.Some? && Unpack(names, s).Some?
    ensures Pack(names, Unpack(names, s).value) == s <==> s.metrics.None? && Increasing(s.packed.value)
  {
    var pairs := s.packed.value;
    var metrics := Named(names, pairs).value;
    NamedExactly(names, pairs);
    PairsAre(names, metrics, 0);
    if Increasing(pairs) {
      RepackedFrom(names, pairs, metrics, 0, 0);
      assert pairs[0..] == pairs;
    }
  }
}
