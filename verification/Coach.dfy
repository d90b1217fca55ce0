/** The Coach pass as it runs: three loops over copied enrolments and local counters. */
module Coach {
  import opened Common
  import opened CoachModel

  /** `by_id`: the last episode of the page with this identifier. */
  method FindById(es: seq<Episode>, id: int) returns (found: Option<Episode>)
    ensures found == ById(es, id)
  {
    var i := |es|;
    assert es[..i] == es;
    while i > 0
      invariant 0 <= i <= |es| && ById(es, id) == ById(es[..i], id)
    {
      if es[i - 1].meta.id == id {
        assert es[..i][..i - 1] == es[..i - 1];
        return Some(es[i - 1]);
      }
      assert es[..i][..i - 1] == es[..i - 1];
      i := i - 1;
    }
    found := None;
  }

  /** Scan the page in order, counting every row and enrolling the eligible ones. */
  method ScanPage(h: Hypothesis, es: seq<Episode>, identities: map<int, Reservation>)
    returns (enrolled: seq<Enrolment>, counts: Counts)
    ensures Scan(enrolled, counts) == Enrolled(h, es, identities)
  {
    enrolled, counts := h.enrolled, h.counts;
    var ordered := Ordered(es);
    var known := Known(enrolled);
    var i := 0;
    assert ordered[..0] == [];
    while i < |ordered|
      invariant 0 <= i <= |ordered| && known == Known(enrolled)
      invariant Scan(enrolled, counts) == EnrolAll(h, identities, Scan(h.enrolled, h.counts), ordered[..i])
    {
      var e := ordered[i];
      assert ordered[..i + 1][..i] == ordered[..i];
      i := i + 1;
      if !Beyond(PositionOf(e.meta), h) || |enrolled| >= MAXIMUM_OBSERVED {
        continue;
      }
      counts := counts.(scanned := counts.scanned + 1);
      if !Contract(h.design, e.meta) {
        counts := counts.(contextExcluded := counts.contextExcluded + 1);
        continue;
      }
      if !Matches(e.meta, Reserved(identities, e.meta.key)) || e.meta.key in known {
        counts := counts.(identityExcluded := counts.identityExcluded + 1);
        continue;
      }
      if !ObservationValue(h.design, e).relevant {
        counts := counts.(conditionExcluded := counts.conditionExcluded + 1);
        continue;
      }
      ghost var before := enrolled;
      enrolled := enrolled +
        [Enrolment(e.meta.id, e.meta.key, e.meta.entryAt, e.meta.season.value, false, None)];
      known := known + {e.meta.key};
      assert Known(enrolled) == Known(before) + {e.meta.key};
    }
    assert ordered[..i] == ordered;
  }

  /** Resolve pending enrolments in place of the copied list. */
  method ResolvePending(
    d: Design, identities: map<int, Reservation>, es: seq<Episode>, now: int, items: seq<Enrolment>)
    returns (out: seq<Enrolment>, missing: nat, changed: nat)
    ensures out == ResolveAll(d, identities, es, now, items)
    ensures missing == CountFate(d, identities, es, items, Missing)
    ensures changed == CountFate(d, identities, es, items, Changed)
  {
    out, missing, changed := items, 0, 0;
    var i := 0;
    while i < |items|
      invariant 0 <= i <= |items| == |out|
      invariant forall k :: 0 <= k < i ==> out[k] == ResolveOne(d, identities, es, now, items[k])
      invariant forall k :: i <= k < |items| ==> out[k] == items[k]
      invariant missing == CountFate(d, identities, es, items[..i], Missing)
      invariant changed == CountFate(d, identities, es, items[..i], Changed)
    {
      var item := items[i];
      assert items[..i + 1][..i] == items[..i];
      if !item.resolved {
        var found := FindById(es, item.episode);
        if found.None? {
          out := out[i := item.(resolved := true)];
          missing := missing + 1;
        } else if !Unchanged(d, identities, item, found.value.meta) {
          out := out[i := item.(resolved := true)];
          changed := changed + 1;
        } else {
          var seen := ObservationValue(d, found.value);
          var resolved, value := seen.resolved, seen.value;
          var future := Future(d, found.value.outcome, now);
          if future {
            resolved, value := false, None;
          }
          if resolved || now > item.entryAt + (HorizonSeconds(d) + CHECKPOINT_GRACE) * MICROS {
            out := out[i := item.(resolved := true,
                                  value := if resolved && seen.relevant && !future then value else None)];
          }
        }
      }
      i := i + 1;
    }
    assert items[..i] == items;
  }

  /** Collect the chronological resolved prefix. */
  method CollectPrefix(items: seq<Enrolment>)
    returns (ids: seq<int>, values: seq<real>, seasons: map<int, nat>)
    ensures var prefix := items[..PrefixLength(items)];
            ids == Ids(prefix) && values == Values(prefix) && seasons == Seasons(prefix)
  {
    ids, values, seasons := [], [], map[];
    var i := 0;
    while i < |items| && items[i].resolved
      invariant 0 <= i <= |items| && forall k :: 0 <= k < i ==> items[k].resolved
      invariant ids == Ids(items[..i]) && values == Values(items[..i]) && seasons == Seasons(items[..i])
    {
      var item := items[i];
      assert items[..i + 1][..i] == items[..i];
      ids := ids + [item.episode];
      if item.value.Some? {
        values := values + [item.value.value];
        seasons := seasons[item.season := (if item.season in seasons then seasons[item.season] else 0) + 1];
      }
      i := i + 1;
    }
    assert i == PrefixLength(items);
  }

  method PendingCount(items: seq<Enrolment>) returns (n: nat)
    ensures n == CountPending(items)
  {
    n := 0;
    var i := 0;
    while i < |items|
      invariant 0 <= i <= |items| && n == CountPending(items[..i])
    {
      assert items[..i + 1][..i] == items[..i];
      n := n + if items[i].resolved then 0 else 1;
      i := i + 1;
    }
    assert items[..i] == items;
  }

  method EvaluatePolicyHypothesis(
    margin: seq<real> -> real,
    h: Hypothesis,
    es: seq<Episode>,
    identities: map<int, Reservation>,
    cursor: Cursor,
    gap: bool,
    now: int
  ) returns (updated: Hypothesis)
    ensures updated == Evaluate(margin, h, es, identities, cursor, gap, now)
  {
    if !h.state.Testing? {
      return h;
    }
    if gap && |h.enrolled| < MAXIMUM_OBSERVED {
      return h.(state := Inconclusive, resolvedAt := Some(now), updatedAt := now, reason := "policy_history_gap");
    }
    var items, counts := CollectPass(h, es, identities, now);
    var ids, values, seasons := CollectPrefix(items);
    updated := Finish(margin, h, ids, values, seasons, now);
    updated := Collected(updated, items, cursor, counts, now);
  }

  /** The enrolments and counters of a pass that does not stop at a retention gap. */
  method CollectPass(h: Hypothesis, es: seq<Episode>, identities: map<int, Reservation>, now: int)
    returns (items: seq<Enrolment>, counts: Counts)
    ensures items == Resolved(h, es, identities, now)
    ensures counts == PassCounts(h, es, identities, now)
  {
    var enrolled, scanned := ScanPage(h, es, identities);
    var missing, changed;
    items, missing, changed := ResolvePending(h.design, identities, es, now, enrolled);
    var pending := PendingCount(items);
    counts := scanned.(missing := scanned.missing + missing, changed := scanned.changed + changed,
                       enrolled := |items|, pending := pending);
  }

  /** The retention watermark after deleting `rows` (a nonempty list) on top of an older one. */
  method PrunedThrough(rows: seq<Position>, previous: Option<Position>) returns (through: Position)
    requires rows != []
    ensures through in rows || Some(through) == previous
    ensures forall p :: p in rows || Some(p) == previous ==> !Below(through, p)
  {
    through := rows[0];
    var i := 1;
    while i < |rows|
      invariant 1 <= i <= |rows| && through in rows
      invariant forall k :: 0 <= k < i ==> !Below(through, rows[k])
    {
      if Below(through, rows[i]) {
        through := rows[i];
      }
      i := i + 1;
    }
    if previous.Some? && Below(through, previous.value) {
      through := previous.value;
    }
  }
}
