/** What one Coach pass may do to a study: only add enrolments and resolve pending ones. */
module CoachEvidence {
  import opened Common
  import opened CoachModel

  // ---------------------------------------------------------------- outcome blindness

  /** The same episodes, possibly with different checkpoints and size trials. */
  predicate SameEntries(a: seq<Episode>, b: seq<Episode>) {
    |a| == |b| && forall i :: 0 <= i < |a| ==> a[i].meta == b[i].meta
  }

  lemma {:induction false} InsertBlind(a: seq<Episode>, b: seq<Episode>, x: Episode, y: Episode)
    requires SameEntries(a, b) && x.meta == y.meta
    ensures SameEntries(InsertByTime(a, x), InsertByTime(b, y))
  {
    if a != [] && !Below(PositionOf(x.meta), PositionOf(a[0].meta)) {
      InsertBlind(a[1..], b[1..], x, y);
    }
  }

  lemma {:induction false} OrderedBlind(a: seq<Episode>, b: seq<Episode>)
    requires SameEntries(a, b)
    ensures SameEntries(Ordered(a), Ordered(b))
  {
    if a == [] {
    } else {
      OrderedBlind(a[1..], b[1..]);
      InsertBlind(Ordered(a[1..]), Ordered(b[1..]), a[0], b[0]);
    }
  }

  lemma {:induction false} EnrolBlind(
    h: Hypothesis, identities: map<int, Reservation>, acc: Scan, a: seq<Episode>, b: seq<Episode>)
    requires SameEntries(a, b)
    ensures EnrolAll(h, identities, acc, a) == EnrolAll(h, identities, acc, b)
  {
    if a == [] {
    } else {
      EnrolBlind(h, identities, acc, a[..|a| - 1], b[..|b| - 1]);
    }
  }

  /**
   * Enrolment never looks at outcomes: two runs of a pass over episodes that differ only in
   * checkpoints and size trials enrol the same episodes, in the same order, with the same
   * scan counters, for every kind of experiment.
   */
  lemma EnrolmentIsOutcomeBlind(
    h: Hypothesis, a: seq<Episode>, b: seq<Episode>, identities: map<int, Reservation>)
    requires SameEntries(a, b)
    ensures Enrolled(h, a, identities) == Enrolled(h, b, identities)
  {
    OrderedBlind(a, b);
    EnrolBlind(h, identities, Scan(h.enrolled, h.counts), Ordered(a), Ordered(b));
  }

  // ---------------------------------------------------------------- growth

  predicate SameEnrolment(a: Enrolment, b: Enrolment) {
    a.episode == b.episode && a.identity == b.identity && a.entryAt == b.entryAt && a.season == b.season
  }

  /** `b` extends `a`: nothing is dropped or reordered and no resolved item changes. */
  ghost predicate Grows(a: seq<Enrolment>, b: seq<Enrolment>) {
    && |a| <= |b|
    && forall i :: 0 <= i < |a| ==> SameEnrolment(a[i], b[i]) && (a[i].resolved ==> b[i] == a[i])
  }

  lemma GrowsTransitive(a: seq<Enrolment>, b: seq<Enrolment>, c: seq<Enrolment>)
    requires Grows(a, b) && Grows(b, c)
    ensures Grows(a, c)
  {
  }

  lemma {:induction false} ValuesPrefix(items: seq<Enrolment>, n: nat)
    requires n <= |items|
    ensures Values(items[..n]) <= Values(items)
    decreases |items| - n
  {
    if n < |items| {
      ValuesPrefix(items, n + 1);
      assert items[..n + 1][..n] == items[..n];
    } else {
      assert items[..n] == items;
    }
  }

  /** Only the resolved prefix counts, so growth can only extend what has been counted. */
  lemma PrefixGrows(a: seq<Enrolment>, b: seq<Enrolment>)
    requires Grows(a, b)
    ensures PrefixLength(a) <= PrefixLength(b)
    ensures a[..PrefixLength(a)] == b[..PrefixLength(a)]
    ensures Ids(a[..PrefixLength(a)]) <= Ids(b[..PrefixLength(b)])
    ensures Values(a[..PrefixLength(a)]) <= Values(b[..PrefixLength(b)])
  {
    var n, m := PrefixLength(a), PrefixLength(b);
    assert forall i :: 0 <= i < n ==> b[i].resolved && b[i] == a[i];
    assert a[..n] == b[..n];
    var p := b[..m];
    assert p[..n] == b[..n];
    ValuesPrefix(p, n);
    assert Ids(p)[..n] == Ids(a[..n]);
  }

  // ---------------------------------------------------------------- enrolment order

  function EnrolledAt(item: Enrolment): Position {
    Position(item.entryAt, item.episode)
  }

  predicate DistinctIdentities(items: seq<Enrolment>) {
    forall i, j :: 0 <= i < j < |items| ==> items[i].identity != items[j].identity
  }

  predicate InOrder(items: seq<Enrolment>) {
    forall i, j :: 0 <= i < j < |items| ==> Below(EnrolledAt(items[i]), EnrolledAt(items[j]))
  }

  /** At most 180 distinct entries in strictly increasing order, all after the cutoff. */
  predicate WellEnrolled(d: Design, items: seq<Enrolment>) {
    && |items| <= MAXIMUM_OBSERVED
    && DistinctIdentities(items)
    && InOrder(items)
    && forall i :: 0 <= i < |items| ==> items[i].entryAt > d.cutoffAt
  }

  /** Every enrolment has already been scanned. */
  predicate Scanned(h: Hypothesis) {
    forall i :: 0 <= i < |h.enrolled| ==> !Beyond(EnrolledAt(h.enrolled[i]), h)
  }

  lemma NotPastIsBelow(p: Position, q: Position, cutoff: int, cursor: Cursor)
    requires p.at > cutoff && !Past(p, cutoff, cursor) && Past(q, cutoff, cursor)
    ensures Below(p, q)
  {
  }

  /** Some episode of the list sits at this position, beyond the study's cursor. */
  ghost predicate TakenFrom(h: Hypothesis, es: seq<Episode>, p: Position) {
    Beyond(p, h) && exists e :: e in es && PositionOf(e.meta) == p
  }

  /** State of the scan after a chronological run of episodes. */
  ghost predicate ScanInv(h: Hypothesis, acc: Scan, es: seq<Episode>) {
    && Grows(h.enrolled, acc.enrolled)
    && acc.enrolled[..|h.enrolled|] == h.enrolled
    && WellEnrolled(h.design, acc.enrolled)
    && forall i :: |h.enrolled| <= i < |acc.enrolled| ==> TakenFrom(h, es, EnrolledAt(acc.enrolled[i]))
  }

  /** A scan step either leaves the enrolments alone or appends the episode it looked at. */
  lemma EnrolOneCases(h: Hypothesis, identities: map<int, Reservation>, acc: Scan, e: Episode)
    ensures var next := EnrolOne(h, identities, acc, e).enrolled;
            next == acc.enrolled ||
            exists item: Enrolment ::
              && next == acc.enrolled + [item] && |acc.enrolled| < MAXIMUM_OBSERVED
              && EnrolledAt(item) == PositionOf(e.meta) && Beyond(PositionOf(e.meta), h)
              && item.identity !in Known(acc.enrolled) && item.entryAt > h.design.cutoffAt
  {
  }

  lemma LaterThanAll(h: Hypothesis, items: seq<Enrolment>, es: seq<Episode>, e: Episode)
    requires WellEnrolled(h.design, h.enrolled) && Scanned(h) && Chronological(es + [e])
    requires |h.enrolled| <= |items| && items[..|h.enrolled|] == h.enrolled
    requires forall i :: |h.enrolled| <= i < |items| ==> TakenFrom(h, es, EnrolledAt(items[i]))
    requires Beyond(PositionOf(e.meta), h)
    ensures forall i :: 0 <= i < |items| ==> Below(EnrolledAt(items[i]), PositionOf(e.meta))
  {
    forall i | 0 <= i < |items| ensures Below(EnrolledAt(items[i]), PositionOf(e.meta)) {
      if i < |h.enrolled| {
        assert items[..|h.enrolled|][i] == h.enrolled[i];
        NotPastIsBelow(EnrolledAt(h.enrolled[i]), PositionOf(e.meta), h.design.cutoffAt, h.cursor);
      } else {
        assert TakenFrom(h, es, EnrolledAt(items[i]));
        var x :| x in es && PositionOf(x.meta) == EnrolledAt(items[i]);
        var j :| 0 <= j < |es| && es[j] == x;
        assert Below(PositionOf((es + [e])[j].meta), PositionOf((es + [e])[|es|].meta));
      }
    }
  }

  lemma AppendKeepsOrder(d: Design, items: seq<Enrolment>, item: Enrolment)
    requires WellEnrolled(d, items) && |items| < MAXIMUM_OBSERVED && item.entryAt > d.cutoffAt
    requires item.identity !in Known(items)
    requires forall i :: 0 <= i < |items| ==> Below(EnrolledAt(items[i]), EnrolledAt(item))
    ensures WellEnrolled(d, items + [item])
  {
    assert forall i :: 0 <= i < |items| ==> items[i].identity in Known(items);
  }

  lemma EnrolOneKeeps(
    h: Hypothesis, identities: map<int, Reservation>, acc: Scan, es: seq<Episode>, e: Episode)
    requires WellEnrolled(h.design, h.enrolled) && Scanned(h)
    requires ScanInv(h, acc, es) && Chronological(es + [e])
    ensures ScanInv(h, EnrolOne(h, identities, acc, e), es + [e])
  {
    var next := EnrolOne(h, identities, acc, e).enrolled;
    EnrolOneCases(h, identities, acc, e);
    if next != acc.enrolled {
      var item :| next == acc.enrolled + [item] && EnrolledAt(item) == PositionOf(e.meta)
                  && item.identity !in Known(acc.enrolled) && item.entryAt > h.design.cutoffAt;
      LaterThanAll(h, acc.enrolled, es, e);
      AppendKeepsOrder(h.design, acc.enrolled, item);
      assert next[..|h.enrolled|] == acc.enrolled[..|h.enrolled|];
    }
    forall i | |h.enrolled| <= i < |next| ensures TakenFrom(h, es + [e], EnrolledAt(next[i])) {
    }
  }

  lemma {:induction false} EnrolAllKeeps(
    h: Hypothesis, identities: map<int, Reservation>, es: seq<Episode>)
    requires WellEnrolled(h.design, h.enrolled) && Scanned(h) && Chronological(es)
    ensures ScanInv(h, EnrolAll(h, identities, Scan(h.enrolled, h.counts), es), es)
  {
    if es == [] {
    } else {
      var init, last := es[..|es| - 1], es[|es| - 1];
      assert es == init + [last];
      EnrolAllKeeps(h, identities, init);
      EnrolOneKeeps(h, identities, EnrolAll(h, identities, Scan(h.enrolled, h.counts), init), init, last);
    }
  }

  // ---------------------------------------------------------------- scan accounting

  /** The rows a scan counts, in order. */
  function ScannedRows(
    h: Hypothesis, identities: map<int, Reservation>, acc: Scan, es: seq<Episode>): seq<Position>
  {
    if es == [] then []
    else
      var init, last := es[..|es| - 1], es[|es| - 1];
      ScannedRows(h, identities, acc, init) +
      (if Scans(h, EnrolAll(h, identities, acc, init), last) then [PositionOf(last.meta)] else [])
  }

  predicate CountsAddUp(counts: Counts, enrolled: nat) {
    counts.scanned ==
    counts.contextExcluded + counts.identityExcluded + counts.conditionExcluded + enrolled
  }

  /** Every scanned row is either enrolled or excluded for exactly one counted reason. */
  lemma {:induction false} ScanAddsUp(
    h: Hypothesis, identities: map<int, Reservation>, acc: Scan, es: seq<Episode>)
    requires CountsAddUp(acc.counts, |acc.enrolled|)
    ensures var out := EnrolAll(h, identities, acc, es);
            && CountsAddUp(out.counts, |out.enrolled|)
            && |out.enrolled| >= |acc.enrolled|
            && out.counts.scanned == acc.counts.scanned + |ScannedRows(h, identities, acc, es)|
  {
    if es == [] {
    } else {
      ScanAddsUp(h, identities, acc, es[..|es| - 1]);
    }
  }

  /** Unless the study fills up, a scan counts every row of the page beyond the cursor, once. */
  lemma {:induction false} ScanCovers(
    h: Hypothesis, identities: map<int, Reservation>, acc: Scan, es: seq<Episode>)
    requires Chronological(es)
    requires |EnrolAll(h, identities, acc, es).enrolled| < MAXIMUM_OBSERVED
    ensures forall p :: p in ScannedRows(h, identities, acc, es) <==>
                        exists e :: e in es && PositionOf(e.meta) == p && Beyond(p, h)
    ensures Distinct(ScannedRows(h, identities, acc, es))
  {
    if es == [] {
    } else {
      var init, last := es[..|es| - 1], es[|es| - 1];
      assert es == init + [last];
      ScanCovers(h, identities, acc, init);
      var rows := ScannedRows(h, identities, acc, init);
      forall p | p in rows ensures p != PositionOf(last.meta) {
        var e :| e in init && PositionOf(e.meta) == p;
        var j :| 0 <= j < |init| && es[j] == e;
      }
      forall p | Beyond(p, h) && exists e :: e in es && PositionOf(e.meta) == p
        ensures p in ScannedRows(h, identities, acc, es)
      {
        var e :| e in es && PositionOf(e.meta) == p;
        if e in init {
          assert p in rows;
        }
      }
    }
  }

  // ---------------------------------------------------------------- one pass

  /** The measured lists are those of the resolved prefix. */
  predicate EvidenceCurrent(h: Hypothesis) {
    var prefix := h.enrolled[..PrefixLength(h.enrolled)];
    && h.evidence.ids == Ids(prefix)
    && h.evidence.values == Values(prefix)
    && h.evidence.seasons == Seasons(prefix)
    && h.evidence.observed == |h.evidence.ids|
    && h.evidence.usable == |h.evidence.values|
  }

  predicate CursorAfter(cutoff: int, cursor: Cursor) {
    cursor.AtRow? ==> cursor.row.at > cutoff
  }

  /** The derived counters are current, and an open study carries no verdict fields. */
  predicate Tidy(h: Hypothesis) {
    && h.counts.enrolled == |h.enrolled| && h.counts.pending == CountPending(h.enrolled)
    && (h.state.Testing? ==> h.resolvedAt.None? && h.reason == "")
  }

  predicate StudyInv(h: Hypothesis) {
    WellEnrolled(h.design, h.enrolled) && Scanned(h) && EvidenceCurrent(h) && Tidy(h)
    && CursorAfter(h.design.cutoffAt, h.cursor) && CountsAddUp(h.counts, |h.enrolled|)
  }

  /** A page as the database hands it out: unique rows, none past the returned cursor. */
  ghost predicate PageFits(h: Hypothesis, es: seq<Episode>, cursor: Cursor) {
    && OneRowPerId(es) && CursorAfter(h.design.cutoffAt, cursor)
    && (forall e :: e in es ==> !Past(PositionOf(e.meta), h.design.cutoffAt, cursor)
                                || e.meta.createdAt <= h.design.cutoffAt)
    && (forall p: Position :: Past(p, h.design.cutoffAt, cursor) ==> Beyond(p, h))
  }

  /** Evidence only accumulates from `a` to `b`, and a verdict is final. */
  ghost predicate Accumulates(a: Hypothesis, b: Hypothesis) {
    && a.design == b.design
    && Grows(a.enrolled, b.enrolled)
    && a.evidence.ids <= b.evidence.ids
    && a.evidence.values <= b.evidence.values
    && (!a.state.Testing? ==> b.state == a.state && b.enrolled == a.enrolled && b.evidence == a.evidence
                              && b.cursor == a.cursor && b.counts == a.counts)
  }

  lemma ResolvingGrows(
    d: Design, identities: map<int, Reservation>, es: seq<Episode>, now: int, items: seq<Enrolment>)
    ensures Grows(items, ResolveAll(d, identities, es, now, items))
  {
  }

  lemma ResolvedGrows(h: Hypothesis, es: seq<Episode>, identities: map<int, Reservation>, now: int)
    requires StudyInv(h) && OneRowPerId(es)
    ensures var items := Resolved(h, es, identities, now);
            && Grows(h.enrolled, items) && WellEnrolled(h.design, items)
            && |items| == |Enrolled(h, es, identities).enrolled|
            && ScanInv(h, Enrolled(h, es, identities), Ordered(es))
            && forall i :: 0 <= i < |items| ==> SameEnrolment(Enrolled(h, es, identities).enrolled[i], items[i])
  {
    OrderedKeeps(es);
    EnrolAllKeeps(h, identities, Ordered(es));
    var scan, items := Enrolled(h, es, identities).enrolled, Resolved(h, es, identities, now);
    ResolvingGrows(h.design, identities, es, now, scan);
    GrowsTransitive(h.enrolled, scan, items);
  }

  lemma PassScanned(h: Hypothesis, es: seq<Episode>, identities: map<int, Reservation>, cursor: Cursor, now: int)
    requires StudyInv(h) && PageFits(h, es, cursor)
    ensures var items := Resolved(h, es, identities, now);
            forall i :: 0 <= i < |items| ==> !Past(EnrolledAt(items[i]), h.design.cutoffAt, cursor)
  {
    ResolvedGrows(h, es, identities, now);
    OrderedKeeps(es);
    var scan, items := Enrolled(h, es, identities).enrolled, Resolved(h, es, identities, now);
    forall i | 0 <= i < |items| ensures !Past(EnrolledAt(items[i]), h.design.cutoffAt, cursor) {
      assert SameEnrolment(scan[i], items[i]);
      if i < |h.enrolled| {
        assert SameEnrolment(h.enrolled[i], items[i]);
      } else {
        assert TakenFrom(h, Ordered(es), EnrolledAt(scan[i]));
        var e :| e in Ordered(es) && PositionOf(e.meta) == EnrolledAt(scan[i]);
        assert e in es;
      }
    }
  }

  /** The fields a pass leaves behind when it does not stop at a retention gap. */
  lemma PassFields(
    margin: seq<real> -> real, h: Hypothesis, es: seq<Episode>, identities: map<int, Reservation>,
    cursor: Cursor, gap: bool, now: int)
    requires h.state.Testing? && !(gap && |h.enrolled| < MAXIMUM_OBSERVED)
    ensures var out := Evaluate(margin, h, es, identities, cursor, gap, now);
            var items := Resolved(h, es, identities, now);
            var prefix := items[..PrefixLength(items)];
            && out.design == h.design && out.enrolled == items && out.cursor == cursor
            && out.counts == PassCounts(h, es, identities, now)
            && out.evidence == Measure(margin, Ids(prefix), Values(prefix), Seasons(prefix))
            && out.state == Judge(h.design, out.evidence, now).0
  {
  }

  lemma FinishIsClean(
    margin: seq<real> -> real, h: Hypothesis, ids: seq<int>, values: seq<real>, seasons: map<int, nat>, now: int)
    ensures var out := Finish(margin, h, ids, values, seasons, now);
            out.state.Testing? ==> out.resolvedAt.None? && out.reason == ""
  {
  }

  /** A pass that leaves the study open leaves no verdict fields. */
  lemma PassIsClean(
    margin: seq<real> -> real, h: Hypothesis, es: seq<Episode>, identities: map<int, Reservation>,
    cursor: Cursor, gap: bool, now: int)
    ensures var out := Evaluate(margin, h, es, identities, cursor, gap, now);
            h.state.Testing? && out.state.Testing? ==> out.resolvedAt.None? && out.reason == ""
  {
    var items := Resolved(h, es, identities, now);
    var prefix := items[..PrefixLength(items)];
    FinishIsClean(margin, h, Ids(prefix), Values(prefix), Seasons(prefix), now);
  }

  /**
   * One pass keeps the study well formed and only adds evidence: enrolments are appended,
   * resolved values stay, the counted lists are extended, and a verdict is never revisited.
   */
  lemma PassAccumulates(
    margin: seq<real> -> real, h: Hypothesis, es: seq<Episode>, identities: map<int, Reservation>,
    cursor: Cursor, gap: bool, now: int)
    requires StudyInv(h) && PageFits(h, es, cursor)
    ensures StudyInv(Evaluate(margin, h, es, identities, cursor, gap, now))
    ensures Accumulates(h, Evaluate(margin, h, es, identities, cursor, gap, now))
  {
    PassIsClean(margin, h, es, identities, cursor, gap, now);
    if h.state.Testing? && !(gap && |h.enrolled| < MAXIMUM_OBSERVED) {
      PassFields(margin, h, es, identities, cursor, gap, now);
      ResolvedGrows(h, es, identities, now);
      PassScanned(h, es, identities, cursor, now);
      PrefixGrows(h.enrolled, Resolved(h, es, identities, now));
      ScanAddsUp(h, identities, Scan(h.enrolled, h.counts), Ordered(es));
    }
  }

  // ---------------------------------------------------------------- blindness over whole runs

  /** The rows of a page that a scan can look at. */
  function Ahead(h: Hypothesis, es: seq<Episode>): seq<Episode> {
    if es == [] then []
    else
      var last, init := es[|es| - 1], Ahead(h, es[..|es| - 1]);
      if Beyond(PositionOf(last.meta), h) then init + [last] else init
  }

  /** Only the rows ahead of the cursor matter to a scan. */
  lemma {:induction false} ScanAhead(h: Hypothesis, identities: map<int, Reservation>, acc: Scan, es: seq<Episode>)
    ensures EnrolAll(h, identities, acc, es) == EnrolAll(h, identities, acc, Ahead(h, es))
  {
    if es == [] {
    } else {
      var last, init := es[|es| - 1], Ahead(h, es[..|es| - 1]);
      ScanAhead(h, identities, acc, es[..|es| - 1]);
      assert (init + [last])[..|init|] == init;
    }
  }

  predicate SameCounts(a: Counts, b: Counts) {
    && a.scanned == b.scanned && a.contextExcluded == b.contextExcluded
    && a.identityExcluded == b.identityExcluded && a.conditionExcluded == b.conditionExcluded
  }

  predicate SameEnrolments(a: seq<Enrolment>, b: seq<Enrolment>) {
    |a| == |b| && forall i :: 0 <= i < |a| ==> SameEnrolment(a[i], b[i])
  }

  /** Two open studies that may differ in outcomes, verdict measures and clocks only. */
  predicate Twins(a: Hypothesis, b: Hypothesis) {
    && a.design == b.design && a.cursor == b.cursor && a.state.Testing? && b.state.Testing?
    && SameEnrolments(a.enrolled, b.enrolled) && SameCounts(a.counts, b.counts)
  }

  lemma SameKnown(a: seq<Enrolment>, b: seq<Enrolment>)
    requires SameEnrolments(a, b)
    ensures Known(a) == Known(b)
  {
    forall id ensures id in Known(a) <==> id in Known(b) {
      if id in Known(a) {
        var i :| 0 <= i < |a| && a[i].identity == id;
        assert b[i] in b;
      }
      if id in Known(b) {
        var i :| 0 <= i < |b| && b[i].identity == id;
        assert a[i] in a;
      }
    }
  }

  lemma TwinStep(
    h: Hypothesis, g: Hypothesis, identities: map<int, Reservation>, x: Scan, y: Scan, e: Episode, f: Episode)
    requires h.design == g.design && h.cursor == g.cursor && e.meta == f.meta
    requires SameEnrolments(x.enrolled, y.enrolled) && SameCounts(x.counts, y.counts)
    ensures var x', y' := EnrolOne(h, identities, x, e), EnrolOne(g, identities, y, f);
            SameEnrolments(x'.enrolled, y'.enrolled) && SameCounts(x'.counts, y'.counts)
  {
    SameKnown(x.enrolled, y.enrolled);
  }

  lemma {:induction false} TwinScans(
    h: Hypothesis, g: Hypothesis, identities: map<int, Reservation>, x: Scan, y: Scan, a: seq<Episode>, b: seq<Episode>)
    requires h.design == g.design && h.cursor == g.cursor && SameEntries(a, b)
    requires SameEnrolments(x.enrolled, y.enrolled) && SameCounts(x.counts, y.counts)
    ensures var x', y' := EnrolAll(h, identities, x, a), EnrolAll(g, identities, y, b);
            SameEnrolments(x'.enrolled, y'.enrolled) && SameCounts(x'.counts, y'.counts)
  {
    if a == [] {
    } else {
      var n := |a| - 1;
      TwinScans(h, g, identities, x, y, a[..n], b[..n]);
      TwinStep(h, g, identities, EnrolAll(h, identities, x, a[..n]), EnrolAll(g, identities, y, b[..n]), a[n], b[n]);
    }
  }

  /** One pass as two studies see it: the same rows ahead, with outcomes of their own. */
  datatype TwinPass = TwinPass(
    a: seq<Episode>, b: seq<Episode>, identities: map<int, Reservation>, cursor: Cursor, gap: bool,
    nowA: int, nowB: int)

  /** After a pass the enrolments and scan counters are those of its scan. */
  lemma PassIsScan(
    margin: seq<real> -> real, h: Hypothesis, es: seq<Episode>, identities: map<int, Reservation>,
    cursor: Cursor, gap: bool, now: int)
    requires h.state.Testing? && !(gap && |h.enrolled| < MAXIMUM_OBSERVED)
    ensures var out, scan := Evaluate(margin, h, es, identities, cursor, gap, now), Enrolled(h, es, identities);
            && out.design == h.design && out.cursor == cursor
            && SameEnrolments(out.enrolled, scan.enrolled) && SameCounts(out.counts, scan.counts)
  {
    PassFields(margin, h, es, identities, cursor, gap, now);
    ResolvedIsSame(h.design, identities, es, now, Enrolled(h, es, identities).enrolled);
  }

  lemma ResolvedIsSame(
    d: Design, identities: map<int, Reservation>, es: seq<Episode>, now: int, items: seq<Enrolment>)
    ensures SameEnrolments(ResolveAll(d, identities, es, now, items), items)
  {
  }

  lemma TwinEnrolments(g: Hypothesis, h: Hypothesis, pass: TwinPass)
    requires Twins(g, h) && SameEntries(Ahead(g, Ordered(pass.a)), Ahead(h, Ordered(pass.b)))
    ensures var x, y := Enrolled(g, pass.a, pass.identities), Enrolled(h, pass.b, pass.identities);
            SameEnrolments(x.enrolled, y.enrolled) && SameCounts(x.counts, y.counts)
  {
    var x, y := Scan(g.enrolled, g.counts), Scan(h.enrolled, h.counts);
    ScanAhead(g, pass.identities, x, Ordered(pass.a));
    ScanAhead(h, pass.identities, y, Ordered(pass.b));
    TwinScans(g, h, pass.identities, x, y, Ahead(g, Ordered(pass.a)), Ahead(h, Ordered(pass.b)));
  }

  lemma SameEnrolmentsChain(a: seq<Enrolment>, x: seq<Enrolment>, y: seq<Enrolment>, b: seq<Enrolment>)
    requires SameEnrolments(a, x) && SameEnrolments(x, y) && SameEnrolments(b, y)
    ensures SameEnrolments(a, b)
  {
  }

  lemma TwinsStay(margin: seq<real> -> real, g: Hypothesis, h: Hypothesis, pass: TwinPass)
    requires Twins(g, h) && SameEntries(Ahead(g, Ordered(pass.a)), Ahead(h, Ordered(pass.b)))
    ensures var g', h' := Evaluate(margin, g, pass.a, pass.identities, pass.cursor, pass.gap, pass.nowA),
                          Evaluate(margin, h, pass.b, pass.identities, pass.cursor, pass.gap, pass.nowB);
            g'.state.Testing? && h'.state.Testing? ==> Twins(g', h')
  {
    if !(pass.gap && |g.enrolled| < MAXIMUM_OBSERVED) {
      var g' := Evaluate(margin, g, pass.a, pass.identities, pass.cursor, pass.gap, pass.nowA);
      var h' := Evaluate(margin, h, pass.b, pass.identities, pass.cursor, pass.gap, pass.nowB);
      PassIsScan(margin, g, pass.a, pass.identities, pass.cursor, pass.gap, pass.nowA);
      PassIsScan(margin, h, pass.b, pass.identities, pass.cursor, pass.gap, pass.nowB);
      TwinEnrolments(g, h, pass);
      SameEnrolmentsChain(g'.enrolled, Enrolled(g, pass.a, pass.identities).enrolled,
                          Enrolled(h, pass.b, pass.identities).enrolled, h'.enrolled);
    }
  }

  /** A study after a run of passes, as the first or as the second of the twins. */
  function AfterPasses(margin: seq<real> -> real, h: Hypothesis, passes: seq<TwinPass>, first: bool): Hypothesis {
    if passes == [] then h
    else
      var last, before := passes[|passes| - 1], AfterPasses(margin, h, passes[..|passes| - 1], first);
      if first then Evaluate(margin, before, last.a, last.identities, last.cursor, last.gap, last.nowA)
      else Evaluate(margin, before, last.b, last.identities, last.cursor, last.gap, last.nowB)
  }

  /** In every pass the rows ahead of the two cursors differ in outcomes only. */
  predicate SameRowsAhead(margin: seq<real> -> real, g: Hypothesis, h: Hypothesis, passes: seq<TwinPass>) {
    passes == [] ||
    var last, init := passes[|passes| - 1], passes[..|passes| - 1];
    && SameRowsAhead(margin, g, h, init)
    && SameEntries(Ahead(AfterPasses(margin, g, init, true), Ordered(last.a)),
                   Ahead(AfterPasses(margin, h, init, false), Ordered(last.b)))
  }

  /**
   * Enrolment is blind to outcomes over whole runs: however differently the enrolled episodes
   * of two studies turn out, while both are open they enrol the same episodes in the same order.
   */
  lemma {:induction false} RunsAreOutcomeBlind(
    margin: seq<real> -> real, g: Hypothesis, h: Hypothesis, passes: seq<TwinPass>)
    requires Twins(g, h) && SameRowsAhead(margin, g, h, passes)
    requires AfterPasses(margin, g, passes, true).state.Testing?
    requires AfterPasses(margin, h, passes, false).state.Testing?
    ensures Twins(AfterPasses(margin, g, passes, true), AfterPasses(margin, h, passes, false))
  {
    if passes == [] {
    } else {
      var init := passes[..|passes| - 1];
      RunsAreOutcomeBlind(margin, g, h, init);
      TwinsStay(margin, AfterPasses(margin, g, init, true), AfterPasses(margin, h, init, false), passes[|passes| - 1]);
    }
  }

  // ---------------------------------------------------------------- progress

  function SettledCount(items: seq<Enrolment>): int {
    |items| - CountPending(items)
  }

  predicate Measured(margin: seq<real> -> real, h: Hypothesis) {
    var prefix := h.enrolled[..PrefixLength(h.enrolled)];
    h.evidence == Measure(margin, Ids(prefix), Values(prefix), Seasons(prefix))
  }

  /** Grows with every pass that changes an open study, so no earlier record ever comes back. */
  function Progress(margin: seq<real> -> real, h: Hypothesis): int {
    h.counts.scanned + SettledCount(h.enrolled)
    + (if h.cursor.Unscanned? then 0 else 1) + (if Measured(margin, h) then 1 else 0)
  }

  lemma OneSettles(h: Hypothesis, identities: map<int, Reservation>, acc: Scan, e: Episode)
    ensures var out := EnrolOne(h, identities, acc, e);
            && SettledCount(out.enrolled) == SettledCount(acc.enrolled)
            && out.counts.scanned >= acc.counts.scanned
            && (out.counts.scanned == acc.counts.scanned ==> out == acc)
  {
    var out := EnrolOne(h, identities, acc, e);
    assert |out.enrolled| > |acc.enrolled| ==> out.enrolled[..|acc.enrolled|] == acc.enrolled;
  }

  lemma {:induction false} ScanSettles(h: Hypothesis, identities: map<int, Reservation>, acc: Scan, es: seq<Episode>)
    ensures var out := EnrolAll(h, identities, acc, es);
            && SettledCount(out.enrolled) == SettledCount(acc.enrolled)
            && out.counts.scanned >= acc.counts.scanned
            && (out.counts.scanned == acc.counts.scanned ==> out == acc)
  {
    if es == [] {
    } else {
      ScanSettles(h, identities, acc, es[..|es| - 1]);
      OneSettles(h, identities, EnrolAll(h, identities, acc, es[..|es| - 1]), es[|es| - 1]);
    }
  }

  lemma {:induction false} ResolvingSettles(
    d: Design, identities: map<int, Reservation>, es: seq<Episode>, now: int, items: seq<Enrolment>)
    ensures var out := ResolveAll(d, identities, es, now, items);
            && SettledCount(out) >= SettledCount(items)
            && (SettledCount(out) == SettledCount(items) ==>
                  && out == items
                  && CountFate(d, identities, es, items, Missing) == 0
                  && CountFate(d, identities, es, items, Changed) == 0)
  {
    if items == [] {
    } else {
      var init := items[..|items| - 1];
      var out := ResolveAll(d, identities, es, now, items);
      ResolvingSettles(d, identities, es, now, init);
      assert out[..|items| - 1] == ResolveAll(d, identities, es, now, init);
      assert items == init + [items[|items| - 1]] && out == out[..|items| - 1] + [out[|items| - 1]];
    }
  }

  /** Where a page's cursor comes from: the study's own, its first sentinel, or a row beyond it. */
  ghost predicate CursorFrom(h: Hypothesis, es: seq<Episode>, cursor: Cursor) {
    && !cursor.Unscanned?
    && (|| cursor == h.cursor
        || (h.cursor.Unscanned? && cursor.AtCutoff?)
        || (cursor.AtRow? && Beyond(cursor.row, h) && exists e :: e in es && PositionOf(e.meta) == cursor.row))
  }

  /** A pass without progress has looked at nothing, settled nothing and measured nothing new. */
  lemma StillPass(
    margin: seq<real> -> real, h: Hypothesis, es: seq<Episode>, identities: map<int, Reservation>,
    cursor: Cursor, now: int)
    requires StudyInv(h) && h.state.Testing? && Measured(margin, h) && cursor == h.cursor
    requires Enrolled(h, es, identities) == Scan(h.enrolled, h.counts)
    requires Resolved(h, es, identities, now) == h.enrolled && PassCounts(h, es, identities, now) == h.counts
    requires Evaluate(margin, h, es, identities, cursor, false, now).state.Testing?
    ensures Evaluate(margin, h, es, identities, cursor, false, now) == h
  {
  }

  /** Progress of the parts: rows scanned and enrolments settled. */
  lemma PartsAdvance(h: Hypothesis, es: seq<Episode>, identities: map<int, Reservation>, now: int)
    requires StudyInv(h)
    ensures var scan, items := Enrolled(h, es, identities), Resolved(h, es, identities, now);
            && scan.counts.scanned >= h.counts.scanned && SettledCount(items) >= SettledCount(h.enrolled)
            && (scan.counts.scanned == h.counts.scanned && SettledCount(items) == SettledCount(h.enrolled) ==>
                  && scan == Scan(h.enrolled, h.counts) && items == h.enrolled
                  && PassCounts(h, es, identities, now) == h.counts)
  {
    ScanSettles(h, identities, Scan(h.enrolled, h.counts), Ordered(es));
    ResolvingSettles(h.design, identities, es, now, Enrolled(h, es, identities).enrolled);
  }

  /** A new cursor row has been scanned, unless the study filled up. */
  lemma CursorScans(h: Hypothesis, es: seq<Episode>, identities: map<int, Reservation>, p: Position)
    requires StudyInv(h) && OneRowPerId(es) && |Enrolled(h, es, identities).enrolled| < MAXIMUM_OBSERVED
    requires Beyond(p, h) && exists e :: e in es && PositionOf(e.meta) == p
    ensures Enrolled(h, es, identities).counts.scanned > h.counts.scanned
  {
    var acc := Scan(h.enrolled, h.counts);
    OrderedKeeps(es);
    ScanAddsUp(h, identities, acc, Ordered(es));
    ScanCovers(h, identities, acc, Ordered(es));
    var e :| e in es && PositionOf(e.meta) == p;
    assert e in Ordered(es);
    assert p in ScannedRows(h, identities, acc, Ordered(es));
  }

  /** An open study that a pass changes and leaves open has made progress. */
  lemma PassAdvances(
    margin: seq<real> -> real, h: Hypothesis, es: seq<Episode>, identities: map<int, Reservation>,
    cursor: Cursor, now: int)
    requires StudyInv(h) && OneRowPerId(es) && h.state.Testing? && CursorFrom(h, es, cursor)
    ensures var out := Evaluate(margin, h, es, identities, cursor, false, now);
            out != h && out.state.Testing? && |out.enrolled| < MAXIMUM_OBSERVED ==>
              Progress(margin, out) > Progress(margin, h)
  {
    var out := Evaluate(margin, h, es, identities, cursor, false, now);
    PassFields(margin, h, es, identities, cursor, false, now);
    PartsAdvance(h, es, identities, now);
    if out.state.Testing? && |out.enrolled| < MAXIMUM_OBSERVED && Progress(margin, out) <= Progress(margin, h) {
      assert Measured(margin, out);
      if cursor.AtRow? && cursor != h.cursor {
        CursorScans(h, es, identities, cursor.row);
      }
      StillPass(margin, h, es, identities, cursor, now);
    }
  }

  /**
   * A lost or altered enrolment is resolved without a value: it stays in the observed
   * denominator and adds nothing to the usable numerator.
   */
  lemma LostStaysObserved(
    h: Hypothesis, es: seq<Episode>, identities: map<int, Reservation>, now: int, i: nat)
    requires StudyInv(h) && OneRowPerId(es)
    requires i < |h.enrolled| && !h.enrolled[i].resolved && h.enrolled[i].value.None?
    requires FateOf(h.design, identities, es, h.enrolled[i]) != Kept
    ensures var items := Resolved(h, es, identities, now);
            i < |items| && items[i].resolved && items[i].value.None?
            && (PrefixLength(items) > i ==> Ids(items[..PrefixLength(items)])[i] == h.enrolled[i].episode)
  {
    ResolvedGrows(h, es, identities, now);
    assert Enrolled(h, es, identities).enrolled[..|h.enrolled|][i] == h.enrolled[i];
  }

  lemma {:induction false} ValuesSize(items: seq<Enrolment>)
    ensures |Values(items)| <= |items|
  {
    if items == [] {
    } else {
      ValuesSize(items[..|items| - 1]);
    }
  }

  /** The resolved prefix of a study meets every threshold of a promising verdict. */
  predicate Proved(margin: seq<real> -> real, h: Hypothesis, n: nat) {
    && n <= |h.enrolled|
    && h.evidence.bounds == Bounds(margin, Values(h.enrolled[..n]))
    && h.evidence.bounds.Some? && h.evidence.bounds.value.1 > MINIMUM_UPLIFT
    && (forall i :: 0 <= i < n ==> h.enrolled[i].resolved)
    && h.design.minimumSamples <= |Values(h.enrolled[..n])| <= n
    && Availability(|Values(h.enrolled[..n])|, n) >= h.design.minimumAvailability
    && MeaningfulSeasons(Seasons(h.enrolled[..n])) >= MINIMUM_SEASONS
  }

  /**
   * A promising verdict rests on the required number of usable outcomes among the earliest
   * enrolments, none of which is still pending, and on a lower bound above the least uplift.
   */
  lemma PromisingIsProved(
    margin: seq<real> -> real, h: Hypothesis, es: seq<Episode>, identities: map<int, Reservation>,
    cursor: Cursor, gap: bool, now: int)
    requires h.state.Testing?
    ensures var out := Evaluate(margin, h, es, identities, cursor, gap, now);
            out.state.Promising? ==> Proved(margin, out, PrefixLength(out.enrolled))
  {
    var out := Evaluate(margin, h, es, identities, cursor, gap, now);
    if out.state.Promising? {
      PassFields(margin, h, es, identities, cursor, gap, now);
      ThresholdsMet(margin, out, now);
    }
  }

  lemma ThresholdsMet(margin: seq<real> -> real, out: Hypothesis, now: int)
    requires var prefix := out.enrolled[..PrefixLength(out.enrolled)];
             out.evidence == Measure(margin, Ids(prefix), Values(prefix), Seasons(prefix))
    requires Judge(out.design, out.evidence, now).0.Promising?
    ensures Proved(margin, out, PrefixLength(out.enrolled))
  {
    var n := PrefixLength(out.enrolled);
    ValuesSize(out.enrolled[..n]);
  }
}
