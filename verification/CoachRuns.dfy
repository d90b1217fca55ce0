/**
 * Coach scanning against a live journal: inserts, retention, page reads and
 * compare-and-swap saves in any order.
 */
module CoachRuns {
  import opened Common
  import opened CoachModel
  import opened CoachEvidence

  datatype Row = Row(terminal: bool, episode: Episode)

  /** A page read in one snapshot, waiting to be evaluated and saved. */
  datatype Page = Page(
    expected: Hypothesis, episodes: seq<Episode>, identities: map<int, Reservation>, cursor: Cursor, gap: bool)

  /**
   * `late` holds the rows written where the scan had passed, or was about to; `missed` those it has
   * passed over: written behind the saved cursor, or absent from a saved page that covers them.
   */
  datatype World = World(
    table: map<Position, Row>,
    ever: set<Position>,
    late: set<Position>,
    missed: set<Position>,
    pruned: set<Position>,
    watermark: Option<Position>,
    identities: map<int, Reservation>,
    study: Hypothesis,
    pages: set<Page>,
    presented: seq<Position>)

  datatype Step =
    | Insert(row: Row)
    | Advance(row: Row)
    | Reserve(key: int, reservation: Reservation)
    | Prune(removed: set<Position>, through: Position)
    | Read(rows: seq<Position>, episodes: seq<Episode>, limit: nat)
    | Save(page: Page, now: int)
    | Mark(contribution: Contribution, artifact: Option<string>, now: int)

  function Where(row: Row): Position {
    PositionOf(row.episode.meta)
  }

  // ---------------------------------------------------------------- reading a page

  predicate GapFlag(w: World, h: Hypothesis) {
    w.watermark.Some? && Beyond(w.watermark.value, h)
  }

  function PageLimit(h: Hypothesis, limit: nat): nat {
    if |h.enrolled| < MAXIMUM_OBSERVED then limit else 0
  }

  /** `ORDER BY created_at, episode_id LIMIT n` over the rows beyond the cursor. */
  ghost predicate FirstRows(table: map<Position, Row>, h: Hypothesis, limit: nat, rows: seq<Position>) {
    && |rows| <= limit
    && (forall i, j :: 0 <= i < j < |rows| ==> Below(rows[i], rows[j]))
    && (forall p :: p in rows ==> p in table && Beyond(p, h))
    && (forall p :: p in table && Beyond(p, h) && p !in rows ==>
          |rows| == limit && (rows != [] ==> Below(rows[|rows| - 1], p)))
  }

  function PageCursor(h: Hypothesis, rows: seq<Position>): Cursor {
    if rows != [] then AtRow(rows[|rows| - 1])
    else if h.cursor.Unscanned? then AtCutoff else h.cursor
  }

  predicate AwaitedIn(h: Hypothesis, id: int) {
    exists i :: 0 <= i < |h.enrolled| && h.enrolled[i].episode == id && !h.enrolled[i].resolved
  }

  /** The page rows plus the still pending enrolments that survive in the journal. */
  ghost predicate PageEpisodes(table: map<Position, Row>, h: Hypothesis, rows: seq<Position>, es: seq<Episode>) {
    && OneRowPerId(es)
    && (forall e :: e in es ==> exists p :: p in table && table[p].episode == e
                                            && (p in rows || AwaitedIn(h, p.id)))
    && (forall p :: p in table && (p in rows || AwaitedIn(h, p.id)) ==> table[p].episode in es)
  }

  // ---------------------------------------------------------------- steps

  predicate Handover(h: Hypothesis, to: Contribution) {
    && h.state.Promising? && !h.contribution.HandedOff? && !h.contribution.Stale?
    && (to.WaitingForChampion? || to.HandedOff? || to.Stale?)
  }

  /** A page that can still be saved over the study it was read for, and be evaluated. */
  predicate InFlight(w: World, page: Page) {
    page in w.pages && page.expected == w.study && !page.gap
  }

  /** A write that an open study's scan still has ahead of it: beyond its cursor and those of pages in flight. */
  ghost predicate OnTime(w: World, row: Row) {
    Open(w.study) ==>
      && Beyond(Where(row), w.study)
      && forall page :: InFlight(w, page) ==> Past(Where(row), w.study.design.cutoffAt, page.cursor)
  }

  ghost predicate Allowed(w: World, step: Step) {
    match step
    case Insert(row) => forall p :: p in w.ever ==> p.id != Where(row).id
    case Advance(row) => Where(row) in w.table
    case Reserve(_, _) => true
    case Prune(rows, through) =>
      && rows != {} && (forall p :: p in rows ==> p in w.table && w.table[p].terminal)
      && (through in rows || Some(through) == w.watermark)
      && (forall p :: p in rows || Some(p) == w.watermark ==> !Below(through, p))
    case Read(rows, es, limit) =>
      FirstRows(w.table, w.study, PageLimit(w.study, limit), rows) && PageEpisodes(w.table, w.study, rows, es)
    case Save(page, _) => page in w.pages
    case Mark(_, _, _) => true
  }

  ghost function Presented(page: Page): seq<Position> {
    var h := page.expected;
    if !h.state.Testing? || (page.gap && |h.enrolled| < MAXIMUM_OBSERVED) then []
    else ScannedRows(h, page.identities, Scan(h.enrolled, h.counts), Ordered(page.episodes))
  }

  /** A row between the study's cutoff and its cursor. */
  predicate Passed(p: Position, h: Hypothesis) {
    p.at > h.design.cutoffAt && !Beyond(p, h)
  }

  /** Rows between the two cursors of an evaluated page that the page does not hold. */
  ghost function PassedOver(ever: set<Position>, page: Page): set<Position> {
    var h := page.expected;
    if !h.state.Testing? || (page.gap && |h.enrolled| < MAXIMUM_OBSERVED) then {}
    else
      set p | p in ever && Beyond(p, h) && !Past(p, h.design.cutoffAt, page.cursor)
              && !exists e :: e in page.episodes && PositionOf(e.meta) == p
  }

  /** An evaluation is saved only over the very record it was computed from. */
  ghost function SaveIfCurrent(margin: seq<real> -> real, w: World, page: Page, now: int): World {
    if w.study != page.expected then w
    else
      var updated := Evaluate(margin, page.expected, page.episodes, page.identities, page.cursor, page.gap, now);
      if updated == page.expected then w
      else
        w.(study := updated, presented := w.presented + Presented(page), missed := w.missed + PassedOver(w.ever, page))
  }

  ghost function Next(margin: seq<real> -> real, w: World, step: Step): World {
    match step
    case Insert(row) =>
      w.(table := w.table[Where(row) := row], ever := w.ever + {Where(row)},
         late := if OnTime(w, row) then w.late else w.late + {Where(row)},
         missed := if Open(w.study) && Passed(Where(row), w.study) then w.missed + {Where(row)} else w.missed)
    case Advance(row) => w.(table := w.table[Where(row) := row])
    case Reserve(key, r) => w.(identities := w.identities[key := r])
    case Prune(rows, through) =>
      w.(table := w.table - rows, pruned := w.pruned + rows, watermark := Some(through))
    case Read(rows, es, _) =>
      w.(pages := w.pages + {Page(w.study, es, w.identities, PageCursor(w.study, rows), GapFlag(w, w.study))})
    case Save(page, now) => SaveIfCurrent(margin, w, page, now)
    case Mark(to, artifact, now) =>
      if Handover(w.study, to)
      then w.(study := w.study.(contribution := to, artifact := artifact, updatedAt := now)) else w
  }

  ghost predicate Legal(margin: seq<real> -> real, w: World, steps: seq<Step>)
    decreases |steps|
  {
    steps == [] || (Allowed(w, steps[0]) && Legal(margin, Next(margin, w, steps[0]), steps[1..]))
  }

  ghost function Exec(margin: seq<real> -> real, w: World, steps: seq<Step>): World
    decreases |steps|
  {
    if steps == [] then w else Exec(margin, Next(margin, w, steps[0]), steps[1..])
  }

  // ---------------------------------------------------------------- invariant

  predicate JournalInv(w: World) {
    && (forall p :: p in w.table ==> Where(w.table[p]) == p)
    && (forall p, q :: p in w.ever && q in w.ever && p.id == q.id ==> p == q)
    && w.table.Keys == w.ever - w.pruned
    && w.pruned <= w.ever
  }

  /** The watermark is the latest position ever pruned. */
  predicate WatermarkInv(w: World) {
    && (w.watermark.None? ==> w.pruned == {})
    && (w.watermark.Some? ==> w.watermark.value in w.pruned
                              && forall p :: p in w.pruned ==> !Below(w.watermark.value, p))
  }

  /** Rows that belong to the part of the journal the study has scanned. */
  ghost function InScan(ever: set<Position>, h: Hypothesis): set<Position> {
    set p | p in ever && Passed(p, h)
  }

  /** The scanned part is exactly what was presented, once each, and what was missed; only late rows are missed. */
  ghost predicate Complete(w: World) {
    && Elements(w.presented) + w.missed == InScan(w.ever, w.study) && Elements(w.presented) !! w.missed
    && w.missed <= w.late && Distinct(w.presented) && w.study.counts.scanned == |w.presented|
  }

  predicate Open(h: Hypothesis) {
    h.state.Testing? && |h.enrolled| < MAXIMUM_OBSERVED
  }

  /** What holds of a page however old it is. */
  ghost predicate PageBase(ever: set<Position>, d: Design, page: Page) {
    && page.expected.design == d
    && PageFits(page.expected, page.episodes, page.cursor)
    && CursorFrom(page.expected, page.episodes, page.cursor)
    && (forall e :: e in page.episodes ==> PositionOf(e.meta) in ever)
  }

  /** The page holds every one of these rows between its two cursors. */
  ghost predicate Covers(known: set<Position>, page: Page) {
    forall p :: p in known && Beyond(p, page.expected) && !Past(p, page.expected.design.cutoffAt, page.cursor) ==>
      exists e :: e in page.episodes && PositionOf(e.meta) == p
  }

  /** A page is never ahead of the study, and one in flight covers the rows that were on time. */
  ghost predicate PageLive(margin: seq<real> -> real, study: Hypothesis, known: set<Position>, page: Page) {
    && Progress(margin, page.expected) <= Progress(margin, study)
    && (page.expected == study && !page.gap ==> Covers(known, page))
  }

  predicate StudyBase(ever: set<Position>, h: Hypothesis) {
    StudyInv(h) && forall i :: 0 <= i < |h.enrolled| ==> EnrolledAt(h.enrolled[i]) in ever
  }

  ghost predicate PagesBase(ever: set<Position>, d: Design, pages: set<Page>) {
    forall page :: page in pages ==> PageBase(ever, d, page)
  }

  ghost predicate Base(w: World) {
    JournalInv(w) && WatermarkInv(w) && StudyBase(w.ever, w.study) && PagesBase(w.ever, w.study.design, w.pages)
  }

  ghost predicate Live(margin: seq<real> -> real, w: World) {
    Open(w.study) ==>
      Complete(w) && forall page :: page in w.pages ==> PageLive(margin, w.study, w.ever - w.late, page)
  }

  ghost predicate Inv(margin: seq<real> -> real, w: World) {
    Base(w) && Live(margin, w)
  }

  /** A study as it is created: nothing scanned, nothing presented. */
  predicate Fresh(w: World) {
    && JournalInv(w) && WatermarkInv(w)
    && w.study.state.Testing? && w.study.cursor.Unscanned? && w.study.enrolled == []
    && w.study.counts == Counts(0, 0, 0, 0, 0, 0, 0, 0)
    && w.study.evidence.ids == [] && w.study.evidence.values == [] && w.study.evidence.seasons == map[]
    && w.study.evidence.observed == 0 && w.study.evidence.usable == 0
    && w.study.resolvedAt.None? && w.study.reason == ""
    && w.pages == {} && w.presented == [] && w.late == {} && w.missed == {}
  }

  /** The watermark decides whether some pruned row lies beyond the cursor. */
  lemma GapOfWatermark(w: World)
    requires JournalInv(w) && WatermarkInv(w)
    ensures GapFlag(w, w.study) <==> exists p :: p in w.pruned && Beyond(p, w.study)
  {
  }

  // ---------------------------------------------------------------- preservation

  lemma MoreRows(ever: set<Position>, p: Position, h: Hypothesis, pages: set<Page>)
    requires StudyBase(ever, h) && PagesBase(ever, h.design, pages)
    ensures StudyBase(ever + {p}, h) && PagesBase(ever + {p}, h.design, pages)
  {
    forall page | page in pages ensures PageBase(ever + {p}, h.design, page) {
      assert PageBase(ever, h.design, page);
    }
  }

  lemma InsertJournal(margin: seq<real> -> real, w: World, row: Row)
    requires JournalInv(w) && WatermarkInv(w) && Allowed(w, Insert(row))
    ensures JournalInv(Next(margin, w, Insert(row))) && WatermarkInv(Next(margin, w, Insert(row)))
  {
    var p := Where(row);
    assert w.table[p := row].Keys == w.table.Keys + {p};
    assert p !in w.ever;
  }

  lemma InsertBase(margin: seq<real> -> real, w: World, row: Row)
    requires Base(w) && Allowed(w, Insert(row))
    ensures Base(Next(margin, w, Insert(row)))
  {
    InsertJournal(margin, w, row);
    MoreRows(w.ever, Where(row), w.study, w.pages);
  }

  lemma InsertComplete(margin: seq<real> -> real, w: World, row: Row)
    requires Open(w.study) && Complete(w) && Where(row) !in w.ever
    ensures Complete(Next(margin, w, Insert(row)))
  {
    var p, w' := Where(row), Next(margin, w, Insert(row));
    if Passed(p, w.study) {
      assert InScan(w'.ever, w'.study) == InScan(w.ever, w.study) + {p};
      assert p !in InScan(w.ever, w.study);
    } else {
      assert InScan(w'.ever, w'.study) == InScan(w.ever, w.study);
    }
  }

  lemma InsertLive(margin: seq<real> -> real, w: World, row: Row)
    requires Base(w) && Live(margin, w) && Allowed(w, Insert(row))
    ensures Live(margin, Next(margin, w, Insert(row)))
  {
    var p, w' := Where(row), Next(margin, w, Insert(row));
    assert p !in w.ever;
    if Open(w.study) {
      InsertComplete(margin, w, row);
      if OnTime(w, row) {
        forall page | page in w'.pages ensures PageLive(margin, w'.study, w'.ever - w'.late, page) {
          assert PageLive(margin, w.study, w.ever - w.late, page);
          assert page.expected == w.study && !page.gap ==> InFlight(w, page);
        }
      } else {
        assert w'.ever - w'.late == w.ever - w.late;
      }
    }
  }

  lemma PruneBase(margin: seq<real> -> real, w: World, rows: set<Position>, through: Position)
    requires Base(w) && Allowed(w, Prune(rows, through))
    ensures Base(Next(margin, w, Prune(rows, through)))
  {
    assert (w.table - rows).Keys == w.table.Keys - rows;
    forall p | p in w.pruned + rows ensures !Below(through, p) {
      if p in w.pruned {
        assert !Below(w.watermark.value, p);
        assert !Below(through, w.watermark.value);
      }
    }
  }

  lemma LastIsGreatest(rows: seq<Position>)
    requires rows != [] && forall i, j :: 0 <= i < j < |rows| ==> Below(rows[i], rows[j])
    ensures forall p :: p in rows ==> p == rows[|rows| - 1] || Below(p, rows[|rows| - 1])
  {
  }

  lemma PageCursorAdvances(w: World, limit: nat, rows: seq<Position>)
    requires FirstRows(w.table, w.study, limit, rows) && CursorAfter(w.study.design.cutoffAt, w.study.cursor)
    ensures CursorAfter(w.study.design.cutoffAt, PageCursor(w.study, rows))
    ensures forall p: Position :: Past(p, w.study.design.cutoffAt, PageCursor(w.study, rows)) ==> Beyond(p, w.study)
    ensures forall p :: p in rows ==> !Past(p, w.study.design.cutoffAt, PageCursor(w.study, rows))
  {
    if rows != [] {
      LastIsGreatest(rows);
      assert rows[|rows| - 1] in rows;
    }
  }

  function PageOf(w: World, rows: seq<Position>, es: seq<Episode>): Page {
    Page(w.study, es, w.identities, PageCursor(w.study, rows), GapFlag(w, w.study))
  }

  /** A page as it is read fits the study, and without a gap it covers every row ever written. */
  lemma ReadPage(w: World, rows: seq<Position>, es: seq<Episode>, limit: nat)
    requires Base(w) && FirstRows(w.table, w.study, PageLimit(w.study, limit), rows)
    requires PageEpisodes(w.table, w.study, rows, es)
    ensures PageBase(w.ever, w.study.design, PageOf(w, rows, es))
    ensures !PageOf(w, rows, es).gap ==> Covers(w.ever, PageOf(w, rows, es))
  {
    var h, cutoff := w.study, w.study.design.cutoffAt;
    var cursor := PageCursor(h, rows);
    PageCursorAdvances(w, PageLimit(h, limit), rows);
    PageRows(w, rows, es);
    if !GapFlag(w, h) {
      GapOfWatermark(w);
      forall p | p in w.ever && Beyond(p, h) && !Past(p, cutoff, cursor)
        ensures exists e :: e in es && PositionOf(e.meta) == p
      {
        assert p in w.table;
        assert p in rows;
      }
    }
  }

  /** Where the episodes of a page stand: at scanned rows, or at rows of the page. */
  lemma PageRows(w: World, rows: seq<Position>, es: seq<Episode>)
    requires Base(w) && PageEpisodes(w.table, w.study, rows, es) && forall p :: p in rows ==> p in w.table
    ensures forall e :: e in es ==>
              PositionOf(e.meta) in w.ever && (PositionOf(e.meta) in rows || !Beyond(PositionOf(e.meta), w.study))
    ensures forall p :: p in rows ==> exists e :: e in es && PositionOf(e.meta) == p
  {
    forall e | e in es
      ensures PositionOf(e.meta) in w.ever && (PositionOf(e.meta) in rows || !Beyond(PositionOf(e.meta), w.study))
    {
      var p :| p in w.table && w.table[p].episode == e && (p in rows || AwaitedIn(w.study, p.id));
      assert Where(w.table[p]) == p;
      if p !in rows {
        var i :| 0 <= i < |w.study.enrolled| && w.study.enrolled[i].episode == p.id;
        assert EnrolledAt(w.study.enrolled[i]) == p;
      }
    }
    forall p | p in rows ensures exists e :: e in es && PositionOf(e.meta) == p {
      assert w.table[p].episode in es && Where(w.table[p]) == p;
    }
  }

  lemma ReadBase(margin: seq<real> -> real, w: World, rows: seq<Position>, es: seq<Episode>, limit: nat)
    requires Base(w) && Allowed(w, Read(rows, es, limit))
    ensures Base(Next(margin, w, Read(rows, es, limit)))
  {
    ReadPage(w, rows, es, limit);
  }

  lemma ReadLive(margin: seq<real> -> real, w: World, rows: seq<Position>, es: seq<Episode>, limit: nat)
    requires Base(w) && Live(margin, w) && Allowed(w, Read(rows, es, limit))
    ensures Live(margin, Next(margin, w, Read(rows, es, limit)))
  {
    ReadPage(w, rows, es, limit);
  }

  // ---------------------------------------------------------------- saving

  lemma PassPositions(
    h: Hypothesis, es: seq<Episode>, identities: map<int, Reservation>, now: int, known: set<Position>)
    requires StudyInv(h) && OneRowPerId(es)
    requires forall e :: e in es ==> PositionOf(e.meta) in known
    requires forall i :: 0 <= i < |h.enrolled| ==> EnrolledAt(h.enrolled[i]) in known
    ensures forall i :: 0 <= i < |Resolved(h, es, identities, now)| ==>
              EnrolledAt(Resolved(h, es, identities, now)[i]) in known
  {
    ResolvedGrows(h, es, identities, now);
    OrderedKeeps(es);
    var scan, items := Enrolled(h, es, identities).enrolled, Resolved(h, es, identities, now);
    forall i | 0 <= i < |items| ensures EnrolledAt(items[i]) in known {
      assert SameEnrolment(scan[i], items[i]);
      if i < |h.enrolled| {
        assert SameEnrolment(h.enrolled[i], items[i]);
      } else {
        assert TakenFrom(h, Ordered(es), EnrolledAt(scan[i]));
      }
    }
  }

  lemma PassEnrols(margin: seq<real> -> real, page: Page, now: int, known: set<Position>)
    requires StudyBase(known, page.expected) && PageFits(page.expected, page.episodes, page.cursor)
    requires forall e :: e in page.episodes ==> PositionOf(e.meta) in known
    ensures var out := Evaluate(margin, page.expected, page.episodes, page.identities, page.cursor, page.gap, now);
            StudyBase(known, out) && Accumulates(page.expected, out)
  {
    var h := page.expected;
    PassAccumulates(margin, h, page.episodes, page.identities, page.cursor, page.gap, now);
    if h.state.Testing? && !(page.gap && |h.enrolled| < MAXIMUM_OBSERVED) {
      PassFields(margin, h, page.episodes, page.identities, page.cursor, page.gap, now);
      PassPositions(h, page.episodes, page.identities, now, known);
    }
  }

  /** What a page presents, and how the scan count moves with it. */
  lemma PagePresents(page: Page)
    requires StudyInv(page.expected) && OneRowPerId(page.episodes) && Open(page.expected) && !page.gap
    requires |Enrolled(page.expected, page.episodes, page.identities).enrolled| < MAXIMUM_OBSERVED
    ensures Enrolled(page.expected, page.episodes, page.identities).counts.scanned
            == page.expected.counts.scanned + |Presented(page)|
    ensures Distinct(Presented(page))
    ensures forall p :: p in Presented(page) <==>
                        exists e :: e in Ordered(page.episodes) && PositionOf(e.meta) == p && Beyond(p, page.expected)
    ensures forall e :: e in Ordered(page.episodes) <==> e in page.episodes
  {
    var acc := Scan(page.expected.enrolled, page.expected.counts);
    OrderedKeeps(page.episodes);
    ScanAddsUp(page.expected, page.identities, acc, Ordered(page.episodes));
    ScanCovers(page.expected, page.identities, acc, Ordered(page.episodes));
  }

  /** While the study stays open, a saved page presents or misses each newly scanned row. */
  lemma SavePresents(margin: seq<real> -> real, w: World, page: Page, now: int)
    requires Base(w) && Live(margin, w) && page in w.pages && w.study == page.expected
    requires Open(SaveIfCurrent(margin, w, page, now).study)
    ensures Complete(SaveIfCurrent(margin, w, page, now))
  {
    var h := page.expected;
    var out := Evaluate(margin, h, page.episodes, page.identities, page.cursor, page.gap, now);
    assert PageBase(w.ever, w.study.design, page);
    if out != h {
      PassAccumulates(margin, h, page.episodes, page.identities, page.cursor, page.gap, now);
      PassScans(margin, page, now);
      PagePresents(page);
      assert PageLive(margin, w.study, w.ever - w.late, page);
      NewlyScanned(w.ever, w.late, w.missed, w.presented, page, out);
    }
  }

  lemma PassScans(margin: seq<real> -> real, page: Page, now: int)
    requires page.expected.state.Testing? && !page.gap
    ensures var out := Evaluate(margin, page.expected, page.episodes, page.identities, page.cursor, page.gap, now);
            && out.design == page.expected.design && out.cursor == page.cursor
            && |out.enrolled| == |Enrolled(page.expected, page.episodes, page.identities).enrolled|
            && out.counts.scanned == Enrolled(page.expected, page.episodes, page.identities).counts.scanned
  {
    PassFields(margin, page.expected, page.episodes, page.identities, page.cursor, page.gap, now);
  }

  lemma NewlyScanned(
    ever: set<Position>, late: set<Position>, missed: set<Position>, presented: seq<Position>, page: Page,
    out: Hypothesis)
    requires PageBase(ever, page.expected.design, page) && Covers(ever - late, page)
    requires page.expected.state.Testing? && !page.gap
    requires CursorAfter(page.expected.design.cutoffAt, page.expected.cursor)
    requires Elements(presented) + missed == InScan(ever, page.expected) && Distinct(presented)
    requires Elements(presented) !! missed && missed <= late
    requires out.design == page.expected.design && out.cursor == page.cursor
    requires forall p :: p in Presented(page) <==>
                         exists e :: e in Ordered(page.episodes) && PositionOf(e.meta) == p && Beyond(p, page.expected)
    requires Distinct(Presented(page))
    requires forall e :: e in Ordered(page.episodes) <==> e in page.episodes
    ensures Elements(presented + Presented(page)) + (missed + PassedOver(ever, page)) == InScan(ever, out)
    ensures Elements(presented + Presented(page)) !! (missed + PassedOver(ever, page))
    ensures missed + PassedOver(ever, page) <= late
    ensures Distinct(presented + Presented(page))
  {
    var h := page.expected;
    var shown, over := Elements(Presented(page)), PassedOver(ever, page);
    ShownRows(ever, page, out);
    assert Elements(presented + Presented(page)) == Elements(presented) + shown;
    assert InScan(ever, out) == InScan(ever, h) + shown + over by {
      forall p | p in InScan(ever, h) ensures p in InScan(ever, out) {
        assert !Past(p, h.design.cutoffAt, page.cursor);
      }
    }
    forall p | p in presented ensures p !in Presented(page) {
      assert p in Elements(presented) && p in InScan(ever, h);
      assert p in Presented(page) ==> p in shown;
    }
    DistinctConcat(presented, Presented(page));
  }

  /** The rows a page shows and those it passes over split the rows between its cursors. */
  lemma ShownRows(ever: set<Position>, page: Page, out: Hypothesis)
    requires PageBase(ever, page.expected.design, page) && page.expected.state.Testing? && !page.gap
    requires CursorAfter(page.expected.design.cutoffAt, page.expected.cursor)
    requires out.design == page.expected.design && out.cursor == page.cursor
    requires forall p :: p in Presented(page) <==>
                         exists e :: e in Ordered(page.episodes) && PositionOf(e.meta) == p && Beyond(p, page.expected)
    requires forall e :: e in Ordered(page.episodes) <==> e in page.episodes
    ensures var shown, over := Elements(Presented(page)), PassedOver(ever, page);
            && shown !! over && (shown + over) !! InScan(ever, page.expected)
            && (forall p :: p in shown + over <==> p in InScan(ever, out) && Beyond(p, page.expected))
  {
    var h := page.expected;
    var shown, over := Elements(Presented(page)), PassedOver(ever, page);
    forall p | p in shown ensures p in InScan(ever, out) && Beyond(p, h) && p !in over {
      var e :| e in Ordered(page.episodes) && PositionOf(e.meta) == p && Beyond(p, h);
      BeyondIsAfterCutoff(h, p);
    }
    forall p | p in over ensures p in InScan(ever, out) && Beyond(p, h) {
      BeyondIsAfterCutoff(h, p);
    }
    forall p | p in InScan(ever, out) && Beyond(p, h) ensures p in shown + over {
      if exists e :: e in page.episodes && PositionOf(e.meta) == p {
        var e :| e in page.episodes && PositionOf(e.meta) == p;
        assert e in Ordered(page.episodes);
        assert p in Presented(page);
      }
    }
  }

  lemma BeyondIsAfterCutoff(h: Hypothesis, p: Position)
    requires Beyond(p, h) && CursorAfter(h.design.cutoffAt, h.cursor)
    ensures p.at > h.design.cutoffAt
  {
  }

  /** The base facts do not depend on which well-formed record of the design is stored. */
  lemma BaseOfStudy(w: World, study: Hypothesis, presented: seq<Position>, missed: set<Position>)
    requires Base(w) && StudyBase(w.ever, study) && study.design == w.study.design
    ensures Base(w.(study := study, presented := presented, missed := missed))
  {
  }

  /** A save keeps the base facts; a page that is no longer current changes nothing. */
  lemma SaveBase(margin: seq<real> -> real, w: World, page: Page, now: int)
    requires Base(w) && page in w.pages
    ensures Base(SaveIfCurrent(margin, w, page, now))
    ensures Accumulates(w.study, SaveIfCurrent(margin, w, page, now).study)
  {
    if w.study == page.expected {
      assert PageBase(w.ever, w.study.design, page);
      PassEnrols(margin, page, now, w.ever);
      BaseOfStudy(w, Evaluate(margin, w.study, page.episodes, page.identities, page.cursor, page.gap, now),
                  w.presented + Presented(page), w.missed + PassedOver(w.ever, page));
    } else {
      SameStudy(w.study);
    }
  }

  lemma SameStudy(h: Hypothesis)
    ensures Accumulates(h, h)
  {
  }

  /** A save that changes an open study makes progress, so no other page is in flight any more. */
  lemma SaveLive(margin: seq<real> -> real, w: World, page: Page, now: int)
    requires Base(w) && Live(margin, w) && page in w.pages
    ensures Live(margin, SaveIfCurrent(margin, w, page, now))
  {
    var w' := SaveIfCurrent(margin, w, page, now);
    if w' != w && Open(w'.study) {
      assert PageBase(w.ever, w.study.design, page);
      SaveBase(margin, w, page, now);
      SavePresents(margin, w, page, now);
      PassAdvances(margin, w.study, page.episodes, page.identities, page.cursor, now);
      forall other | other in w'.pages ensures PageLive(margin, w'.study, w'.ever - w'.late, other) {
        assert PageLive(margin, w.study, w.ever - w.late, other);
      }
    }
  }

  lemma SaveKeeps(margin: seq<real> -> real, w: World, page: Page, now: int)
    requires Inv(margin, w) && page in w.pages
    ensures Inv(margin, SaveIfCurrent(margin, w, page, now))
    ensures Accumulates(w.study, SaveIfCurrent(margin, w, page, now).study)
  {
    SaveBase(margin, w, page, now);
    SaveLive(margin, w, page, now);
  }

  lemma MarkStudy(h: Hypothesis, to: Contribution, artifact: Option<string>, now: int)
    requires StudyInv(h) && Handover(h, to)
    ensures var marked := h.(contribution := to, artifact := artifact, updatedAt := now);
            StudyInv(marked) && Accumulates(h, marked) && !Open(marked) && marked.design == h.design
  {
  }

  lemma BaseKeeps(margin: seq<real> -> real, w: World, step: Step)
    requires Base(w) && Allowed(w, step)
    ensures Base(Next(margin, w, step)) && Accumulates(w.study, Next(margin, w, step).study)
  {
    SameStudy(w.study);
    match step
    case Insert(row) => InsertBase(margin, w, row);
    case Prune(rows, through) => PruneBase(margin, w, rows, through);
    case Read(rows, es, limit) => ReadBase(margin, w, rows, es, limit);
    case Save(page, now) => SaveBase(margin, w, page, now);
    case Advance(row) => AdvanceBase(margin, w, row);
    case Reserve(key, r) =>
    case Mark(to, artifact, now) =>
      if Handover(w.study, to) {
        MarkStudy(w.study, to, artifact, now);
      }
  }

  lemma AdvanceBase(margin: seq<real> -> real, w: World, row: Row)
    requires Base(w) && Allowed(w, Advance(row))
    ensures Base(Next(margin, w, Advance(row)))
  {
    assert w.table[Where(row) := row].Keys == w.table.Keys;
  }

  lemma LiveKeeps(margin: seq<real> -> real, w: World, step: Step)
    requires Base(w) && Live(margin, w) && Allowed(w, step)
    ensures Live(margin, Next(margin, w, step))
  {
    match step
    case Insert(row) => InsertLive(margin, w, row);
    case Prune(rows, through) =>
    case Read(rows, es, limit) => ReadLive(margin, w, rows, es, limit);
    case Save(page, now) => SaveLive(margin, w, page, now);
    case Advance(row) =>
    case Reserve(key, r) =>
    case Mark(to, artifact, now) =>
      if Handover(w.study, to) {
        MarkStudy(w.study, to, artifact, now);
      }
  }

  // ---------------------------------------------------------------- theorems over runs

  /**
   * Evidence is append-only over every run: enrolments stay distinct, ordered and at most
   * 180, resolved values never change, the counted lists are only extended, and a verdict
   * once reached is never left.
   */
  lemma {:induction false} EvidenceIsAppendOnly(margin: seq<real> -> real, w: World, steps: seq<Step>)
    requires Base(w) && Legal(margin, w, steps)
    ensures Base(Exec(margin, w, steps))
    ensures Accumulates(w.study, Exec(margin, w, steps).study)
    decreases |steps|
  {
    if steps == [] {
    } else {
      var w' := Next(margin, w, steps[0]);
      BaseKeeps(margin, w, steps[0]);
      EvidenceIsAppendOnly(margin, w', steps[1..]);
    }
  }

  lemma {:induction false} RunKeeps(margin: seq<real> -> real, w: World, steps: seq<Step>)
    requires Inv(margin, w) && Legal(margin, w, steps)
    ensures Inv(margin, Exec(margin, w, steps))
    decreases |steps|
  {
    if steps == [] {
    } else {
      BaseKeeps(margin, w, steps[0]);
      LiveKeeps(margin, w, steps[0]);
      RunKeeps(margin, Next(margin, w, steps[0]), steps[1..]);
    }
  }

  /**
   * No survivor bias: from a fresh study, under any interleaving of journal writes,
   * retention, page reads and competing saves, for a study that is still testing and not full
   * the rows between its cutoff and its cursor, rows that retention has since removed included,
   * are exactly those it was shown, once each, and those it missed; and only late rows are missed.
   */
  lemma NoSurvivorBias(margin: seq<real> -> real, w: World, steps: seq<Step>)
    requires Fresh(w) && Legal(margin, w, steps)
    requires Open(Exec(margin, w, steps).study)
    ensures var end := Exec(margin, w, steps);
            && Distinct(end.presented)
            && (forall p :: p in end.ever && Passed(p, end.study) <==> p in end.presented || p in end.missed)
            && (forall p :: p in end.missed ==> p !in end.presented && p in end.late)
            && end.study.counts.scanned == |end.presented|
            && end.study.counts.contextExcluded + end.study.counts.identityExcluded
               + end.study.counts.conditionExcluded + |end.study.enrolled| == |end.presented|
  {
    FreshLive(margin, w);
    RunKeeps(margin, w, steps);
    var end := Exec(margin, w, steps);
    assert forall p :: p in end.presented <==> p in Elements(end.presented);
    assert forall p :: p in InScan(end.ever, end.study) <==> p in Elements(end.presented) + end.missed;
  }

  /** Over every run the gap flag is raised exactly when some pruned row lies beyond the cursor. */
  lemma GapExactly(margin: seq<real> -> real, w: World, steps: seq<Step>)
    requires Fresh(w) && Legal(margin, w, steps)
    ensures var end := Exec(margin, w, steps);
            GapFlag(end, end.study) <==> exists p :: p in end.pruned && Beyond(p, end.study)
  {
    FreshLive(margin, w);
    RunKeeps(margin, w, steps);
    GapOfWatermark(Exec(margin, w, steps));
  }

  // ---------------------------------------------------------------- contribution handoff

  predicate Final(c: Contribution) {
    c.HandedOff? || c.Stale?
  }

  /** Only a promising study is ready, and only one is waiting, handed over or stale. */
  predicate HandoffInv(h: Hypothesis) {
    h.contribution.ResearchOnly? || h.state.Promising?
  }

  /** A final contribution and its artifact are never left. */
  predicate HandoffKept(a: Hypothesis, b: Hypothesis) {
    Final(a.contribution) ==> b.contribution == a.contribution && b.artifact == a.artifact
  }

  lemma PassHandoff(
    margin: seq<real> -> real, h: Hypothesis, es: seq<Episode>, identities: map<int, Reservation>,
    cursor: Cursor, gap: bool, now: int)
    requires HandoffInv(h)
    ensures var out := Evaluate(margin, h, es, identities, cursor, gap, now); HandoffInv(out) && HandoffKept(h, out)
  {
  }

  lemma StepHandoff(margin: seq<real> -> real, w: World, step: Step)
    requires HandoffInv(w.study)
    ensures var next := Next(margin, w, step).study; HandoffInv(next) && HandoffKept(w.study, next)
  {
    if step.Save? {
      var page := step.page;
      PassHandoff(margin, w.study, page.episodes, page.identities, page.cursor, page.gap, step.now);
    }
  }

  /** Over every run only a promising study is handed over, and a handed-over or stale one stays so. */
  lemma {:induction false} HandoffIsFinal(margin: seq<real> -> real, w: World, steps: seq<Step>)
    requires HandoffInv(w.study)
    ensures var end := Exec(margin, w, steps).study; HandoffInv(end) && HandoffKept(w.study, end)
    decreases |steps|
  {
    if steps == [] {
    } else {
      StepHandoff(margin, w, steps[0]);
      HandoffIsFinal(margin, Next(margin, w, steps[0]), steps[1..]);
    }
  }

  lemma FreshLive(margin: seq<real> -> real, w: World)
    requires Fresh(w)
    ensures Inv(margin, w)
  {
    assert Elements(w.presented) == {} == InScan(w.ever, w.study);
  }

  // ---------------------------------------------------------------- late writes

  /** Every row of the scanned part has been presented. */
  ghost predicate Exhaustive(w: World) {
    InScan(w.ever, w.study) <= Elements(w.presented)
  }

  /** A row of the scanned part that was not presented. */
  predicate Lost(w: World, p: Position) {
    p in w.ever && Passed(p, w.study) && p !in w.presented
  }

  /** A write after the cutoff keeps an exhaustive scan so exactly when it lands beyond the saved cursor. */
  lemma LateInsertIsLost(margin: seq<real> -> real, w: World, row: Row)
    requires Inv(margin, w) && Open(w.study)
    requires Where(row) !in w.ever && Where(row).at > w.study.design.cutoffAt
    ensures var w' := Next(margin, w, Insert(row));
            && (Exhaustive(w) ==> (Exhaustive(w') <==> Beyond(Where(row), w.study)))
            && (Lost(w', Where(row)) <==> !Beyond(Where(row), w.study))
  {
    NewRowCases(w.ever, w.presented, w.study, Where(row));
  }

  /** A new row after the cutoff joins the scanned part exactly when it is not beyond the cursor. */
  lemma NewRowCases(ever: set<Position>, presented: seq<Position>, h: Hypothesis, p: Position)
    requires p !in ever && p.at > h.design.cutoffAt && Elements(presented) <= InScan(ever, h)
    ensures p !in presented
    ensures InScan(ever, h) <= Elements(presented) ==>
              (InScan(ever + {p}, h) <= Elements(presented) <==> Beyond(p, h))
  {
    assert p in presented ==> p in Elements(presented);
    if Beyond(p, h) {
      assert InScan(ever + {p}, h) == InScan(ever, h);
    } else {
      assert p in InScan(ever + {p}, h);
    }
  }

  /**
   * A write while a page is in flight: when that page is saved, changes the study and leaves it
   * open, the row is lost exactly if it does not lie beyond the page's cursor, and that alone
   * decides whether a scan that would otherwise be exhaustive is so.
   */
  lemma InFlightInsertIsLost(margin: seq<real> -> real, w: World, row: Row, page: Page, now: int)
    requires Inv(margin, w) && InFlight(w, page)
    requires Where(row) !in w.ever && Where(row).at > w.study.design.cutoffAt
    requires var plain := SaveIfCurrent(margin, w, page, now); plain.study != w.study && Open(plain.study)
    ensures var plain, after := SaveIfCurrent(margin, w, page, now),
                                SaveIfCurrent(margin, Next(margin, w, Insert(row)), page, now);
            && (Exhaustive(plain) ==>
                  (Exhaustive(after) <==> Past(Where(row), w.study.design.cutoffAt, page.cursor)))
            && (Lost(after, Where(row)) <==> !Past(Where(row), w.study.design.cutoffAt, page.cursor))
  {
    var plain := SaveIfCurrent(margin, w, page, now);
    SavePresents(margin, w, page, now);
    PassScans(margin, page, now);
    NewRowCases(w.ever, plain.presented, plain.study, Where(row));
  }

  lemma {:induction false} ScannedAreBeyond(
    h: Hypothesis, identities: map<int, Reservation>, acc: Scan, es: seq<Episode>)
    ensures forall p :: p in ScannedRows(h, identities, acc, es) ==> Beyond(p, h)
  {
    if es == [] {
    } else {
      ScannedAreBeyond(h, identities, acc, es[..|es| - 1]);
    }
  }

  lemma SaveLeavesLost(margin: seq<real> -> real, w: World, page: Page, now: int, p: Position)
    requires Base(w) && page in w.pages && Lost(w, p)
    ensures Lost(SaveIfCurrent(margin, w, page, now), p)
  {
    if w.study == page.expected {
      assert PageBase(w.ever, w.study.design, page);
      ScannedAreBeyond(page.expected, page.identities, Scan(page.expected.enrolled, page.expected.counts),
                       Ordered(page.episodes));
      if w.study.state.Testing? && !(page.gap && |w.study.enrolled| < MAXIMUM_OBSERVED) {
        PassFields(margin, page.expected, page.episodes, page.identities, page.cursor, page.gap, now);
      }
    }
  }

  /** A lost row is never presented, whatever happens later. */
  lemma {:induction false} LostStaysLost(margin: seq<real> -> real, w: World, steps: seq<Step>, p: Position)
    requires Base(w) && Legal(margin, w, steps) && Lost(w, p)
    ensures Lost(Exec(margin, w, steps), p)
    decreases |steps|
  {
    if steps == [] {
    } else {
      var w', step := Next(margin, w, steps[0]), steps[0];
      BaseKeeps(margin, w, step);
      if step.Save? {
        SaveLeavesLost(margin, w, step.page, step.now, p);
      }
      LostStaysLost(margin, w', steps[1..], p);
    }
  }
}
