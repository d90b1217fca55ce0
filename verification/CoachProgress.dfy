/** The scan always moves on: while rows lie ahead of an open study, reading and saving a page advances it. */
module CoachProgress {
  import opened Common
  import opened CoachModel
  import opened CoachEvidence
  import opened CoachRuns

  // ---------------------------------------------------------------- the first rows

  lemma {:induction false} LeastExists(ps: set<Position>) returns (least: Position)
    requires ps != {}
    ensures least in ps && forall p :: p in ps && p != least ==> Below(least, p)
    decreases |ps|
  {
    var p := Pick(ps);
    if ps == {p} {
      least := p;
    } else {
      var other := LeastExists(ps - {p});
      least := if Below(other, p) then other else p;
      assert forall q :: q in ps && q != p ==> q in ps - {p};
    }
  }

  /** The first rows of a set, in order. */
  predicate Leading(ps: set<Position>, limit: nat, rows: seq<Position>) {
    && |rows| <= limit && (forall i, j :: 0 <= i < j < |rows| ==> Below(rows[i], rows[j]))
    && (forall p :: p in rows ==> p in ps)
    && (forall p :: p in ps && p !in rows ==> |rows| == limit && (rows != [] ==> Below(rows[|rows| - 1], p)))
  }

  lemma LeadingCons(ps: set<Position>, limit: nat, least: Position, rest: seq<Position>)
    requires least in ps && (forall p :: p in ps && p != least ==> Below(least, p))
    requires limit > 0 && Leading(ps - {least}, limit - 1, rest)
    ensures Leading(ps, limit, [least] + rest)
  {
    var rows := [least] + rest;
    assert forall p :: p in rest ==> p in ps - {least};
    forall i, j | 0 <= i < j < |rows| ensures Below(rows[i], rows[j]) {
      assert rows[j] == rest[j - 1] && rest[j - 1] in rest;
      assert i > 0 ==> rows[i] == rest[i - 1];
    }
    forall p | p in ps && p !in rows ensures |rows| == limit && Below(rows[|rows| - 1], p) {
      assert rows[0] == least && p != least;
      assert rows[1..] == rest && p !in rest;
    }
  }

  lemma {:induction false} LeadingExists(ps: set<Position>, limit: nat) returns (rows: seq<Position>)
    ensures Leading(ps, limit, rows) && (ps != {} && limit > 0 ==> rows != [])
    decreases limit
  {
    if ps == {} || limit == 0 {
      rows := [];
    } else {
      var least := LeastExists(ps);
      var rest := LeadingExists(ps - {least}, limit - 1);
      LeadingCons(ps, limit, least, rest);
      rows := [least] + rest;
    }
  }

  // ---------------------------------------------------------------- the page

  predicate KeyedById(table: map<Position, Row>) {
    && (forall p :: p in table ==> Where(table[p]) == p)
    && forall p, q :: p in table && q in table && p.id == q.id ==> p == q
  }

  predicate EpisodesOf(table: map<Position, Row>, ps: set<Position>, es: seq<Episode>) {
    && OneRowPerId(es)
    && (forall e :: e in es ==>
          PositionOf(e.meta) in ps && PositionOf(e.meta) in table && table[PositionOf(e.meta)].episode == e)
    && (forall p :: p in ps && p in table ==> table[p].episode in es)
  }

  lemma EpisodesCons(table: map<Position, Row>, ps: set<Position>, p: Position, rest: seq<Episode>)
    requires KeyedById(table) && ps <= table.Keys && p in ps && EpisodesOf(table, ps - {p}, rest)
    ensures EpisodesOf(table, ps, [table[p].episode] + rest)
  {
    var e := table[p].episode;
    var es := [e] + rest;
    assert PositionOf(e.meta) == p;
    forall i, j | 0 <= i < j < |es| ensures es[i].meta.id != es[j].meta.id {
      assert es[j] == rest[j - 1] && rest[j - 1] in rest;
      assert i > 0 ==> es[i] == rest[i - 1];
      if i == 0 {
        assert PositionOf(es[j].meta) in ps - {p};
      }
    }
    forall q | q in ps && q in table ensures table[q].episode in es {
      assert es[0] == e;
      if q != p {
        assert table[q].episode in rest;
      }
    }
  }

  lemma {:induction false} EpisodesExist(table: map<Position, Row>, ps: set<Position>) returns (es: seq<Episode>)
    requires KeyedById(table) && ps <= table.Keys
    ensures EpisodesOf(table, ps, es)
    decreases |ps|
  {
    if ps == {} {
      es := [];
    } else {
      var p := Pick(ps);
      var rest := EpisodesExist(table, ps - {p});
      EpisodesCons(table, ps, p, rest);
      es := [table[p].episode] + rest;
    }
  }

  /** Whatever the journal holds, a page can be read, and it is not empty while a row lies ahead. */
  lemma ReadIsEnabled(w: World, limit: nat) returns (rows: seq<Position>, es: seq<Episode>)
    requires JournalInv(w)
    ensures Allowed(w, Read(rows, es, limit))
    ensures Open(w.study) && limit > 0 && (exists p :: p in w.table && Beyond(p, w.study)) ==> rows != []
  {
    var ahead := set p | p in w.table && Beyond(p, w.study);
    rows := LeadingExists(ahead, PageLimit(w.study, limit));
    var wanted := set p | p in w.table && (p in rows || AwaitedIn(w.study, p.id));
    es := EpisodesExist(w.table, wanted);
    forall e | e in es
      ensures exists p :: p in w.table && w.table[p].episode == e && (p in rows || AwaitedIn(w.study, p.id))
    {
      assert PositionOf(e.meta) in wanted;
    }
  }

  // ---------------------------------------------------------------- one page further

  lemma SaveMoves(margin: seq<real> -> real, w: World, page: Page, now: int)
    requires w.study == page.expected && Open(w.study) && !page.gap && page.cursor != w.study.cursor
    ensures Next(margin, w, Save(page, now)).study.cursor == page.cursor
  {
    PassFields(margin, w.study, page.episodes, page.identities, page.cursor, false, now);
  }

  lemma ExecTwo(margin: seq<real> -> real, w: World, a: Step, b: Step)
    ensures Legal(margin, w, [a] + ([b] + [])) <==> Allowed(w, a) && Allowed(Next(margin, w, a), b)
    ensures Exec(margin, w, [a] + ([b] + [])) == Next(margin, Next(margin, w, a), b)
  {
    assert ([a] + ([b] + []))[1..] == [b] + [] && ([b] + [])[1..] == [];
    var mid := Next(margin, w, a);
    assert Legal(margin, mid, [b] + []) <==> Allowed(mid, b);
    assert Exec(margin, mid, [b] + []) == Next(margin, mid, b);
  }

  /**
   * From every state of an open study without a gap and with a row ahead, reading one page and saving
   * it moves the cursor to a later row, however many rows are late, pruned or pending.
   */
  lemma ScanAdvances(margin: seq<real> -> real, w: World, limit: nat, now: int) returns (read: Step, save: Step)
    requires Inv(margin, w) && Open(w.study) && !GapFlag(w, w.study) && limit > 0
    requires exists p :: p in w.table && Beyond(p, w.study)
    ensures Legal(margin, w, [read, save])
    ensures var after := Exec(margin, w, [read, save]).study;
            after.cursor.AtRow? && after.cursor.row in w.table && Beyond(after.cursor.row, w.study)
  {
    var rows, es := ReadIsEnabled(w, limit);
    var page := Page(w.study, es, w.identities, PageCursor(w.study, rows), GapFlag(w, w.study));
    read, save := Read(rows, es, limit), Save(page, now);
    ExecTwo(margin, w, read, save);
    assert [read] + ([save] + []) == [read, save];
    assert rows[|rows| - 1] in rows;
    SaveMoves(margin, Next(margin, w, read), page, now);
  }

  /** A handover is recorded exactly for a promising study that was not handed over or given up before. */
  lemma MarkExactly(margin: seq<real> -> real, w: World, to: Contribution, artifact: Option<string>, now: int)
    ensures var h, after := w.study, Next(margin, w, Mark(to, artifact, now)).study;
            var allowed := to in {WaitingForChampion, HandedOff, Stale};
            if allowed && h.state == Promising && h.contribution !in {HandedOff, Stale}
            then after == h.(contribution := to, artifact := artifact, updatedAt := now)
            else after == h
  {
  }

  // ---------------------------------------------------------------- what a page holds

  /** The rows ahead of a study. */
  function Ahead(w: World): set<Position> {
    set p | p in w.table && Beyond(p, w.study)
  }

  lemma RowsAreDistinct(rows: seq<Position>)
    requires forall i, j :: 0 <= i < j < |rows| ==> Below(rows[i], rows[j])
    ensures Distinct(rows)
  {
  }

  /**
   * A page holds the first rows ahead, as many as there are up to its limit, each before every row
   * it leaves; a full study reads none.
   */
  lemma PageExactly(w: World, rows: seq<Position>, es: seq<Episode>, limit: nat)
    requires Allowed(w, Read(rows, es, limit))
    ensures var most := if |w.study.enrolled| < 180 then limit else 0;
            && Elements(rows) <= Ahead(w) && Distinct(rows) && |rows| == Min(most, |Ahead(w)|)
            && forall p, q :: p in rows && q in Ahead(w) && q !in rows ==> Below(p, q)
  {
    RowsAreDistinct(rows);
    DistinctSize(rows);
    SubsetSize(Elements(rows), Ahead(w));
    if Elements(rows) != Ahead(w) {
      var q :| q in Ahead(w) && q !in rows;
    }
    forall p, q | p in rows && q in Ahead(w) && q !in rows ensures Below(p, q) {
      var i :| 0 <= i < |rows| && rows[i] == p;
      assert Below(rows[|rows| - 1], q);
      assert i < |rows| - 1 ==> Below(rows[i], rows[|rows| - 1]);
    }
  }

  /** A pending enrolment can be missing from a page only because its row was pruned. */
  lemma MissingWasPruned(w: World, rows: seq<Position>, es: seq<Episode>, limit: nat, i: nat)
    requires Base(w) && Allowed(w, Read(rows, es, limit)) && i < |w.study.enrolled| && !w.study.enrolled[i].resolved
    requires FateOf(w.study.design, w.identities, es, w.study.enrolled[i]) == Missing
    ensures EnrolledAt(w.study.enrolled[i]) in w.pruned
  {
    var item := w.study.enrolled[i];
    var p := EnrolledAt(item);
    if p in w.table {
      assert AwaitedIn(w.study, p.id);
      FoundById(es, item.episode, w.table[p].episode);
    }
  }

  lemma {:induction false} FoundById(es: seq<Episode>, id: int, e: Episode)
    requires e in es && e.meta.id == id
    ensures ById(es, id).Some?
  {
    var n := |es| - 1;
    if es[n].meta.id != id {
      assert e in es[..n];
      FoundById(es[..n], id, e);
    }
  }
}
