/** When a season can begin, end and be reset, and what its end leaves behind. */
module PaperSeasons {
  import opened Common
  import opened PaperModel
  import opened PaperRuns

  /** The season list with its last row completed. */
  function Completed(seasons: seq<Season>): seq<Season>
    requires seasons != []
  {
    seasons[..|seasons| - 1] + [seasons[|seasons| - 1].(current := false)]
  }

  predicate NewName(seasons: seq<Season>, id: Id) {
    forall i :: 0 <= i < |seasons| ==> seasons[i].id != id
  }

  /**
   * The retired positions account for every open one: named, without an executed sell, of known
   * value or a confirmed write-off, each position and mint once.
   */
  predicate AllRetired(open: int, items: seq<Retired>) {
    && |items| == open
    && (forall r :: r in items ==>
          r.position.text != "" && r.mint.text != "" && r.known && !r.executed && (r.confirmed || !r.writeOff))
    && Distinct(seq(|items|, i requires 0 <= i < |items| => items[i].position))
    && Distinct(seq(|items|, i requires 0 <= i < |items| => items[i].mint))
  }

  /** The positions newly recorded as retired with the season. */
  function RetiredWith(season: Id, items: seq<Retired>): set<(Id, Id)> {
    set r | r in items :: (season, r.position)
  }

  lemma AllRetiredIs(open: int, items: seq<Retired>)
    ensures AllRetired(open, items) == InventoryOk(open, items)
  {
    var positions := seq(|items|, i requires 0 <= i < |items| => items[i].position);
    var mints := seq(|items|, i requires 0 <= i < |items| => items[i].mint);
    if Distinct(positions) && Distinct(mints) {
      forall i, j | 0 <= i < j < |items|
        ensures items[i].position != items[j].position && items[i].mint != items[j].mint
      {
        assert positions[i] != positions[j] && mints[i] != mints[j];
      }
    }
  }

  lemma RetiredWithIs(season: Id, items: seq<Retired>)
    ensures RetiredWith(season, items) == Retirements(season, items)
  {
    forall r | r in items ensures (season, r.position) in Retirements(season, items) {
      var i :| 0 <= i < |items| && items[i] == r;
    }
  }

  /** The last row is the current one, so it is the row that is completed. */
  lemma ArchivedIs(seasons: seq<Season>, id: Id)
    requires LastIsCurrent(seasons, id)
    ensures Archived(seasons, id) == Some(Completed(seasons))
  {
  }

  lemma NotAnyCurrent(seasons: seq<Season>)
    requires seasons != [] && forall i :: 0 <= i < |seasons| - 1 ==> !seasons[i].current
    ensures !AnyCurrent(Completed(seasons))
  {
  }

  lemma InsertIs(seasons: seq<Season>, id: Id, starting: int)
    requires SeasonsInOrder(seasons) && !AnyCurrent(seasons)
    ensures InsertSeason(seasons, id, starting).Some? <==> NewName(seasons, id)
    ensures NewName(seasons, id) ==>
              InsertSeason(seasons, id, starting).value == seasons + [Season(id, |seasons| + 1, starting, true)]
  {
    MaxIsLength(seasons);
  }

  lemma CloseIs(pf: Portfolio, open: int, items: seq<Retired>)
    requires Valid(pf) && pf.initialised
    ensures Close(pf, open, items).Some? <==>
              && pf.seasonId.value.text != "" && AllRetired(open, items)
              && RetiredWith(pf.seasonId.value, items) !! pf.retired
    ensures Close(pf, open, items).Some? ==>
              var out := Close(pf, open, items).value;
              && out.seasons == Completed(pf.seasons)
              && out.retired == pf.retired + RetiredWith(pf.seasonId.value, items)
              && out.orders == map[] && out.fills == map[] && out.positions == map[] && out.ledger == []
              && out.initialised == pf.initialised && out.starting == pf.starting && out.realised == pf.realised
  {
    ArchivedIs(pf.seasons, pf.seasonId.value);
    AllRetiredIs(open, items);
    RetiredWithIs(pf.seasonId.value, items);
  }

  lemma CompletedKeepsNames(seasons: seq<Season>, id: Id)
    requires seasons != []
    ensures NewName(Completed(seasons), id) == NewName(seasons, id)
    ensures |Completed(seasons)| == |seasons|
  {
    var done := Completed(seasons);
    assert forall i :: 0 <= i < |seasons| ==> done[i].id == seasons[i].id;
    if NewName(done, id) {
      forall i | 0 <= i < |seasons| ensures seasons[i].id != id {
        assert done[i].id != id;
      }
    }
  }

  /** A first season begins exactly with a positive bankroll, an untouched ledger and a new name. */
  lemma InitialiseSucceedsExactly(commands: seq<Command>, tx: Id, minor: int)
    ensures var pf := Run(commands);
            Try(pf, DoInitialise(tx, minor)).Some? <==>
              minor > 0 && !pf.initialised && pf.ledger == [] && NewName(pf.seasons, tx)
  {
    EveryRunIsValid(commands);
    var pf := Run(commands);
    if !pf.initialised {
      InsertIs(pf.seasons, tx, minor);
    }
  }

  /** The season list after a rollover. */
  lemma NextSeason(seasons: seq<Season>, next: Id, minor: int)
    requires SeasonsInOrder(seasons) && seasons != []
    ensures InsertSeason(Completed(seasons), next, minor).Some? <==> NewName(seasons, next)
    ensures NewName(seasons, next) ==>
              InsertSeason(Completed(seasons), next, minor).value
              == Completed(seasons) + [Season(next, |seasons| + 1, minor, true)]
  {
    NotAnyCurrent(seasons);
    CompletedKeepsNames(seasons, next);
    CompletedInOrder(seasons);
    InsertIs(Completed(seasons), next, minor);
  }

  lemma RolloverOnce(pf: Portfolio, open: int, items: seq<Retired>, next: Id, minor: int)
    requires Valid(pf) && pf.initialised
    ensures Rollover(pf, open, items, next, minor).Some? <==>
              && minor > 0 && NewName(pf.seasons, next) && pf.seasonId.value.text != ""
              && AllRetired(open, items) && RetiredWith(pf.seasonId.value, items) !! pf.retired
    ensures Rollover(pf, open, items, next, minor).Some? ==>
              var after := Rollover(pf, open, items, next, minor).value;
              && after.seasonId == Some(next)
              && after.seasons == Completed(pf.seasons) + [Season(next, |pf.seasons| + 1, minor, true)]
              && after.retired == pf.retired + RetiredWith(pf.seasonId.value, items)
  {
    CloseIs(pf, open, items);
    NextSeason(pf.seasons, next, minor);
  }

  /**
   * A rollover succeeds exactly when a season runs, the next bankroll is positive and its name
   * new, and every open position is accounted for and was not retired in this season before.
   */
  lemma RolloverSucceedsExactly(commands: seq<Command>, open: int, items: seq<Retired>, next: Id, minor: int)
    ensures var pf := Run(commands);
            Try(pf, DoRollover(open, items, next, minor)).Some? <==>
              && minor > 0 && pf.initialised && NewName(pf.seasons, next)
              && pf.seasonId.Some? && pf.seasonId.value.text != ""
              && AllRetired(open, items) && RetiredWith(pf.seasonId.value, items) !! pf.retired
  {
    EveryRunIsValid(commands);
    var pf := Run(commands);
    if pf.initialised {
      RolloverOnce(pf, open, items, next, minor);
    }
  }

  lemma CompletedInOrder(seasons: seq<Season>)
    requires SeasonsInOrder(seasons) && seasons != []
    ensures SeasonsInOrder(Completed(seasons))
  {
    var done := Completed(seasons);
    forall i, j | 0 <= i < j < |done| ensures done[i].id != done[j].id {
      assert done[i].id == seasons[i].id && done[j].id == seasons[j].id;
    }
  }

  /** It completes the running season, records its retired positions for good and opens the next number. */
  lemma RolloverDoes(commands: seq<Command>, open: int, items: seq<Retired>, next: Id, minor: int)
    requires Try(Run(commands), DoRollover(open, items, next, minor)).Some?
    ensures var pf, after := Run(commands), Next(Run(commands), DoRollover(open, items, next, minor));
            && pf.seasons != [] && pf.seasonId.Some? && after.seasonId == Some(next)
            && after.seasons == Completed(pf.seasons) + [Season(next, |pf.seasons| + 1, minor, true)]
            && after.retired == pf.retired + RetiredWith(pf.seasonId.value, items)
  {
    EveryRunIsValid(commands);
    RolloverOnce(Run(commands), open, items, next, minor);
  }

  /**
   * A reset succeeds exactly when no season runs or the one that runs is accounted for. It empties
   * the portfolio; a running season is completed and its retired positions are recorded.
   */
  lemma ResetExactly(commands: seq<Command>, summary: Option<int>, items: seq<Retired>)
    ensures var pf := Run(commands);
            var out := Try(pf, DoReset(summary, items));
            && (out.Some? <==>
                  pf.initialised ==>
                    && summary.Some? && pf.seasonId.Some? && pf.seasonId.value.text != ""
                    && AllRetired(summary.value, items)
                    && RetiredWith(pf.seasonId.value, items) !! pf.retired)
            && (out.Some? ==>
                  out.value == Portfolio(
                    false, None, 0, 0, map[], map[], map[], [],
                    if pf.initialised && pf.seasons != [] then Completed(pf.seasons) else pf.seasons,
                    if pf.initialised && pf.seasonId.Some? then pf.retired + RetiredWith(pf.seasonId.value, items)
                    else pf.retired))
  {
    EveryRunIsValid(commands);
    var pf := Run(commands);
    if pf.initialised && summary.Some? {
      CloseIs(pf, summary.value, items);
    }
  }
}
