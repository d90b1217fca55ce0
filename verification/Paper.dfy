/**
 * The portfolio tables as one mutable database. Each operation writes table by table, as its
 * transaction does, and undoes everything when a later step raises.
 */
module Paper {
  import opened Common
  import opened PaperModel

  class PaperDatabase {
    var initialised: bool
    var seasonId: Option<Id>
    var starting: int
    var realised: int
    var orders: map<Id, OrderRow>
    var fills: map<Id, Fill>
    var positions: map<Id, Position>
    var ledger: seq<Posting>
    var seasons: seq<Season>
    var retired: set<(Id, Id)>

    function View(): Portfolio
      reads this
    {
      Portfolio(initialised, seasonId, starting, realised, orders, fills, positions, ledger, seasons, retired)
    }

    constructor ()
      ensures View() == Blank()
    {
      initialised, seasonId, starting, realised := false, None, 0, 0;
      orders, fills, positions, ledger, seasons, retired := map[], map[], map[], [], [], {};
    }

    /** Put back a saved state: what the end of a failed transaction does. */
    method Rollback(saved: Portfolio)
      modifies this
      ensures View() == saved
    {
      initialised, seasonId, starting, realised := saved.initialised, saved.seasonId, saved.starting, saved.realised;
      orders, fills, positions := saved.orders, saved.fills, saved.positions;
      ledger, seasons, retired := saved.ledger, saved.seasons, saved.retired;
    }

    /** Post a balanced list of entries under one transaction, one row at a time. */
    method Post(tx: Id, entries: seq<Entry>)
      modifies this`ledger
      ensures ledger == old(ledger) + Stamped(tx, entries)
    {
      for i := 0 to |entries|
        invariant ledger == old(ledger) + Stamped(tx, entries[..i])
      {
        assert entries[..i + 1][..i] == entries[..i];
        ledger := ledger + [Posting(tx, entries[i])];
      }
      assert entries[..|entries|] == entries;
    }

    /** The updates shared by both commits; `ok` is false when one of them raised midway. */
    method WriteFill(o: Order, f: Fill, entries: seq<Entry>) returns (ok: bool)
      modifies this`orders, this`fills, this`ledger
      ensures ok == (PendingOrder(old(View()), o.id) && f.id !in old(fills) && !OrderFilled(old(fills), f.order))
      ensures ok ==>
                && orders == old(orders)[o.id := Rewritten(old(orders)[o.id], o)] && fills == old(fills)[f.id := f]
                && ledger == old(ledger) + Stamped(f.id, entries)
    {
      if o.id !in orders || !orders[o.id].status.Pending? {
        return false;
      }
      orders := orders[o.id := Rewritten(orders[o.id], o)];
      if f.id in fills || OrderFilled(fills, f.order) {
        return false;
      }
      fills := fills[f.id := f];
      Post(f.id, entries);
      ok := true;
    }

    method CommitBuyFill(o: Order, f: Fill, p: Position, entries: seq<Entry>, evidence: bool) returns (ok: bool)
      modifies this
      ensures ok == Try(old(View()), DoBuy(o, f, p, entries, evidence)).Some?
      ensures View() == Next(old(View()), DoBuy(o, f, p, entries, evidence))
    {
      if !ValidEntries(entries) || !CommitOk(o, f, p) {
        return false;
      }
      var saved := View();
      ok := WriteFill(o, f, entries);
      if ok {
        if p.id in positions || MintHeld(positions, p.mint) || !evidence {
          ok := false;
        } else {
          positions := positions[p.id := p];
        }
      }
      if !ok {
        Rollback(saved);
      }
    }

    method CommitSellFill(o: Order, f: Fill, p: Position, entries: seq<Entry>, pnl: int, evidence: bool)
      returns (ok: bool)
      modifies this
      ensures ok == Try(old(View()), DoSell(o, f, p, entries, pnl, evidence)).Some?
      ensures View() == Next(old(View()), DoSell(o, f, p, entries, pnl, evidence))
    {
      if !ValidEntries(entries) || !CommitOk(o, f, p) {
        return false;
      }
      var saved := View();
      ok := WriteFill(o, f, entries);
      if ok {
        ok := p.id in positions && evidence;
        positions := positions - {p.id};
        realised := pnl;
      }
      if !ok {
        Rollback(saved);
      }
    }

    method SaveOrder(o: Order, evidence: bool) returns (ok: bool)
      modifies this
      ensures ok == evidence && View() == Next(old(View()), DoOrder(o, evidence))
    {
      var saved := View();
      orders := orders[o.id := if o.id in orders then Rewritten(orders[o.id], o) else NewRow(o)];
      ok := evidence;
      if !ok {
        Rollback(saved);
      }
    }

    method AppendLedger(tx: Id, entries: seq<Entry>) returns (ok: bool)
      modifies this`ledger
      ensures ok == ValidEntries(entries) && View() == Next(old(View()), DoLedger(tx, entries))
    {
      ok := ValidEntries(entries);
      if ok {
        Post(tx, entries);
      }
    }

    /** Insert the one active season; a second active one or a used identifier raises. */
    method InsertCurrentSeason(id: Id, minor: int) returns (ok: bool)
      modifies this`seasons
      ensures ok == InsertSeason(old(seasons), id, minor).Some?
      ensures ok ==> seasons == InsertSeason(old(seasons), id, minor).value
    {
      if AnyCurrent(seasons) {
        ok := exists i :: 0 <= i < |seasons| && seasons[i].current && seasons[i].id == id;
        return;
      }
      if HasSeason(seasons, id) {
        return false;
      }
      seasons := seasons + [Season(id, MaxNumber(seasons) + 1, minor, true)];
      ok := true;
    }

    /** Make a new season the active one, with its bankroll as the only postings. */
    method OpenSeason(id: Id, minor: int) returns (ok: bool)
      requires ledger == []
      modifies this
      ensures ok == InsertSeason(old(seasons), id, minor).Some?
      ensures ok ==>
                View() == old(View()).(initialised := true, seasonId := Some(id), starting := minor, realised := 0,
                                       ledger := Stamped(id, Opening(minor)),
                                       seasons := InsertSeason(old(seasons), id, minor).value)
    {
      Post(id, Opening(minor));
      assert [] + Stamped(id, Opening(minor)) == Stamped(id, Opening(minor));
      initialised, seasonId, starting, realised := true, Some(id), minor, 0;
      ok := InsertCurrentSeason(id, minor);
    }

    method InitialisePortfolio(tx: Id, minor: int) returns (ok: bool)
      modifies this
      ensures ok == Try(old(View()), DoInitialise(tx, minor)).Some?
      ensures View() == Next(old(View()), DoInitialise(tx, minor))
    {
      if minor <= 0 || initialised || ledger != [] {
        return false;
      }
      var saved := View();
      ok := OpenSeason(tx, minor);
      if !ok {
        Rollback(saved);
      }
    }

    /** Archive the stored season and clear the virtual tables; false when a step raised. */
    method CloseSeason(open: int, items: seq<Retired>) returns (ok: bool)
      modifies this
      ensures ok == Close(old(View()), open, items).Some?
      ensures ok ==> View() == Close(old(View()), open, items).value
    {
      if seasonId.None? || seasonId.value.text == "" || !InventoryOk(open, items) {
        return false;
      }
      var archived, records := Archived(seasons, seasonId.value), Retirements(seasonId.value, items);
      if archived.None? || !(records !! retired) {
        return false;
      }
      seasons, retired := archived.value, retired + records;
      orders, fills, positions, ledger := map[], map[], map[], [];
      ok := true;
    }

    method RolloverPaperState(open: int, items: seq<Retired>, next: Id, minor: int) returns (ok: bool)
      modifies this
      ensures ok == Try(old(View()), DoRollover(open, items, next, minor)).Some?
      ensures View() == PaperModel.Next(old(View()), DoRollover(open, items, next, minor))
    {
      if minor <= 0 || !initialised {
        return false;
      }
      var saved := View();
      ok := CloseSeason(open, items);
      if ok {
        ok := OpenSeason(next, minor);
      }
      if !ok {
        Rollback(saved);
      }
    }

    method ResetPaperState(summary: Option<int>, items: seq<Retired>) returns (ok: bool)
      modifies this
      ensures ok == Try(old(View()), DoReset(summary, items)).Some?
      ensures View() == PaperModel.Next(old(View()), DoReset(summary, items))
    {
      if initialised && summary.None? {
        return false;
      }
      var saved := View();
      ok := ClearSeason(if initialised then summary.value else 0, items);
      if ok {
        initialised, seasonId, starting, realised := false, None, 0, 0;
      } else {
        Rollback(saved);
      }
    }

    /** An active season is archived first; the virtual tables end up empty either way. */
    method ClearSeason(open: int, items: seq<Retired>) returns (ok: bool)
      modifies this
      ensures old(initialised) ==>
                ok == Close(old(View()), open, items).Some? && (ok ==> View() == Close(old(View()), open, items).value)
      ensures !old(initialised) ==> ok && View() == Cleared(old(View()))
    {
      if initialised {
        ok := CloseSeason(open, items);
      } else {
        orders, fills, positions, ledger := map[], map[], map[], [];
        ok := true;
      }
    }
  }
}
