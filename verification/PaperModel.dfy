/**
 * The paper portfolio: orders, fills, positions, a double-entry ledger and the seasons that
 * own them. Every operation either commits completely or raises and leaves nothing behind.
 */
module PaperModel {
  import opened Common

  datatype Id = Id(text: string)

  datatype Side = Buy | Sell

  datatype Status = Pending | Filled | Failed

  /** An order, a fill and a position as passed to a commit. */
  datatype Order = Order(
    id: Id, mint: Id, side: Side, status: Status, created: int, fillAfter: int, filledAt: Option<int>)

  /** A stored order: columns set when it is first saved, a status, and the latest full record. */
  datatype OrderRow = OrderRow(mint: Id, side: Side, created: int, status: Status, record: Order)

  datatype Snapshot = Snapshot(observedAt: int, venue: Id)

  datatype Fill = Fill(
    id: Id, order: Id, mint: Id, side: Side, filledAt: int, venue: Id, reserve: Option<Snapshot>,
    positionOpened: Option<int>)

  datatype Position = Position(id: Id, mint: Id, openedAt: int, entryFill: Id)

  datatype Entry = Entry(account: Id, debit: int, credit: int)

  datatype Posting = Posting(tx: Id, entry: Entry)

  datatype Season = Season(id: Id, number: int, starting: int, current: bool)

  /** An open position retired without a fill; a write-off needs confirmed evidence. */
  datatype Retired = Retired(position: Id, mint: Id, executed: bool, known: bool, writeOff: bool, confirmed: bool)

  datatype Portfolio = Portfolio(
    initialised: bool,
    seasonId: Option<Id>,
    starting: int,
    realised: int,
    orders: map<Id, OrderRow>,
    fills: map<Id, Fill>,
    positions: map<Id, Position>,
    ledger: seq<Posting>,
    seasons: seq<Season>,
    retired: set<(Id, Id)>)

  function Blank(): Portfolio {
    Portfolio(false, None, 0, 0, map[], map[], map[], [], [], {})
  }

  // ---------------------------------------------------------------- the ledger

  function Debits(entries: seq<Entry>): int {
    if entries == [] then 0 else Debits(entries[..|entries| - 1]) + entries[|entries| - 1].debit
  }

  function Credits(entries: seq<Entry>): int {
    if entries == [] then 0 else Credits(entries[..|entries| - 1]) + entries[|entries| - 1].credit
  }

  predicate ValidEntries(entries: seq<Entry>) {
    && entries != [] && Debits(entries) == Credits(entries)
    && forall i :: 0 <= i < |entries| ==> entries[i].debit >= 0 && entries[i].credit >= 0
  }

  function Stamped(tx: Id, entries: seq<Entry>): seq<Posting> {
    if entries == [] then []
    else Stamped(tx, entries[..|entries| - 1]) + [Posting(tx, entries[|entries| - 1])]
  }

  function Opening(starting: int): seq<Entry> {
    [Entry(Id("cash"), starting, 0), Entry(Id("capital"), 0, starting)]
  }

  // ---------------------------------------------------------------- fills

  predicate ReserveOk(f: Fill) {
    f.reserve.Some? ==> f.reserve.value.observedAt <= f.filledAt && f.reserve.value.venue == f.venue
  }

  predicate PositionOk(f: Fill, p: Position) {
    && p.mint == f.mint
    && (f.side.Buy? ==> p.entryFill == f.id && p.openedAt == f.filledAt)
    && (f.side.Sell? ==> p.openedAt <= f.filledAt && (f.positionOpened.Some? ==> f.positionOpened.value == p.openedAt))
  }

  predicate CommitOk(o: Order, f: Fill, p: Position) {
    && o.id == f.order && o.mint == f.mint && o.side == f.side && o.status.Filled?
    && o.created <= o.fillAfter && o.filledAt == Some(f.filledAt) && o.fillAfter <= f.filledAt
    && ReserveOk(f) && PositionOk(f, p)
  }

  predicate PendingOrder(pf: Portfolio, id: Id) {
    id in pf.orders && pf.orders[id].status.Pending?
  }

  predicate OrderFilled(fills: map<Id, Fill>, order: Id) {
    exists f :: f in fills && fills[f].order == order
  }

  predicate MintHeld(positions: map<Id, Position>, mint: Id) {
    exists p :: p in positions && positions[p].mint == mint
  }

  /** The stored row after an update: only status and record change. */
  function Rewritten(row: OrderRow, o: Order): OrderRow {
    row.(status := o.status, record := o)
  }

  function NewRow(o: Order): OrderRow {
    OrderRow(o.mint, o.side, o.created, o.status, o)
  }

  /** The part common to both commits; none when a constraint is violated. */
  function Committed(pf: Portfolio, o: Order, f: Fill, p: Position, entries: seq<Entry>): Option<Portfolio> {
    if !ValidEntries(entries) || !CommitOk(o, f, p) || !PendingOrder(pf, o.id) then None
    else if f.id in pf.fills || OrderFilled(pf.fills, f.order) then None
    else
      Some(pf.(orders := pf.orders[o.id := Rewritten(pf.orders[o.id], o)], fills := pf.fills[f.id := f],
               ledger := pf.ledger + Stamped(f.id, entries)))
  }

  function CommitBuy(
    pf: Portfolio, o: Order, f: Fill, p: Position, entries: seq<Entry>, evidence: bool): Option<Portfolio>
  {
    var mid := Committed(pf, o, f, p, entries);
    if mid.None? || p.id in pf.positions || MintHeld(pf.positions, p.mint) || !evidence then None
    else Some(mid.value.(positions := pf.positions[p.id := p]))
  }

  function CommitSell(
    pf: Portfolio, o: Order, f: Fill, p: Position, entries: seq<Entry>, realised: int, evidence: bool
  ): Option<Portfolio>
  {
    var mid := Committed(pf, o, f, p, entries);
    if mid.None? || p.id !in pf.positions || !evidence then None
    else Some(mid.value.(positions := pf.positions - {p.id}, realised := realised))
  }

  /** Insert an order, or overwrite the status of an existing one. */
  function SaveOrder(pf: Portfolio, o: Order, evidence: bool): Option<Portfolio> {
    if !evidence then None
    else
      var row := if o.id in pf.orders then Rewritten(pf.orders[o.id], o) else NewRow(o);
      Some(pf.(orders := pf.orders[o.id := row]))
  }

  function AppendLedger(pf: Portfolio, tx: Id, entries: seq<Entry>): Option<Portfolio> {
    if !ValidEntries(entries) then None else Some(pf.(ledger := pf.ledger + Stamped(tx, entries)))
  }

  // ---------------------------------------------------------------- seasons

  function MaxNumber(seasons: seq<Season>): int {
    if seasons == [] then 0 else
      var rest := MaxNumber(seasons[..|seasons| - 1]);
      if seasons[|seasons| - 1].number > rest then seasons[|seasons| - 1].number else rest
  }

  predicate HasSeason(seasons: seq<Season>, id: Id) {
    exists i :: 0 <= i < |seasons| && seasons[i].id == id
  }

  predicate AnyCurrent(seasons: seq<Season>) {
    exists i :: 0 <= i < |seasons| && seasons[i].current
  }

  /** A new current season; refused beside another current one or under a used identifier. */
  function InsertSeason(seasons: seq<Season>, id: Id, starting: int): Option<seq<Season>> {
    if AnyCurrent(seasons) then
      if exists i :: 0 <= i < |seasons| && seasons[i].current && seasons[i].id == id then Some(seasons) else None
    else if HasSeason(seasons, id) then None
    else Some(seasons + [Season(id, MaxNumber(seasons) + 1, starting, true)])
  }

  function Initialise(pf: Portfolio, tx: Id, starting: int): Option<Portfolio> {
    if starting <= 0 || pf.initialised || pf.ledger != [] then None
    else
      var seasons := InsertSeason(pf.seasons, tx, starting);
      if seasons.None? then None
      else
        Some(pf.(initialised := true, seasonId := Some(tx), starting := starting, realised := 0,
                 ledger := Stamped(tx, Opening(starting)), seasons := seasons.value))
  }

  predicate InventoryOk(open: int, items: seq<Retired>) {
    && open == |items|
    && (forall i :: 0 <= i < |items| ==>
          && items[i].position.text != "" && items[i].mint.text != "" && !items[i].executed && items[i].known
          && (items[i].writeOff ==> items[i].confirmed))
    && (forall i, j :: 0 <= i < j < |items| ==>
          items[i].position != items[j].position && items[i].mint != items[j].mint)
  }

  /** Complete the current season of this identifier; none when there is no such row. */
  function Archived(seasons: seq<Season>, id: Id): Option<seq<Season>> {
    if seasons == [] then None
    else
      var last, rest := seasons[|seasons| - 1], seasons[..|seasons| - 1];
      if last.id == id && last.current then Some(rest + [last.(current := false)])
      else
        var earlier := Archived(rest, id);
        if earlier.None? then None else Some(earlier.value + [last])
  }

  function Retirements(season: Id, items: seq<Retired>): set<(Id, Id)> {
    set i | 0 <= i < |items| :: (season, items[i].position)
  }

  /** End the active season and clear its virtual tables. */
  function Close(pf: Portfolio, open: int, items: seq<Retired>): Option<Portfolio> {
    if pf.seasonId.None? || pf.seasonId.value.text == "" || !InventoryOk(open, items) then None
    else
      var seasons := Archived(pf.seasons, pf.seasonId.value);
      var retired := Retirements(pf.seasonId.value, items);
      if seasons.None? || !(retired !! pf.retired) then None
      else Some(Cleared(pf).(seasons := seasons.value, retired := pf.retired + retired))
  }

  function Cleared(pf: Portfolio): Portfolio {
    pf.(orders := map[], fills := map[], positions := map[], ledger := [])
  }

  function Rollover(pf: Portfolio, open: int, items: seq<Retired>, next: Id, starting: int): Option<Portfolio> {
    if starting <= 0 || !pf.initialised then None
    else
      var closed := Close(pf, open, items);
      if closed.None? then None
      else
        var seasons := InsertSeason(closed.value.seasons, next, starting);
        if seasons.None? then None
        else
          Some(closed.value.(initialised := true, seasonId := Some(next), starting := starting, realised := 0,
                             ledger := Stamped(next, Opening(starting)), seasons := seasons.value))
  }

  /** Without a summary an active season cannot be reset; an inactive portfolio is just cleared. */
  function Reset(pf: Portfolio, summary: Option<int>, items: seq<Retired>): Option<Portfolio> {
    var closed :=
      if !pf.initialised then Some(Cleared(pf))
      else if summary.None? then None
      else Close(pf, summary.value, items);
    if closed.None? then None
    else Some(closed.value.(initialised := false, seasonId := None, starting := 0, realised := 0))
  }

  // ---------------------------------------------------------------- commands

  datatype Command =
    | DoInitialise(tx: Id, minor: int)
    | DoOrder(order: Order, evidence: bool)
    | DoLedger(tx: Id, entries: seq<Entry>)
    | DoBuy(order: Order, fill: Fill, position: Position, entries: seq<Entry>, evidence: bool)
    | DoSell(order: Order, fill: Fill, position: Position, entries: seq<Entry>, pnl: int, evidence: bool)
    | DoRollover(open: int, items: seq<Retired>, next: Id, minor: int)
    | DoReset(summary: Option<int>, items: seq<Retired>)

  function Try(pf: Portfolio, c: Command): Option<Portfolio> {
    match c
    case DoInitialise(tx, minor) => Initialise(pf, tx, minor)
    case DoOrder(o, ev) => SaveOrder(pf, o, ev)
    case DoLedger(tx, entries) => AppendLedger(pf, tx, entries)
    case DoBuy(o, f, p, entries, ev) => CommitBuy(pf, o, f, p, entries, ev)
    case DoSell(o, f, p, entries, pnl, ev) => CommitSell(pf, o, f, p, entries, pnl, ev)
    case DoRollover(open, items, next, minor) => Rollover(pf, open, items, next, minor)
    case DoReset(summary, items) => Reset(pf, summary, items)
  }

  /** A raised operation leaves the state as it was. */
  function Next(pf: Portfolio, c: Command): Portfolio {
    var out := Try(pf, c);
    if out.Some? then out.value else pf
  }

  function Run(commands: seq<Command>): Portfolio {
    if commands == [] then Blank() else Next(Run(commands[..|commands| - 1]), commands[|commands| - 1])
  }
}
