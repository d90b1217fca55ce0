/** What every run of portfolio operations keeps. */
module PaperRuns {
  import opened Common
  import opened PaperModel

  // ---------------------------------------------------------------- double entry

  /** Debits minus credits of one transaction. */
  function NetOf(ledger: seq<Posting>, tx: Id): int {
    if ledger == [] then 0
    else
      var last := ledger[|ledger| - 1];
      NetOf(ledger[..|ledger| - 1], tx) + if last.tx == tx then last.entry.debit - last.entry.credit else 0
  }

  /** Debits minus credits of the whole ledger. */
  function Net(ledger: seq<Posting>): int {
    if ledger == [] then 0
    else Net(ledger[..|ledger| - 1]) + ledger[|ledger| - 1].entry.debit - ledger[|ledger| - 1].entry.credit
  }

  /** Debits equal credits in all, and in every single transaction; no amount is negative. */
  ghost predicate DoubleEntry(ledger: seq<Posting>) {
    && Net(ledger) == 0 && (forall tx :: NetOf(ledger, tx) == 0)
    && forall i :: 0 <= i < |ledger| ==> ledger[i].entry.debit >= 0 && ledger[i].entry.credit >= 0
  }

  lemma {:induction false} NetConcat(a: seq<Posting>, b: seq<Posting>, tx: Id)
    ensures Net(a + b) == Net(a) + Net(b)
    ensures NetOf(a + b, tx) == NetOf(a, tx) + NetOf(b, tx)
  {
    if b == [] {
      assert a + b == a;
    } else {
      assert (a + b)[..|a + b| - 1] == a + b[..|b| - 1];
      NetConcat(a, b[..|b| - 1], tx);
    }
  }

  lemma {:induction false} StampedNet(tx: Id, entries: seq<Entry>, other: Id)
    ensures Net(Stamped(tx, entries)) == Debits(entries) - Credits(entries)
    ensures NetOf(Stamped(tx, entries), other) == if other == tx then Debits(entries) - Credits(entries) else 0
    ensures |Stamped(tx, entries)| == |entries|
    ensures forall i :: 0 <= i < |entries| ==> Stamped(tx, entries)[i] == Posting(tx, entries[i])
  {
    if entries == [] {
    } else {
      StampedNet(tx, entries[..|entries| - 1], other);
      var s := Stamped(tx, entries);
      assert s[..|s| - 1] == Stamped(tx, entries[..|entries| - 1]);
    }
  }

  lemma AppendKeepsDoubleEntry(ledger: seq<Posting>, tx: Id, entries: seq<Entry>)
    requires DoubleEntry(ledger) && ValidEntries(entries)
    ensures DoubleEntry(ledger + Stamped(tx, entries))
  {
    forall other ensures NetOf(ledger + Stamped(tx, entries), other) == 0 && Net(ledger + Stamped(tx, entries)) == 0 {
      NetConcat(ledger, Stamped(tx, entries), other);
      StampedNet(tx, entries, other);
    }
    NetConcat(ledger, Stamped(tx, entries), tx);
    StampedNet(tx, entries, tx);
  }

  lemma OpeningIsValid(starting: int)
    requires starting > 0
    ensures ValidEntries(Opening(starting)) && Debits(Opening(starting)) == starting
  {
    var o := Opening(starting);
    PairSums(o[0], o[1]);
  }

  lemma PairSums(a: Entry, b: Entry)
    ensures Debits([a, b]) == a.debit + b.debit && Credits([a, b]) == a.credit + b.credit
  {
    assert [a, b][..1] == [a];
    assert [a][..0] == [];
    assert Debits([a]) == a.debit && Credits([a]) == a.credit;
  }

  lemma OpeningKeepsDoubleEntry(tx: Id, starting: int)
    requires starting > 0
    ensures DoubleEntry(Stamped(tx, Opening(starting)))
  {
    OpeningIsValid(starting);
    AppendKeepsDoubleEntry([], tx, Opening(starting));
    assert [] + Stamped(tx, Opening(starting)) == Stamped(tx, Opening(starting));
  }

  // ---------------------------------------------------------------- tables

  /** No order has two fills, and every fill has its order. */
  predicate FilledOnce(orders: map<Id, OrderRow>, fills: map<Id, Fill>) {
    && (forall f :: f in fills ==> fills[f].order in orders)
    && (forall f, g :: f in fills && g in fills && fills[f].order == fills[g].order ==> f == g)
  }

  predicate OnePerMint(positions: map<Id, Position>) {
    forall p, q :: p in positions && q in positions && positions[p].mint == positions[q].mint ==> p == q
  }

  // ---------------------------------------------------------------- seasons

  /** Seasons are numbered 1, 2, 3, ... in order under distinct names, and only the last can be current. */
  predicate SeasonsInOrder(seasons: seq<Season>) {
    && (forall i :: 0 <= i < |seasons| ==> seasons[i].number == i + 1 && seasons[i].starting > 0)
    && (forall i, j :: 0 <= i < j < |seasons| ==> seasons[i].id != seasons[j].id)
    && (forall i :: 0 <= i < |seasons| - 1 ==> !seasons[i].current)
  }

  predicate LastIsCurrent(seasons: seq<Season>, id: Id) {
    seasons != [] && seasons[|seasons| - 1].current && seasons[|seasons| - 1].id == id
  }

  /** Initialised exactly when there is a current season, which is the stored one. */
  predicate SeasonMatches(pf: Portfolio) {
    && SeasonsInOrder(pf.seasons)
    && (pf.initialised <==> AnyCurrent(pf.seasons))
    && (pf.initialised ==> pf.seasonId.Some? && LastIsCurrent(pf.seasons, pf.seasonId.value))
    && (!pf.initialised ==> pf.seasonId.None?)
  }

  lemma {:induction false} MaxIsLength(seasons: seq<Season>)
    requires forall i :: 0 <= i < |seasons| ==> seasons[i].number == i + 1
    ensures MaxNumber(seasons) == |seasons|
  {
    if seasons == [] {
    } else {
      MaxIsLength(seasons[..|seasons| - 1]);
    }
  }

  lemma InsertKeepsOrder(seasons: seq<Season>, id: Id, starting: int)
    requires SeasonsInOrder(seasons) && !AnyCurrent(seasons)
    requires InsertSeason(seasons, id, starting).Some? && starting > 0
    ensures var out := InsertSeason(seasons, id, starting).value;
            && SeasonsInOrder(out) && LastIsCurrent(out, id) && AnyCurrent(out)
            && out == seasons + [Season(id, |seasons| + 1, starting, true)]
  {
    MaxIsLength(seasons);
    var out := InsertSeason(seasons, id, starting).value;
    assert out[|seasons|].current;
    forall i, j | 0 <= i < j < |out| ensures out[i].id != out[j].id {
      assert i < |seasons| ==> out[i] == seasons[i];
    }
    forall i | 0 <= i < |out| - 1 ensures !out[i].current {
      assert out[i] == seasons[i];
    }
  }

  // ---------------------------------------------------------------- every run

  ghost predicate Valid(pf: Portfolio) {
    && DoubleEntry(pf.ledger) && FilledOnce(pf.orders, pf.fills) && OnePerMint(pf.positions) && SeasonMatches(pf)
  }

  lemma CommitKeeps(pf: Portfolio, o: Order, f: Fill, p: Position, entries: seq<Entry>)
    requires Valid(pf) && Committed(pf, o, f, p, entries).Some?
    ensures Valid(Committed(pf, o, f, p, entries).value)
  {
    var mid := Committed(pf, o, f, p, entries).value;
    AppendKeepsDoubleEntry(pf.ledger, f.id, entries);
    assert FilledOnce(mid.orders, mid.fills);
  }

  lemma CloseKeeps(pf: Portfolio, open: int, items: seq<Retired>)
    requires Valid(pf) && pf.initialised && Close(pf, open, items).Some?
    ensures var out := Close(pf, open, items).value;
            && DoubleEntry(out.ledger) && FilledOnce(out.orders, out.fills) && OnePerMint(out.positions)
            && SeasonsInOrder(out.seasons) && !AnyCurrent(out.seasons)
            && |out.seasons| == |pf.seasons|
  {
  }

  lemma InitialiseKeeps(pf: Portfolio, tx: Id, starting: int)
    requires Valid(pf) && Initialise(pf, tx, starting).Some?
    ensures Valid(Initialise(pf, tx, starting).value)
  {
    OpeningKeepsDoubleEntry(tx, starting);
    InsertKeepsOrder(pf.seasons, tx, starting);
  }

  lemma RolloverKeeps(pf: Portfolio, open: int, items: seq<Retired>, next: Id, starting: int)
    requires Valid(pf) && Rollover(pf, open, items, next, starting).Some?
    ensures Valid(Rollover(pf, open, items, next, starting).value)
  {
    CloseKeeps(pf, open, items);
    OpeningKeepsDoubleEntry(next, starting);
    InsertKeepsOrder(Close(pf, open, items).value.seasons, next, starting);
  }

  lemma ResetKeeps(pf: Portfolio, summary: Option<int>, items: seq<Retired>)
    requires Valid(pf) && Reset(pf, summary, items).Some?
    ensures Valid(Reset(pf, summary, items).value)
  {
    if pf.initialised {
      CloseKeeps(pf, summary.value, items);
    }
  }

  lemma NextKeeps(pf: Portfolio, c: Command)
    requires Valid(pf)
    ensures Valid(Next(pf, c))
  {
    if Try(pf, c).Some? {
      match c
      case DoInitialise(tx, minor) => InitialiseKeeps(pf, tx, minor);
      case DoOrder(o, ev) =>
      case DoLedger(tx, entries) => AppendKeepsDoubleEntry(pf.ledger, tx, entries);
      case DoBuy(o, f, p, entries, ev) => CommitKeeps(pf, o, f, p, entries);
      case DoSell(o, f, p, entries, pnl, ev) => CommitKeeps(pf, o, f, p, entries);
      case DoRollover(open, items, next, minor) => RolloverKeeps(pf, open, items, next, minor);
      case DoReset(summary, items) => ResetKeeps(pf, summary, items);
    }
  }

  /** Whatever was run: balanced books, single fills, one position per mint, one matching season. */
  lemma {:induction false} EveryRunIsValid(commands: seq<Command>)
    ensures Valid(Run(commands))
  {
    if commands == [] {
    } else {
      EveryRunIsValid(commands[..|commands| - 1]);
      NextKeeps(Run(commands[..|commands| - 1]), commands[|commands| - 1]);
    }
  }

  // ---------------------------------------------------------------- across a run

  predicate CommitsOrder(c: Command, order: Id) {
    (c.DoBuy? || c.DoSell?) && c.order.id == order
  }

  predicate EndsSeason(c: Command) {
    c.DoRollover? || c.DoReset?
  }

  /** The n-th command of a run succeeded. */
  predicate Succeeds(commands: seq<Command>, n: nat)
    requires n < |commands|
  {
    Try(Run(commands[..n]), commands[n]).Some?
  }

  lemma RunNext(commands: seq<Command>, n: nat)
    requires n < |commands|
    ensures Run(commands[..n + 1]) == Next(Run(commands[..n]), commands[n])
  {
    assert commands[..n + 1][..n] == commands[..n];
  }

  lemma CommitFills(pf: Portfolio, c: Command, order: Id)
    requires CommitsOrder(c, order) && Try(pf, c).Some?
    ensures !OrderFilled(pf.fills, order) && OrderFilled(Next(pf, c).fills, order)
  {
    assert c.fill.id in Next(pf, c).fills && Next(pf, c).fills[c.fill.id].order == order;
  }

  lemma FillsStay(pf: Portfolio, c: Command, order: Id)
    requires OrderFilled(pf.fills, order) && (Try(pf, c).None? || !EndsSeason(c))
    ensures OrderFilled(Next(pf, c).fills, order)
  {
    var f :| f in pf.fills && pf.fills[f].order == order;
    assert f in Next(pf, c).fills && Next(pf, c).fills[f].order == order;
  }

  /** No season ended between the two positions. */
  predicate SameSeason(commands: seq<Command>, start: nat, end: nat)
    requires start <= end <= |commands|
  {
    forall n :: start <= n < end ==> !(EndsSeason(commands[n]) && Succeeds(commands, n))
  }

  lemma {:induction false} FilledUntil(commands: seq<Command>, start: nat, end: nat, order: Id)
    requires start <= end <= |commands| && SameSeason(commands, start, end)
    requires OrderFilled(Run(commands[..start]).fills, order)
    ensures OrderFilled(Run(commands[..end]).fills, order)
    decreases end
  {
    if start < end {
      FilledUntil(commands, start, end - 1, order);
      RunNext(commands, end - 1);
      FillsStay(Run(commands[..end - 1]), commands[end - 1], order);
    }
  }

  /** Within a season no order is committed twice, even if it was saved as pending again. */
  lemma NoOrderFilledTwice(commands: seq<Command>, first: nat, second: nat, order: Id)
    requires first < second < |commands| && Succeeds(commands, first) && CommitsOrder(commands[first], order)
    requires CommitsOrder(commands[second], order) && SameSeason(commands, first, second)
    ensures !Succeeds(commands, second)
  {
    CommitFills(Run(commands[..first]), commands[first], order);
    RunNext(commands, first);
    FilledUntil(commands, first + 1, second, order);
    if Succeeds(commands, second) {
      CommitFills(Run(commands[..second]), commands[second], order);
    }
  }

  /** Later seasons extend the list; identity and number stay, and a completed row never changes. */
  predicate Extends(next: seq<Season>, before: seq<Season>) {
    && |before| <= |next|
    && forall i :: 0 <= i < |before| ==>
         next[i].(current := false) == before[i].(current := false) && (!before[i].current ==> next[i] == before[i])
  }

  lemma NextExtendsSeasons(pf: Portfolio, c: Command)
    requires Valid(pf)
    ensures Extends(Next(pf, c).seasons, pf.seasons)
  {
  }

  lemma {:induction false} SeasonHistoryIsPermanent(commands: seq<Command>, start: nat, end: nat)
    requires start <= end <= |commands|
    ensures Extends(Run(commands[..end]).seasons, Run(commands[..start]).seasons)
    decreases end
  {
    if start < end {
      SeasonHistoryIsPermanent(commands, start, end - 1);
      RunNext(commands, end - 1);
      EveryRunIsValid(commands[..end - 1]);
      NextExtendsSeasons(Run(commands[..end - 1]), commands[end - 1]);
    }
  }

  /** Debits minus credits of one account. */
  function Balance(ledger: seq<Posting>, account: Id): int {
    if ledger == [] then 0
    else
      var last := ledger[|ledger| - 1].entry;
      Balance(ledger[..|ledger| - 1], account) + if last.account == account then last.debit - last.credit else 0
  }

  lemma OpeningBalance(tx: Id, starting: int)
    ensures Balance(Stamped(tx, Opening(starting)), Id("cash")) == starting
    ensures Balance(Stamped(tx, Opening(starting)), Id("capital")) == -starting
  {
    var o := Opening(starting);
    StampedNet(tx, o, tx);
    var s := Stamped(tx, o);
    assert s == [Posting(tx, o[0]), Posting(tx, o[1])];
    assert s[..1] == [Posting(tx, o[0])] && s[..1][..0] == [];
    assert "cash"[1] != "capital"[1] || |"cash"| != |"capital"|;
    assert Balance(s[..1], Id("cash")) == starting && Balance(s[..1], Id("capital")) == 0;
  }

  /** A season that just began holds its whole bankroll in cash and nothing else. */
  lemma SeasonStartsClean(pf: Portfolio, c: Command)
    requires Valid(pf) && (c.DoRollover? || c.DoInitialise?) && Try(pf, c).Some?
    ensures var next := Next(pf, c);
            && Balance(next.ledger, Id("cash")) == c.minor && next.starting == c.minor && next.realised == 0
            && next.initialised && LastIsCurrent(next.seasons, if c.DoRollover? then c.next else c.tx)
            && |next.seasons| == |pf.seasons| + 1
            && (c.DoRollover? ==> next.orders == map[] && next.fills == map[] && next.positions == map[])
  {
    if c.DoRollover? {
      OpeningBalance(c.next, c.minor);
      CloseKeeps(pf, c.open, c.items);
      InsertKeepsOrder(Close(pf, c.open, c.items).value.seasons, c.next, c.minor);
    } else {
      OpeningBalance(c.tx, c.minor);
      InsertKeepsOrder(pf.seasons, c.tx, c.minor);
    }
  }
}
