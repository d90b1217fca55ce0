/** When each operation on the portfolio succeeds, and what a run of them leaves behind. */
module PaperTrades {
  import opened Common
  import opened PaperModel
  import opened PaperRuns

  // ---------------------------------------------------------------- commits

  predicate IsCommit(c: Command) {
    c.DoBuy? || c.DoSell?
  }

  /** A filled order, its receipt and its position tell the same trade, in order of time. */
  predicate SameTrade(o: Order, f: Fill, p: Position) {
    && f.order == o.id && o.mint == f.mint == p.mint && o.side == f.side && o.status == Filled
    && o.created <= o.fillAfter <= f.filledAt && o.filledAt == Some(f.filledAt)
    && (f.reserve == None || (f.reserve.value.venue == f.venue && f.reserve.value.observedAt <= f.filledAt))
    && match f.side
       case Buy => p.openedAt == f.filledAt && p.entryFill == f.id
       case Sell =>
         p.openedAt <= f.filledAt && (f.positionOpened == None || f.positionOpened == Some(p.openedAt))
  }

  predicate Balanced(entries: seq<Entry>) {
    && |entries| > 0 && Debits(entries) - Credits(entries) == 0
    && forall e :: e in entries ==> e.debit >= 0 && e.credit >= 0
  }

  /** The order is waiting and neither it nor the receipt was used. */
  predicate Fresh(pf: Portfolio, o: Order, f: Fill) {
    && o.id in pf.orders && pf.orders[o.id].status == Pending && f.id !in pf.fills
    && forall g :: g in pf.fills ==> pf.fills[g].order != o.id
  }

  /**
   * A commit succeeds exactly when its records tell the same trade, its entries balance, its
   * order waits unused, and its position is a new one of an unheld mint (a buy) or an open one (a sell).
   */
  lemma CommitSucceedsExactly(pf: Portfolio, c: Command)
    requires IsCommit(c)
    ensures Try(pf, c).Some? <==>
              && SameTrade(c.order, c.fill, c.position) && Balanced(c.entries)
              && Fresh(pf, c.order, c.fill) && c.evidence
              && if c.DoBuy? then
                   forall p :: p in pf.positions ==> p != c.position.id && pf.positions[p].mint != c.position.mint
                 else c.position.id in pf.positions
  {
    BalancedIs(c.entries);
    SameTradeIs(c.order, c.fill, c.position);
    if c.DoBuy? {
      FreeMint(pf, c.position);
    }
    FreshOrder(pf, c.order, c.fill);
  }

  lemma BalancedIs(entries: seq<Entry>)
    ensures Balanced(entries) == ValidEntries(entries)
  {
    assert forall i :: 0 <= i < |entries| ==> entries[i] in entries;
  }

  lemma SameTradeIs(o: Order, f: Fill, p: Position)
    ensures SameTrade(o, f, p) == CommitOk(o, f, p)
  {
    assert f.reserve.None? || f.reserve == Some(f.reserve.value);
    assert f.positionOpened.None? || f.positionOpened == Some(f.positionOpened.value);
  }

  lemma FreshOrder(pf: Portfolio, o: Order, f: Fill)
    ensures f.order == o.id ==>
              (Fresh(pf, o, f) <==> PendingOrder(pf, o.id) && f.id !in pf.fills && !OrderFilled(pf.fills, f.order))
  {
  }

  lemma FreeMint(pf: Portfolio, p: Position)
    ensures (forall q :: q in pf.positions ==> q != p.id && pf.positions[q].mint != p.mint)
            <==> p.id !in pf.positions && !MintHeld(pf.positions, p.mint)
  {
  }

  /** A sell closes its position and no other, and stores the result that was passed. */
  lemma SellCloses(pf: Portfolio, c: Command)
    requires c.DoSell? && Try(pf, c).Some?
    ensures var next := Next(pf, c);
            && c.position.id in pf.positions && c.position.id !in next.positions && next.realised == c.pnl
            && next.positions.Keys == pf.positions.Keys - {c.position.id}
            && (forall q :: q in next.positions ==> next.positions[q] == pf.positions[q])
            && next.fills.Keys == pf.fills.Keys + {c.fill.id} && next.fills[c.fill.id] == c.fill
  {
  }

  /** A buy opens its position and touches no other. */
  lemma BuyOpens(pf: Portfolio, c: Command)
    requires c.DoBuy? && Try(pf, c).Some?
    ensures var next := Next(pf, c);
            && c.position.id !in pf.positions && next.realised == pf.realised
            && next.positions.Keys == pf.positions.Keys + {c.position.id} && next.positions[c.position.id] == c.position
            && (forall q :: q in pf.positions ==> next.positions[q] == pf.positions[q])
            && next.fills.Keys == pf.fills.Keys + {c.fill.id} && next.fills[c.fill.id] == c.fill
  {
  }

  // ---------------------------------------------------------------- histories

  /** The n-th command is of this kind and succeeded. */
  predicate Did(commands: seq<Command>, n: nat, what: Command -> bool) {
    n < |commands| && what(commands[n]) && Succeeds(commands, n)
  }

  predicate NotSince(commands: seq<Command>, n: nat, undoes: Command -> bool) {
    forall m: nat :: n < m < |commands| ==> !Did(commands, m, undoes)
  }

  /** Done, and not undone since. */
  ghost predicate Stands(commands: seq<Command>, does: Command -> bool, undoes: Command -> bool) {
    exists n: nat :: Did(commands, n, does) && NotSince(commands, n, undoes)
  }

  lemma PrefixDid(commands: seq<Command>, n: nat, what: Command -> bool)
    requires n < |commands| - 1
    ensures Did(commands[..|commands| - 1], n, what) == Did(commands, n, what)
  {
    assert commands[..|commands| - 1][..n] == commands[..n];
  }

  lemma PrefixNotSince(commands: seq<Command>, n: nat, undoes: Command -> bool)
    requires n < |commands| - 1
    ensures NotSince(commands, n, undoes)
            <==> NotSince(commands[..|commands| - 1], n, undoes) && !Did(commands, |commands| - 1, undoes)
  {
    var before := commands[..|commands| - 1];
    forall m: nat | n < m < |before| ensures Did(before, m, undoes) == Did(commands, m, undoes) {
      PrefixDid(commands, m, undoes);
    }
  }

  lemma StandsNext(commands: seq<Command>, does: Command -> bool, undoes: Command -> bool)
    requires commands != []
    ensures var last := |commands| - 1;
            Stands(commands, does, undoes) <==>
              Did(commands, last, does) || (Stands(commands[..last], does, undoes) && !Did(commands, last, undoes))
  {
    var last := |commands| - 1;
    var before := commands[..last];
    forall n: nat | n < last
      ensures Did(before, n, does) && NotSince(before, n, undoes) && !Did(commands, last, undoes)
              <==> Did(commands, n, does) && NotSince(commands, n, undoes)
    {
      PrefixDid(commands, n, does);
      PrefixNotSince(commands, n, undoes);
    }
    assert NotSince(commands, last, undoes);
  }

  // ---------------------------------------------------------------- positions over a run

  predicate IsOpen(pf: Portfolio, p: Position) {
    p.id in pf.positions && pf.positions[p.id] == p
  }

  function Buys(p: Position): Command -> bool {
    (c: Command) => c.DoBuy? && c.position == p
  }

  function Closes(p: Id): Command -> bool {
    (c: Command) => EndsSeason(c) || (c.DoSell? && c.position.id == p)
  }

  lemma OneStepOpen(pf: Portfolio, c: Command, p: Position)
    ensures IsOpen(Next(pf, c), p) <==>
              || (Try(pf, c).Some? && Buys(p)(c))
              || (IsOpen(pf, p) && !(Try(pf, c).Some? && Closes(p.id)(c)))
  {
    if Try(pf, c).Some? && IsCommit(c) {
      if c.DoBuy? {
        BuyOpens(pf, c);
      } else {
        SellCloses(pf, c);
      }
    }
  }

  /** After any run the open positions are exactly those bought and, since, neither sold nor ended with a season. */
  lemma {:induction false} OpenPositionsExactly(commands: seq<Command>, p: Position)
    ensures IsOpen(Run(commands), p) <==> Stands(commands, Buys(p), Closes(p.id))
    decreases |commands|
  {
    if commands == [] {
      assert Run(commands).positions == map[];
    } else {
      var last := |commands| - 1;
      OpenPositionsExactly(commands[..last], p);
      StandsNext(commands, Buys(p), Closes(p.id));
      OneStepOpen(Run(commands[..last]), commands[last], p);
    }
  }

  /** A position that is not in the table enters it only by being bought. */
  lemma OnlyBuysOpen(commands: seq<Command>, n: nat, id: Id)
    requires n < |commands| && id !in Run(commands[..n]).positions && id in Run(commands[..n + 1]).positions
    ensures commands[n].DoBuy? && commands[n].position.id == id && Succeeds(commands, n)
  {
    RunNext(commands, n);
    OnlyBuyOpens(Run(commands[..n]), commands[n], id);
  }

  lemma OnlyBuyOpens(pf: Portfolio, c: Command, id: Id)
    requires id !in pf.positions && id in Next(pf, c).positions
    ensures c.DoBuy? && c.position.id == id && Try(pf, c).Some?
  {
    OneStepOpen(pf, c, Next(pf, c).positions[id]);
  }

  function BuysId(id: Id): Command -> bool {
    (c: Command) => c.DoBuy? && c.position.id == id
  }

  lemma {:induction false} StaysClosed(commands: seq<Command>, start: nat, end: nat, id: Id)
    requires start <= end <= |commands| && id !in Run(commands[..start]).positions
    requires forall n: nat :: start <= n < end ==> !Did(commands, n, BuysId(id))
    ensures id !in Run(commands[..end]).positions
    decreases end
  {
    if start < end {
      StaysClosed(commands, start, end - 1, id);
      if id in Run(commands[..end]).positions {
        OnlyBuysOpen(commands, end - 1, id);
        assert Did(commands, end - 1, BuysId(id));
      }
    }
  }

  /** A position is sold a second time only if it was bought again in between. */
  lemma SecondSellNeedsBuy(commands: seq<Command>, first: nat, second: nat)
    requires first < second < |commands| && commands[first].DoSell? && commands[second].DoSell?
    requires commands[first].position.id == commands[second].position.id
    requires Succeeds(commands, first) && Succeeds(commands, second)
    ensures exists n: nat :: first < n < second && Did(commands, n, BuysId(commands[first].position.id))
  {
    var id := commands[first].position.id;
    SellCloses(Run(commands[..first]), commands[first]);
    RunNext(commands, first);
    if forall n: nat :: first + 1 <= n < second ==> !Did(commands, n, BuysId(id)) {
      StaysClosed(commands, first + 1, second, id);
      SellCloses(Run(commands[..second]), commands[second]);
    }
  }

  /** Once its position is sold, a mint can be bought again by any consistent commit. */
  lemma SoldMintCanBeBought(pf: Portfolio, sell: Command, buy: Command)
    requires Valid(pf) && sell.DoSell? && Try(pf, sell).Some? && buy.DoBuy?
    requires SameTrade(buy.order, buy.fill, buy.position) && Balanced(buy.entries) && buy.evidence
    requires Fresh(Next(pf, sell), buy.order, buy.fill) && buy.position.mint == pf.positions[sell.position.id].mint
    requires buy.position.id !in Next(pf, sell).positions
    ensures Try(Next(pf, sell), buy).Some?
  {
    SellCloses(pf, sell);
    CommitSucceedsExactly(Next(pf, sell), buy);
  }

  // ---------------------------------------------------------------- orders and fills over a run

  predicate IsStored(pf: Portfolio, o: Order) {
    o.id in pf.orders && pf.orders[o.id].record == o
  }

  function Writes(o: Order): Command -> bool {
    (c: Command) => (c.DoOrder? || IsCommit(c)) && c.order == o
  }

  function Overwrites(id: Id): Command -> bool {
    (c: Command) => EndsSeason(c) || ((c.DoOrder? || IsCommit(c)) && c.order.id == id)
  }

  /** Every row is stored under its record's identifier and shows its record's status. */
  predicate RowsAgree(pf: Portfolio) {
    forall id :: id in pf.orders ==>
      pf.orders[id].record.id == id && pf.orders[id].status == pf.orders[id].record.status
  }

  lemma OneStepStored(pf: Portfolio, c: Command, o: Order)
    ensures IsStored(Next(pf, c), o) <==>
              || (Try(pf, c).Some? && Writes(o)(c))
              || (IsStored(pf, o) && !(Try(pf, c).Some? && Overwrites(o.id)(c)))
  {
  }

  lemma RowsAgreeNext(pf: Portfolio, c: Command)
    requires RowsAgree(pf)
    ensures RowsAgree(Next(pf, c))
  {
  }

  /** After any run an order's row holds exactly the latest record saved or committed for it in the season. */
  lemma {:induction false} OrdersAreLatest(commands: seq<Command>, o: Order)
    ensures IsStored(Run(commands), o) <==> Stands(commands, Writes(o), Overwrites(o.id))
    ensures RowsAgree(Run(commands))
    decreases |commands|
  {
    if commands == [] {
      assert Run(commands).orders == map[];
    } else {
      var last := |commands| - 1;
      OrdersAreLatest(commands[..last], o);
      StandsNext(commands, Writes(o), Overwrites(o.id));
      OneStepStored(Run(commands[..last]), commands[last], o);
      RowsAgreeNext(Run(commands[..last]), commands[last]);
    }
  }

  /** Saving an order fails only with its evidence, and touches no other row and no other table. */
  lemma SaveSucceedsExactly(pf: Portfolio, o: Order, evidence: bool)
    ensures Try(pf, DoOrder(o, evidence)).Some? <==> evidence
    ensures var next := Next(pf, DoOrder(o, evidence));
            next.(orders := pf.orders) == pf && next.orders - {o.id} == pf.orders - {o.id}
  {
  }

  /** The columns fixed when an order is first saved. */
  function Columns(row: OrderRow): (Id, Side, int) {
    (row.mint, row.side, row.created)
  }

  lemma ColumnsNext(pf: Portfolio, c: Command, id: Id)
    requires Try(pf, c).None? || !EndsSeason(c)
    ensures id in pf.orders ==> id in Next(pf, c).orders && Columns(Next(pf, c).orders[id]) == Columns(pf.orders[id])
    ensures id !in pf.orders && id in Next(pf, c).orders ==>
              c.DoOrder? && c.order.id == id
              && Columns(Next(pf, c).orders[id]) == (c.order.mint, c.order.side, c.order.created)
  {
  }

  /** Later writes of a season never change an order's mint, side or time of creation. */
  lemma {:induction false} ColumnsStay(commands: seq<Command>, start: nat, end: nat, id: Id)
    requires start <= end <= |commands| && SameSeason(commands, start, end)
    requires id in Run(commands[..start]).orders
    ensures id in Run(commands[..end]).orders
    ensures Columns(Run(commands[..end]).orders[id]) == Columns(Run(commands[..start]).orders[id])
    decreases end
  {
    if start < end {
      ColumnsStay(commands, start, end - 1, id);
      RunNext(commands, end - 1);
      ColumnsNext(Run(commands[..end - 1]), commands[end - 1], id);
    }
  }

  function Fills(f: Fill): Command -> bool {
    (c: Command) => IsCommit(c) && c.fill == f
  }

  const Ends: Command -> bool := (c: Command) => EndsSeason(c)

  lemma OneStepFilled(pf: Portfolio, c: Command, f: Fill)
    ensures var next := Next(pf, c);
            f.id in next.fills && next.fills[f.id] == f <==>
              || (Try(pf, c).Some? && Fills(f)(c))
              || (f.id in pf.fills && pf.fills[f.id] == f && !(Try(pf, c).Some? && Ends(c)))
  {
  }

  /** The fills of a season are exactly those committed in it; none is changed or lost. */
  lemma {:induction false} FillsAreCommits(commands: seq<Command>, f: Fill)
    ensures f.id in Run(commands).fills && Run(commands).fills[f.id] == f <==> Stands(commands, Fills(f), Ends)
    decreases |commands|
  {
    if commands == [] {
      assert Run(commands).fills == map[];
    } else {
      var last := |commands| - 1;
      FillsAreCommits(commands[..last], f);
      StandsNext(commands, Fills(f), Ends);
      OneStepFilled(Run(commands[..last]), commands[last], f);
    }
  }

  // ---------------------------------------------------------------- the ledger over a run

  /** The entries a command posts, and under which transaction. */
  function Posts(c: Command): seq<Entry> {
    match c
    case DoInitialise(_, minor) => Opening(minor)
    case DoRollover(_, _, _, minor) => Opening(minor)
    case DoLedger(_, entries) => entries
    case DoBuy(_, _, _, entries, _) => entries
    case DoSell(_, _, _, entries, _, _) => entries
    case _ => []
  }

  function Transaction(c: Command): Id {
    match c
    case DoInitialise(tx, _) => tx
    case DoRollover(_, _, next, _) => next
    case DoLedger(tx, _) => tx
    case DoBuy(_, f, _, _, _) => f.id
    case DoSell(_, f, _, _, _, _) => f.id
    case _ => Id("")
  }

  /** Every posting of the season so far, in order: each success adds its entries, the end of a season drops all. */
  function History(commands: seq<Command>): seq<Posting> {
    if commands == [] then []
    else
      var last := |commands| - 1;
      var c, before := commands[last], History(commands[..last]);
      if !Succeeds(commands, last) then before
      else
        (if EndsSeason(c) then [] else before)
        + seq(|Posts(c)|, i requires 0 <= i < |Posts(c)| => Posting(Transaction(c), Posts(c)[i]))
  }

  lemma StampedIs(tx: Id, entries: seq<Entry>)
    ensures Stamped(tx, entries) == seq(|entries|, i requires 0 <= i < |entries| => Posting(tx, entries[i]))
  {
    StampedNet(tx, entries, tx);
  }

  /** The ledger is the list of all postings of the season, nothing lost, changed or reordered. */
  lemma {:induction false} LedgerIsHistory(commands: seq<Command>)
    ensures Run(commands).ledger == History(commands)
    decreases |commands|
  {
    if commands != [] {
      var last := |commands| - 1;
      LedgerIsHistory(commands[..last]);
      EveryRunIsValid(commands[..last]);
      LedgerNext(Run(commands[..last]), commands[last]);
    }
  }

  lemma LedgerNext(pf: Portfolio, c: Command)
    ensures Next(pf, c).ledger ==
              if Try(pf, c).None? then pf.ledger
              else
                (if EndsSeason(c) then [] else pf.ledger)
                + seq(|Posts(c)|, i requires 0 <= i < |Posts(c)| => Posting(Transaction(c), Posts(c)[i]))
  {
    StampedIs(Transaction(c), Posts(c));
  }

  /** A bare posting is accepted exactly when it is not empty, balances and has no negative amount. */
  lemma PostingSucceedsExactly(pf: Portfolio, tx: Id, entries: seq<Entry>)
    ensures Try(pf, DoLedger(tx, entries)).Some? <==> Balanced(entries)
  {
    BalancedIs(entries);
  }
}
