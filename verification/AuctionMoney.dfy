/** Where the money and the goods of the auction are, after any run, and when some of it is lost. */
module AuctionMoney {
  import opened Wrappers
  import opened Totals
  import opened Orders
  import opened Ledger
  import opened Auction

  // ---------------------------------------------------------------- what there is

  /** Money a bid in progress holds: taken from the bidder, or owed to the one he outbid. */
  function Held(b: Bid): int {
    match b
    case Loaded(_, _, _) => 0
    case Tested(_, _, _) => 0
    case Charged(_, _, amount) => amount
    case Won(o, _, _) => if o.buyer == 0 then 0 else o.cost
    case Lost(_, amount) => amount
  }

  ghost function HeldOf(bids: map<int, Bid>): map<int, int> {
    map k | k in bids :: Held(bids[k])
  }

  /** What the finaliser has paid out before deleting the order it paid for. */
  function PaidAhead(s: System): int {
    if s.queue != [] && s.stage != Waiting && s.queue[0].initiator != 0 then s.queue[0].cost else 0
  }

  function GivenAhead(s: System, item: int): int {
    if s.queue != [] && s.stage == Given then Stock(s.queue[0], item) else 0
  }

  ghost function Wealth(s: System): int {
    Sum(MoneyOf(s.t.players)) + Sum(EscrowOf(s.t.orders)) + Sum(HeldOf(s.bids)) + s.books.burnt - PaidAhead(s)
  }

  /** All money ever: what there is, and what was lost, less what came from nowhere. */
  ghost function Money(s: System): int {
    Wealth(s) + s.books.lost - s.books.minted
  }

  ghost function Goods(s: System, item: int): int {
    Items(s.t, item) - GivenAhead(s, item)
  }

  lemma BidChanges(bids: map<int, Bid>, k: int, b: Bid)
    ensures Sum(HeldOf(bids[k := b])) == Sum(HeldOf(bids)) - (if k in bids then Held(bids[k]) else 0) + Held(b)
  {
    assert HeldOf(bids[k := b]) == HeldOf(bids)[k := Held(b)];
    SumUpdate(HeldOf(bids), k, Held(b));
  }

  lemma BidGoes(bids: map<int, Bid>, k: int)
    requires k in bids
    ensures Sum(HeldOf(bids - {k})) == Sum(HeldOf(bids)) - Held(bids[k])
  {
    assert HeldOf(bids - {k}) == HeldOf(bids) - {k};
    SumRemove(HeldOf(bids), k);
  }

  // ---------------------------------------------------------------- conservation, step by step

  /** A step keeps the account. */
  ghost predicate Keeps(s: System, s': System, item: int) {
    Money(s') == Money(s) && Goods(s', item) == Goods(s, item)
  }

  lemma OfferConserves(s: System, seller: int, item: int, num: int, cost: int, any: int)
    requires Inv(s)
    ensures Keeps(s, OfferStep(s, seller, item, num, cost), any)
  {
    if OfferStep(s, seller, item, num, cost) != s {
      PlayerChanges(s.t.players, seller, WithItem(s.t.players[seller], item, -num), any);
      assert OrderSound(s.t, s.t.nextId);
      OrderChanges(s.t.orders, s.t.nextId, Order(s.t.nextId, seller, item, num, cost, 0, 0), any);
    }
  }

  lemma LoadConserves(s: System, bid: int, order: int, bidder: int, amount: int, any: int)
    ensures Keeps(s, LoadStep(s, bid, order, bidder, amount), any)
  {
    if order in s.t.orders {
      BidChanges(s.bids, bid, Loaded(s.t.orders[order], bidder, amount));
    }
  }

  lemma TestConserves(s: System, bid: int, any: int)
    ensures Keeps(s, TestStep(s, bid), any)
  {
    if bid in s.bids && s.bids[bid].Loaded? {
      var b := s.bids[bid];
      BidChanges(s.bids, bid, Tested(b.o, b.bidder, b.amount));
      BidGoes(s.bids, bid);
    }
  }

  lemma ChargeConserves(s: System, bid: int, any: int)
    ensures Keeps(s, ChargeStep(s, bid), any)
  {
    hide Sum, MoneyOf, ItemOf, EscrowOf, StockOf, HeldOf;
    if bid in s.bids && s.bids[bid].Tested? {
      var b := s.bids[bid];
      if b.bidder in s.t.players {
        CreditAdds(s.t, b.bidder, -b.amount, any);
      }
      BidChanges(s.bids, bid, Charged(b.o, b.bidder, b.amount));
      BidGoes(s.bids, bid);
    }
  }

  /** A compare and set that applies moves the escrow from the old price to the new. */
  lemma CasMoves(t: Tables, id: int, cost: int, buyer: int, betTime: int, expectedBuyer: int,
                 expectedCost: int, any: int)
    requires CasApplies(t, id, expectedBuyer, expectedCost)
    ensures var t' := Cas(t, id, cost, buyer, betTime, expectedBuyer, expectedCost);
            && t'.players == t.players
            && Sum(EscrowOf(t'.orders)) == Sum(EscrowOf(t.orders))
               - (if expectedBuyer != 0 then expectedCost else 0) + (if buyer != 0 then cost else 0)
            && Sum(StockOf(t'.orders, any)) == Sum(StockOf(t.orders, any))
  {
    OrderChanges(t.orders, id, t.orders[id].(cost := cost, buyer := buyer, betTime := betTime), any);
  }

  lemma CompeteConserves(s: System, bid: int, betTime: int, any: int)
    requires Inv(s)
    ensures Keeps(s, CompeteStep(s, bid, betTime), any)
  {
    if bid in s.bids && s.bids[bid].Charged? {
      var b := s.bids[bid];
      assert BidSound(s.t, b);
      BidChanges(s.bids, bid, Won(b.o, b.bidder, b.amount));
      BidChanges(s.bids, bid, Lost(b.bidder, b.amount));
      if CasApplies(s.t, b.o.id, b.o.buyer, b.o.cost) {
        CasMoves(s.t, b.o.id, b.amount, b.bidder, betTime, b.o.buyer, b.o.cost, any);
      }
    }
  }

  lemma BreakConserves(s: System, bid: int, any: int)
    ensures Keeps(s, BreakStep(s, bid), any)
  {
    if bid in s.bids && s.bids[bid].Charged? {
      BidChanges(s.bids, bid, Lost(s.bids[bid].bidder, s.bids[bid].amount));
    }
  }

  lemma SettleConserves(s: System, bid: int, any: int)
    ensures Keeps(s, SettleStep(s, bid), any)
  {
    hide Sum, MoneyOf, ItemOf, EscrowOf, StockOf, HeldOf;
    if bid in s.bids {
      var b := s.bids[bid];
      BidGoes(s.bids, bid);
      if b.Won? && b.o.buyer in s.t.players {
        CreditAdds(s.t, b.o.buyer, b.o.cost, any);
      } else if b.Lost? && b.bidder in s.t.players {
        CreditAdds(s.t, b.bidder, b.amount, any);
      }
    }
  }

  lemma RefuseConserves(s: System, bid: int, any: int)
    requires Inv(s)
    ensures Keeps(s, RefuseStep(s, bid), any)
  {
    if bid in s.bids && s.bids[bid].Won? {
      var b := s.bids[bid];
      assert BidSound(s.t, b);
      BidChanges(s.bids, bid, Lost(b.bidder, b.amount));
      if CasApplies(s.t, b.o.id, b.bidder, b.amount) {
        CasMoves(s.t, b.o.id, b.o.cost, b.o.buyer, b.o.betTime, b.bidder, b.amount, any);
      }
    }
  }

  /** Finalising in one transaction moves an order's goods to the buyer and its escrow to the seller,
      or to the house. */
  lemma TransactionConserves(t: Tables, o: Order, any: int)
    requires Finalized(t, o).0 == Success(true) && o.buyer != 0
    ensures var t' := Finalized(t, o).1;
            && Items(t', any) == Items(t, any)
            && Sum(MoneyOf(t'.players)) + Sum(EscrowOf(t'.orders)) + Burnt(o)
               == Sum(MoneyOf(t.players)) + Sum(EscrowOf(t.orders))
  {
    var t1 := Give(t, o.buyer, o.item, o.num);
    PlayerChanges(t.players, o.buyer, WithItem(t.players[o.buyer], o.item, o.num), any);
    if o.initiator != 0 {
      PlayerChanges(t1.players, o.initiator, WithMoney(t1.players[o.initiator], o.cost), any);
    }
    OrderGoes(t.orders, o.id, any);
  }

  lemma FinalizeConserves(s: System, any: int)
    requires Inv(s)
    ensures Keeps(s, FinalizeStep(s), any)
  {
    hide Sum, Finalized, MoneyOf, ItemOf, EscrowOf, StockOf, HeldOf;
    if s.queue != [] && s.stage == Waiting {
      var o := s.queue[0];
      assert ListedSound(s.t, o);
      if Finalized(s.t, o).0 == Success(true) {
        TransactionConserves(s.t, o, any);
      }
      if o.initiator in s.t.players {
        CreditAdds(s.t, o.initiator, o.cost, any);
      }
    }
  }

  lemma HandConserves(s: System, any: int)
    requires Inv(s)
    ensures Keeps(s, HandStep(s), any)
  {
    if s.queue != [] && s.stage == Paid {
      var o := s.queue[0];
      assert ListedSound(s.t, o);
      PlayerChanges(s.t.players, o.buyer, WithItem(s.t.players[o.buyer], o.item, o.num), any);
    }
  }

  lemma RemoveConserves(s: System, any: int)
    requires Inv(s)
    ensures Keeps(s, RemoveStep(s), any)
  {
    if s.queue != [] && s.stage == Given {
      var o := s.queue[0];
      assert ListedSound(s.t, o);
      OrderGoes(s.t.orders, o.id, any);
    }
  }

  /** No step creates or destroys money beyond what the books say, nor goods at all. */
  lemma NextConserves(s: System, e: Event, item: int)
    requires Inv(s)
    ensures Keeps(s, Next(s, e), item)
  {
    hide Money, Goods, Inv;
    match e
    case Connect(_) => IdleConserves(s, Next(s, e), item);
    case Disconnect(_) => IdleConserves(s, Next(s, e), item);
    case Offer(seller, it, num, cost) => OfferConserves(s, seller, it, num, cost, item);
    case Load(bid, order, bidder, amount) => LoadConserves(s, bid, order, bidder, amount, item);
    case Test(bid) => TestConserves(s, bid, item);
    case Charge(bid) => ChargeConserves(s, bid, item);
    case Compete(bid, betTime) => CompeteConserves(s, bid, betTime, item);
    case Break(bid) => BreakConserves(s, bid, item);
    case Settle(bid) => SettleConserves(s, bid, item);
    case Refuse(bid) => RefuseConserves(s, bid, item);
    case List(_, _) => ListConserves(s, e, item);
    case Finalize => FinalizeConserves(s, item);
    case Hand => HandConserves(s, item);
    case Remove => RemoveConserves(s, item);
  }

  lemma IdleConserves(s: System, s': System, item: int)
    requires s' == s.(online := s'.online)
    ensures Keeps(s, s', item)
  {
  }

  lemma ListConserves(s: System, e: Event, item: int)
    requires Inv(s) && e.List?
    ensures Keeps(s, Next(s, e), item)
  {
  }

  /** Conservation over every interleaving of bidders, players who come and go, failing refunds and the
      finaliser. */
  lemma {:induction false} RunConserves(s: System, es: seq<Event>, item: int)
    requires Inv(s)
    ensures Keeps(s, Run(s, es), item)
    decreases es
  {
    hide Money, Goods, Inv;
    if es != [] {
      NextInv(s, es[0]);
      NextConserves(s, es[0], item);
      RunConserves(Next(s, es[0]), es[1..], item);
    }
  }

  /** Each order is finalised at most once, and never again offered or bid on. */
  lemma FinalizedOnce(s: System, es: seq<Event>)
    requires Inv(s)
    ensures var f := Run(s, es).finalized;
            && (forall i, j :: 0 <= i < j < |f| ==> f[i] != f[j])
            && (forall i :: 0 <= i < |f| ==> f[i] !in Run(s, es).t.orders)
  {
    RunInv(s, es);
  }

  // ---------------------------------------------------------------- what is lost, exactly

  /** A loser is settled while he is away. */
  ghost predicate Forfeits(s: System, e: Event) {
    e.Settle? && e.bid in s.bids && s.bids[e.bid].Lost?
    && s.bids[e.bid].bidder !in s.online && s.bids[e.bid].amount != 0
  }

  /** A refund fails after somebody else has changed the order. */
  ghost predicate Botches(s: System, e: Event) {
    && e.Refuse? && e.bid in s.bids && s.bids[e.bid].Won? && s.bids[e.bid].o.buyer != 0
    && var b := s.bids[e.bid];
       !CasApplies(s.t, b.o.id, b.bidder, b.amount) && (b.o.cost != 0 || b.amount != 0)
  }

  /** An order is deleted at another price than it was paid for. */
  ghost predicate Overtaken(s: System, e: Event) {
    && e.Remove? && s.queue != [] && s.stage == Given
    && s.queue[0].id in s.t.orders && Escrow(s.t.orders[s.queue[0].id]) != s.queue[0].cost
  }

  ghost predicate Leaks(s: System, e: Event) {
    Forfeits(s, e) || Botches(s, e) || Overtaken(s, e)
  }

  /** The books never forget, and a step writes to them exactly when it leaks. */
  lemma NextLeaks(s: System, e: Event)
    requires Inv(s)
    ensures var b, b' := s.books, Next(s, e).books;
            && b.lost <= b'.lost && b.minted <= b'.minted
            && (b.lost == b'.lost && b.minted == b'.minted <==> !Leaks(s, e))
  {
    if (e.Settle? || e.Refuse?) && e.bid in s.bids {
      assert BidSound(s.t, s.bids[e.bid]);
    }
  }

  ghost predicate LeakFree(s: System, es: seq<Event>)
    decreases es
  {
    es == [] || (!Leaks(s, es[0]) && LeakFree(Next(s, es[0]), es[1..]))
  }

  /** Over whole runs nothing is lost or created if and only if no loser is away when he is settled, no
      refund fails on an order that has changed, and no order changes its price while it is finalised. */
  lemma {:induction false} NothingLostExactly(s: System, es: seq<Event>)
    requires Inv(s)
    ensures var b, b' := s.books, Run(s, es).books;
            && b.lost <= b'.lost && b.minted <= b'.minted
            && (b.lost == b'.lost && b.minted == b'.minted <==> LeakFree(s, es))
    decreases es
  {
    hide Inv, Leaks;
    if es != [] {
      NextInv(s, es[0]);
      NextLeaks(s, es[0]);
      NothingLostExactly(Next(s, es[0]), es[1..]);
    }
  }

  /** Without leaks all money is with players, in escrow, in bids under way or with the house. */
  lemma WealthKept(s: System, es: seq<Event>)
    requires Inv(s)
    ensures LeakFree(s, es) ==> Wealth(Run(s, es)) == Wealth(s)
  {
    RunConserves(s, es, 0);
    NothingLostExactly(s, es);
  }
}
