/** What each step of the auction, and each run, does to one player's money and goods, to one order and to
    one bid. */
module AuctionPlayers {
  import opened Wrappers
  import opened Totals
  import opened Orders
  import opened Auction
  import opened AuctionBids

  function GoodsAt(t: Tables, p: int, item: int): int {
    if p in t.players && item in t.players[p].items then t.players[p].items[item] else 0
  }

  // ---------------------------------------------------------------- goods

  /** What an offer takes from its seller, who must be online and have so many. */
  ghost function Offered(s: System, e: Event, p: int, item: int): int {
    if e.Offer? && e.seller == p && e.item == item && p in s.online && 0 < e.num <= GoodsAt(s.t, p, item)
    then e.num else 0
  }

  /** What the finaliser hands to a buyer: in one transaction, with the money, if both parties are offline
      and the order is still as it was listed; or once the seller has been paid. */
  ghost function Received(s: System, e: Event, p: int, item: int): int {
    if s.queue == [] || s.queue[0].buyer != p || s.queue[0].item != item then 0
    else
      var o := s.queue[0];
      if e.Hand? && s.stage == Paid then o.num
      else if e.Finalize? && s.stage == Waiting && AwayAndUnchanged(s, o) then o.num
      else 0
  }

  ghost predicate AwayAndUnchanged(s: System, o: Order) {
    o.buyer !in s.online && o.initiator !in s.online && o.id in s.t.orders && s.t.orders[o.id] == o
  }

  /** Goods move by one's own offers and purchases only. */
  lemma NextGoods(s: System, e: Event, p: int, item: int)
    requires Inv(s)
    ensures GoodsAt(Next(s, e).t, p, item) ==
            GoodsAt(s.t, p, item) - Offered(s, e, p, item) + Received(s, e, p, item)
  {
    hide OrderSound, HistorySound, BidSound;
    if s.queue != [] {
      assert ListedSound(s.t, s.queue[0]);
    }
    match e
    case Finalize => FinalizeGoods(s, p, item);
    case _ =>
  }

  lemma FinalizeGoods(s: System, p: int, item: int)
    requires Inv(s)
    ensures GoodsAt(FinalizeStep(s).t, p, item) == GoodsAt(s.t, p, item) + Received(s, Finalize, p, item)
  {
    hide OrderSound, HistorySound, BidSound;
    if s.queue != [] {
      assert ListedSound(s.t, s.queue[0]);
      assert 0 !in s.online;
      FinalizedExactly(s.t, s.queue[0]);
    }
  }

  ghost function AllOffered(s: System, es: seq<Event>, p: int, item: int): int
    decreases es
  {
    if es == [] then 0 else Offered(s, es[0], p, item) + AllOffered(Next(s, es[0]), es[1..], p, item)
  }

  ghost function AllReceived(s: System, es: seq<Event>, p: int, item: int): int
    decreases es
  {
    if es == [] then 0 else Received(s, es[0], p, item) + AllReceived(Next(s, es[0]), es[1..], p, item)
  }

  /** Over any run a player has the goods he had, less those he offered, and those of the orders that were
      finalised with him as the buyer. */
  lemma {:induction false} RunGoods(s: System, es: seq<Event>, p: int, item: int)
    requires Inv(s)
    ensures GoodsAt(Run(s, es).t, p, item) ==
            GoodsAt(s.t, p, item) - AllOffered(s, es, p, item) + AllReceived(s, es, p, item)
    decreases es
  {
    hide Inv, Next, GoodsAt, Offered, Received;
    if es != [] {
      NextGoods(s, es[0], p, item);
      NextInv(s, es[0]);
      RunGoods(Next(s, es[0]), es[1..], p, item);
    }
  }

  /** Who is online: known players who have come and not gone. */
  lemma NextOnline(s: System, e: Event, p: int)
    requires Inv(s)
    ensures p in Next(s, e).online <==> (e == Connect(p) && p in s.t.players) || (p in s.online && e != Disconnect(p))
  {
    hide HistorySound, QueueSound, OrderSound, BidSound;
  }

  // ---------------------------------------------------------------- money

  /** A debit takes the amount of a bid that was tested from its bidder, if he is still there. A settlement
      pays the one who was outbid the price he had offered, wherever he is, or a loser who is online the amount
      of his bid. The seller of an order that is finalised gets its price. */
  ghost function Gets(s: System, e: Event, p: int): int {
    match e
    case Charge(k) =>
      if k in s.bids && s.bids[k].Tested? && s.bids[k].bidder == p && p in s.online then -s.bids[k].amount else 0
    case Settle(k) =>
      if k in s.bids && s.bids[k].Won? && s.bids[k].o.buyer == p && p > 0 then s.bids[k].o.cost
      else if k in s.bids && s.bids[k].Lost? && s.bids[k].bidder == p && p in s.online then s.bids[k].amount
      else 0
    case Finalize =>
      if s.queue == [] || s.stage != Waiting || s.queue[0].initiator != p || p <= 0 then 0
      else
        var o := s.queue[0];
        if o.buyer in s.online || o.initiator in s.online || (o.id in s.t.orders && s.t.orders[o.id] == o)
        then o.cost else 0
    case _ => 0
  }

  lemma NextMoney(s: System, e: Event, p: int)
    requires Inv(s)
    ensures MoneyAt(Next(s, e).t, p) == MoneyAt(s.t, p) + Gets(s, e, p)
  {
    hide HistorySound;
    if s.queue != [] {
      assert ListedSound(s.t, s.queue[0]);
    }
    match e
    case Settle(k) => SettleMoney(s, k, p);
    case Charge(k) => ChargeMoney(s, k, p);
    case Finalize => FinalizeMoney(s, p);
    case _ =>
  }

  lemma SettleMoney(s: System, k: int, p: int)
    requires Inv(s)
    ensures MoneyAt(SettleStep(s, k).t, p) == MoneyAt(s.t, p) + Gets(s, Settle(k), p)
  {
    hide HistorySound, QueueSound, OrderSound;
    if k in s.bids {
      assert BidSound(s.t, s.bids[k]);
    }
  }

  lemma ChargeMoney(s: System, k: int, p: int)
    requires Inv(s)
    ensures MoneyAt(ChargeStep(s, k).t, p) == MoneyAt(s.t, p) + Gets(s, Charge(k), p)
  {
    hide HistorySound, QueueSound, OrderSound;
    if k in s.bids {
      assert BidSound(s.t, s.bids[k]);
    }
  }

  lemma FinalizeMoney(s: System, p: int)
    requires Inv(s)
    ensures MoneyAt(FinalizeStep(s).t, p) == MoneyAt(s.t, p) + Gets(s, Finalize, p)
  {
    hide HistorySound, OrderSound, BidSound;
    if s.queue != [] {
      assert ListedSound(s.t, s.queue[0]);
      FinalizedExactly(s.t, s.queue[0]);
    }
  }

  ghost function AllGot(s: System, es: seq<Event>, p: int): int
    decreases es
  {
    if es == [] then 0 else Gets(s, es[0], p) + AllGot(Next(s, es[0]), es[1..], p)
  }

  /** Over any run a player's money changes by his own debits, refunds and sales only, each in full. */
  lemma {:induction false} RunMoney(s: System, es: seq<Event>, p: int)
    requires Inv(s)
    ensures MoneyAt(Run(s, es).t, p) == MoneyAt(s.t, p) + AllGot(s, es, p)
    decreases es
  {
    hide Inv, Next, MoneyAt, Gets;
    if es != [] {
      NextMoney(s, es[0], p);
      NextInv(s, es[0]);
      RunMoney(Next(s, es[0]), es[1..], p);
    }
  }

  // ---------------------------------------------------------------- orders

  /** An order is what was offered, until a bid takes its place with buyer, price and time, is rolled back
      with the buyer, price and time before it, or the order is gone with its finalisation. */
  lemma NextOrder(s: System, e: Event, id: int)
    requires Inv(s)
    ensures var before, after := s.t.orders, Next(s, e).t.orders;
            match e
            case Offer(seller, item, num, cost) =>
              if id == s.t.nextId && Offered(s, e, seller, item) > 0
              then id in after && after[id] == Order(id, seller, item, num, cost, 0, 0)
              else SameOrder(before, after, id)
            case Compete(k, betTime) =>
              if k in s.bids && s.bids[k].Charged? && s.bids[k].o.id == id && id in before
                 && before[id].buyer == s.bids[k].o.buyer && before[id].cost == s.bids[k].o.cost
              then id in after && Offers(before[id], after[id], s.bids[k].bidder, s.bids[k].amount, betTime)
              else SameOrder(before, after, id)
            case Refuse(k) =>
              if k in s.bids && s.bids[k].Won? && s.bids[k].o.buyer > 0 && s.bids[k].o.id == id && id in before
                 && before[id].buyer == s.bids[k].bidder && before[id].cost == s.bids[k].amount
              then
                var o := s.bids[k].o;
                id in after && Offers(before[id], after[id], o.buyer, o.cost, o.betTime)
              else SameOrder(before, after, id)
            case Finalize =>
              if s.queue != [] && s.stage == Waiting && s.queue[0].id == id && AwayAndUnchanged(s, s.queue[0])
              then id !in after else SameOrder(before, after, id)
            case Remove =>
              if s.queue != [] && s.stage == Given && s.queue[0].id == id then id !in after
              else SameOrder(before, after, id)
            case _ => SameOrder(before, after, id)
  {
    hide HistorySound;
    match e
    case Finalize => FinalizeOrder(s, id);
    case Compete(k, _) =>
      if k in s.bids {
        assert BidSound(s.t, s.bids[k]);
      }
    case Refuse(k) =>
      if k in s.bids {
        assert BidSound(s.t, s.bids[k]);
      }
    case _ =>
  }

  ghost predicate SameOrder(before: map<int, Order>, after: map<int, Order>, id: int) {
    (id in before <==> id in after) && (id in before ==> before[id] == after[id])
  }

  predicate Offers(before: Order, after: Order, buyer: int, cost: int, betTime: int) {
    after == Order(before.id, before.initiator, before.item, before.num, cost, buyer, betTime)
  }

  lemma FinalizeOrder(s: System, id: int)
    requires Inv(s)
    ensures var before, after := s.t.orders, FinalizeStep(s).t.orders;
            if s.queue != [] && s.stage == Waiting && s.queue[0].id == id && AwayAndUnchanged(s, s.queue[0])
            then id !in after else SameOrder(before, after, id)
  {
    hide HistorySound, OrderSound, BidSound;
    if s.queue != [] {
      assert ListedSound(s.t, s.queue[0]);
      assert 0 !in s.online;
      FinalizedExactly(s.t, s.queue[0]);
    }
  }

  /** The least bid over another one is the least number that is at least 1.01 times its price. */
  lemma MinBidExactly(cost: int, amount: int)
    ensures MinBid(cost, false) <= amount <==> cost <= amount
    ensures MinBid(cost, true) <= amount <==> 101 * cost <= 100 * amount
  {
  }

  /** What is listed for finalisation has a buyer whose bid is no younger than the cutoff. */
  lemma ListedReady(s: System, rows: seq<Order>, cutoff: int, i: nat)
    requires Next(s, List(rows, cutoff)) != s && i < |rows|
    ensures Next(s, List(rows, cutoff)) == s.(queue := rows, stage := Waiting)
    ensures rows[i].buyer > 0 && 0 < rows[i].betTime <= cutoff
    ensures rows[i].id in s.t.orders && s.t.orders[rows[i].id] == rows[i]
  {
  }

  /** The finaliser takes its orders one by one. With both parties offline an order is closed in one step,
      or passed over when it has changed; otherwise it is paid for, handed over and closed in three. */
  lemma NextDesk(s: System, e: Event)
    requires Inv(s)
    ensures var s' := Next(s, e);
            if e.List? then s'.finalized == s.finalized
            else if s.queue == [] || !(e.Finalize? || e.Hand? || e.Remove?) then Desk(s', s.queue, s.stage, s.finalized)
            else
              var o := s.queue[0];
              match (e, s.stage)
              case (Finalize, Waiting) =>
                if o.buyer in s.online || o.initiator in s.online then Desk(s', s.queue, Paid, s.finalized)
                else if AwayAndUnchanged(s, o) then Desk(s', s.queue[1..], Waiting, s.finalized + [o.id])
                else Desk(s', s.queue[1..], Waiting, s.finalized)
              case (Hand, Paid) => Desk(s', s.queue, Given, s.finalized)
              case (Remove, Given) => Desk(s', s.queue[1..], Waiting, s.finalized + [o.id])
              case _ => Desk(s', s.queue, s.stage, s.finalized)
  {
    hide HistorySound, OrderSound, BidSound;
    if s.queue != [] {
      assert ListedSound(s.t, s.queue[0]);
      assert 0 !in s.online;
      FinalizedExactly(s.t, s.queue[0]);
    }
  }

  ghost predicate Desk(s: System, queue: seq<Order>, stage: Stage, finalized: seq<int>) {
    s.queue == queue && s.stage == stage && s.finalized == finalized
  }

  // ---------------------------------------------------------------- bids

  /** The states of a bid: loaded from the order as it is, tested against the least bid and the money of a
      bidder who is online, charged, and then won or lost by what has become of the order. */
  lemma NextBid(s: System, e: Event, k: int)
    requires Inv(s)
    ensures !Concerns(e, k) ==> SameBid(s.bids, Next(s, e).bids, k)
    ensures Concerns(e, k) && k !in s.bids ==>
              if e.Load? && e.order in s.t.orders && e.bidder in s.t.players
              then k in Next(s, e).bids && Next(s, e).bids[k] == Loaded(s.t.orders[e.order], e.bidder, e.amount)
              else k !in Next(s, e).bids
    ensures Concerns(e, k) && k in s.bids ==> Moves(s, e, s.bids[k], BidAt(Next(s, e), k))
  {
    hide HistorySound, QueueSound;
    if k in s.bids {
      assert BidSound(s.t, s.bids[k]);
    }
  }

  ghost predicate SameBid(before: map<int, Bid>, after: map<int, Bid>, k: int) {
    (k in before <==> k in after) && (k in before ==> before[k] == after[k])
  }

  function BidAt(s: System, k: int): Option<Bid> {
    if k in s.bids then Some(s.bids[k]) else None
  }

  /** From one state of a bid to the next, or to its end. */
  ghost predicate Moves(s: System, e: Event, b: Bid, after: Option<Bid>) {
    match (b, e)
    case (Loaded(o, p, amount), Test(_)) =>
      var least := if o.buyer > 0 then 101 * o.cost <= 100 * amount else o.cost <= amount;
      after == if p in s.online && least && amount <= MoneyAt(s.t, p) then Some(Tested(o, p, amount)) else None
    case (Tested(o, p, amount), Charge(_)) => after == if p in s.online then Some(Charged(o, p, amount)) else None
    case (Charged(o, p, amount), Compete(_, _)) =>
      var same := o.id in s.t.orders && s.t.orders[o.id].buyer == o.buyer && s.t.orders[o.id].cost == o.cost;
      after == Some(if same then Won(o, p, amount) else Lost(p, amount))
    case (Charged(_, p, amount), Break(_)) => after == Some(Lost(p, amount))
    case (Won(_, _, _), Settle(_)) => after == None
    case (Won(o, p, amount), Refuse(_)) => after == Some(if o.buyer > 0 then Lost(p, amount) else b)
    case (Lost(_, _), Settle(_)) => after == None
    case _ => after == Some(b)
  }
}
