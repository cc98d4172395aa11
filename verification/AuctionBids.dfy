/** What a bidder can count on: that one snapshot has one winner, and that a lost bid costs nothing. */
module AuctionBids {
  import opened Totals
  import opened Orders
  import opened Auction
  import opened AuctionSolvency

  // ---------------------------------------------------------------- one winner per snapshot

  /** The order with that id, if it is still there, costs more than c. */
  ghost predicate Above(t: Tables, id: int, c: int) {
    id < t.nextId && (id in t.orders ==> t.orders[id].cost > c)
  }

  /** A failing refund puts an order back to a price no higher than c. */
  ghost predicate Restores(s: System, e: Event, id: int, c: int) {
    && e.Refuse? && e.bid in s.bids && s.bids[e.bid].Won? && s.bids[e.bid].o.buyer != 0
    && var b := s.bids[e.bid];
       b.o.id == id && b.o.cost <= c && CasApplies(s.t, id, b.bidder, b.amount)
  }

  /** A bid wins at a price no higher than c. */
  ghost predicate Undercuts(s: System, e: Event, id: int, c: int) {
    && e.Compete? && e.bid in s.bids && s.bids[e.bid].Charged?
    && var b := s.bids[e.bid];
       b.o.id == id && b.amount <= c && CasApplies(s.t, id, b.o.buyer, b.o.cost)
  }

  /** Below zero one per cent more is less. */
  lemma BidRaises(cost: int, hasBuyer: bool, amount: int)
    requires cost >= 0 && MinBid(cost, hasBuyer) <= amount
    ensures cost <= amount && (hasBuyer && cost > 0 ==> cost < amount)
  {
  }

  /** Once above a price, an order stays there exactly unless a failing refund restores it or a bid
      undercuts; above zero no bid does. */
  lemma NextAbove(s: System, e: Event, id: int, c: int)
    requires Inv(s) && Above(s.t, id, c)
    ensures Above(Next(s, e).t, id, c) <==> !Restores(s, e, id, c) && !Undercuts(s, e, id, c)
    ensures c >= 0 ==> !Undercuts(s, e, id, c)
  {
    if e.Compete? && e.bid in s.bids && s.bids[e.bid].Charged? {
      var b := s.bids[e.bid];
      assert BidSound(s.t, b);
      if b.o.cost >= 0 {
        BidRaises(b.o.cost, b.o.buyer > 0, b.amount);
      }
    }
  }

  ghost predicate StaysAbove(s: System, es: seq<Event>, id: int, c: int)
    decreases es
  {
    Above(s.t, id, c) && (es == [] || StaysAbove(Next(s, es[0]), es[1..], id, c))
  }

  ghost predicate Undone(s: System, es: seq<Event>, id: int, c: int)
    decreases es
  {
    es != [] && (Restores(s, es[0], id, c) || Undone(Next(s, es[0]), es[1..], id, c))
  }

  ghost predicate Undercut(s: System, es: seq<Event>, id: int, c: int)
    decreases es
  {
    es != [] && (Undercuts(s, es[0], id, c) || Undercut(Next(s, es[0]), es[1..], id, c))
  }

  /** An order stays above a price over a whole run if and only if it is neither restored nor undercut in
      it; and above zero, if and only if it is not restored. */
  lemma {:induction false} RunAbove(s: System, es: seq<Event>, id: int, c: int)
    requires Inv(s) && Above(s.t, id, c)
    ensures StaysAbove(s, es, id, c) <==> !Undone(s, es, id, c) && !Undercut(s, es, id, c)
    ensures c >= 0 ==> (StaysAbove(s, es, id, c) <==> !Undone(s, es, id, c))
    ensures StaysAbove(s, es, id, c) ==> Above(Run(s, es).t, id, c)
    decreases es
  {
    hide Inv, Above, Restores, Undercuts;
    if es != [] {
      NextInv(s, es[0]);
      NextAbove(s, es[0], id, c);
      if Above(Next(s, es[0]).t, id, c) {
        RunAbove(Next(s, es[0]), es[1..], id, c);
      } else {
        assert !StaysAbove(Next(s, es[0]), es[1..], id, c);
      }
    }
  }

  /** Once bid on, an order has a buyer for good. */
  ghost predicate Taken(t: Tables, id: int) {
    id < t.nextId && (id in t.orders ==> t.orders[id].buyer > 0)
  }

  lemma NextTaken(s: System, e: Event, id: int)
    requires Inv(s) && Taken(s.t, id)
    ensures Taken(Next(s, e).t, id)
  {
    if (e.Compete? || e.Refuse?) && e.bid in s.bids {
      assert BidSound(s.t, s.bids[e.bid]);
    }
  }

  lemma {:induction false} RunTaken(s: System, es: seq<Event>, id: int)
    requires Inv(s) && Taken(s.t, id)
    ensures Taken(Run(s, es).t, id)
    decreases es
  {
    hide Inv, Taken;
    if es != [] {
      NextInv(s, es[0]);
      NextTaken(s, es[0], id);
      RunTaken(Next(s, es[0]), es[1..], id);
    }
  }

  ghost predicate Wins(s: System, bid: int) {
    bid in s.bids && s.bids[bid].Charged? && CasApplies(s.t, s.bids[bid].o.id, s.bids[bid].o.buyer, s.bids[bid].o.cost)
  }

  /** Of all bids made from one snapshot at most one wins, however the run goes on: always when it is the
      first bid on the order, and when the price is above zero unless a failing refund puts it back. */
  lemma OneWinner(s: System, bid: int, betTime: int, es: seq<Event>, other: int)
    requires Inv(s) && Wins(s, bid)
    requires var t := Run(Next(s, Compete(bid, betTime)), es);
             other in t.bids && t.bids[other].Charged? && t.bids[other].o == s.bids[bid].o
    ensures s.bids[bid].o.buyer == 0 ==> !Wins(Run(Next(s, Compete(bid, betTime)), es), other)
    ensures s.bids[bid].o.cost > 0 ==>
              var s1 := Next(s, Compete(bid, betTime));
              Wins(Run(s1, es), other) ==> Undone(s1, es, s.bids[bid].o.id, s.bids[bid].o.cost)
  {
    var b, s1 := s.bids[bid], Next(s, Compete(bid, betTime));
    NextInv(s, Compete(bid, betTime));
    assert OrderSound(s.t, b.o.id) && BidSound(s.t, b);
    assert Taken(s1.t, b.o.id);
    RunTaken(s1, es, b.o.id);
    if b.o.buyer != 0 && b.o.cost > 0 {
      BidRaises(b.o.cost, true, b.amount);
      RunAbove(s1, es, b.o.id, b.o.cost);
    }
  }

  /** And then one does: a winner whose refund fails leaves the order as he found it, and the next bid
      from the same snapshot wins. */
  lemma SecondWinner(s: System, bid: int, betTime: int, other: int)
    requires Wins(s, bid) && s.bids[bid].o == s.t.orders[s.bids[bid].o.id] && s.bids[bid].o.buyer != 0
    requires other in s.bids && other != bid && s.bids[other].Charged? && s.bids[other].o == s.bids[bid].o
    ensures var t := Next(Next(s, Compete(bid, betTime)), Refuse(bid));
            t.t == s.t && t.books == s.books && t.bids[bid].Lost? && Wins(t, other)
  {
    var t := Next(Next(s, Compete(bid, betTime)), Refuse(bid));
    assert t.t.orders == s.t.orders;
  }

  /** At the price zero no refund has to fail. A bid of nothing wins, the one who was outbid bids nothing
      again, and the order is as it was: the next bid from the first snapshot wins too. */
  lemma ZeroPriceTwice(s: System, bid: int, other: int, k: int, betTime: int)
    requires Inv(s) && Wins(s, bid) && s.bids[bid].o.cost == s.bids[bid].amount == 0 && k !in s.bids
    requires var p := s.bids[bid].o.buyer; p in s.online && s.t.players[p].money >= 0
    requires other in s.bids && other != bid && s.bids[other].Charged? && s.bids[other].o == s.bids[bid].o
    ensures var o := s.bids[bid].o;
            var es := [Load(k, o.id, o.buyer, 0), Test(k), Charge(k), Compete(k, betTime)];
            var s1 := Next(s, Compete(bid, betTime));
            Wins(Run(s1, es), other) && !Undone(s1, es, o.id, 0)
  {
    var o, s1 := s.bids[bid].o, Next(s, Compete(bid, betTime));
    assert OrderSound(s.t, o.id) && BidSound(s.t, s.bids[bid]);
    var s2 := Next(s1, Load(k, o.id, o.buyer, 0));
    var s3 := Next(s2, Test(k));
    var s4 := Next(s3, Charge(k));
    assert s2.bids[k] == Loaded(s1.t.orders[o.id], o.buyer, 0) && s2.t == s1.t;
    assert s3.bids[k].Tested? && s3.t == s1.t;
    assert s4.bids[k] == Charged(s1.t.orders[o.id], o.buyer, 0) && s4.t.orders == s1.t.orders;
    var s5 := Next(s4, Compete(k, betTime));
    assert s5.t.orders[o.id].buyer == o.buyer && s5.t.orders[o.id].cost == 0;
    assert s5.bids[other] == s.bids[other];
    RunOfFour(s1, Load(k, o.id, o.buyer, 0), Test(k), Charge(k), Compete(k, betTime));
    NotUndone(s1, [Load(k, o.id, o.buyer, 0), Test(k), Charge(k), Compete(k, betTime)], o.id, 0);
  }

  lemma {:induction false} NotUndone(s: System, es: seq<Event>, id: int, c: int)
    requires forall i :: 0 <= i < |es| ==> !es[i].Refuse?
    ensures !Undone(s, es, id, c)
    decreases es
  {
    if es != [] {
      NotUndone(Next(s, es[0]), es[1..], id, c);
    }
  }

  // ---------------------------------------------------------------- a lost bid costs nothing

  predicate Concerns(e: Event, k: int) {
    (e.Load? || e.Test? || e.Charge? || e.Compete? || e.Break? || e.Settle? || e.Refuse?) && e.bid == k
  }

  function MoneyAt(t: Tables, p: int): int {
    if p in t.players then t.players[p].money else 0
  }

  /** What the steps of one bid do to a player's money, over a run in which anything else may happen. */
  ghost function Effect(s: System, es: seq<Event>, k: int, p: int): int
    decreases es
  {
    if es == [] then 0
    else
      (if Concerns(es[0], k) then MoneyAt(Next(s, es[0]).t, p) - MoneyAt(s.t, p) else 0)
      + Effect(Next(s, es[0]), es[1..], k, p)
  }

  /** What the bid has taken from the player and still owes him. */
  function Owed(s: System, k: int, p: int): int {
    if k in s.bids && s.bids[k].bidder == p && (s.bids[k].Charged? || s.bids[k].Lost?) then s.bids[k].amount else 0
  }

  ghost predicate NeverWins(s: System, es: seq<Event>, k: int)
    decreases es
  {
    && (k in s.bids ==> !s.bids[k].Won?)
    && (es == [] || NeverWins(Next(s, es[0]), es[1..], k))
  }

  /** The bid is settled while its bidder is away. */
  ghost predicate Abandoned(s: System, e: Event, k: int, p: int) {
    e == Settle(k) && k in s.bids && s.bids[k].Lost? && s.bids[k].bidder == p && p !in s.online
  }

  ghost function Forfeit(s: System, es: seq<Event>, k: int, p: int): int
    decreases es
  {
    if es == [] then 0
    else (if Abandoned(s, es[0], k, p) then s.bids[k].amount else 0) + Forfeit(Next(s, es[0]), es[1..], k, p)
  }

  lemma OwnEffect(s: System, e: Event, k: int, p: int)
    requires Inv(s) && Concerns(e, k)
    requires (k in s.bids ==> !s.bids[k].Won?) && (k in Next(s, e).bids ==> !Next(s, e).bids[k].Won?)
    ensures MoneyAt(Next(s, e).t, p) - MoneyAt(s.t, p)
            == Owed(s, k, p) - Owed(Next(s, e), k, p) - if Abandoned(s, e, k, p) then s.bids[k].amount else 0
  {
    hide QueueSound, HistorySound, OrderSound;
    if k in s.bids {
      assert BidSound(s.t, s.bids[k]);
    }
  }

  lemma OtherEffect(s: System, e: Event, k: int, p: int)
    requires !Concerns(e, k)
    ensures Owed(Next(s, e), k, p) == Owed(s, k, p) && !Abandoned(s, e, k, p)
  {
    assert k in s.bids <==> k in Next(s, e).bids;
  }

  lemma NextEffect(s: System, e: Event, k: int, p: int)
    requires Inv(s)
    requires (k in s.bids ==> !s.bids[k].Won?) && (k in Next(s, e).bids ==> !Next(s, e).bids[k].Won?)
    ensures Concerns(e, k) ==>
              MoneyAt(Next(s, e).t, p) - MoneyAt(s.t, p)
              == Owed(s, k, p) - Owed(Next(s, e), k, p) - if Abandoned(s, e, k, p) then s.bids[k].amount else 0
    ensures !Concerns(e, k) ==> Owed(Next(s, e), k, p) == Owed(s, k, p) && !Abandoned(s, e, k, p)
  {
    hide Inv, Next, Owed, Abandoned;
    if Concerns(e, k) {
      OwnEffect(s, e, k, p);
    } else {
      OtherEffect(s, e, k, p);
    }
  }

  /** What a bid that does not win takes from a player comes back, but for what is forfeited. */
  lemma {:induction false} BidBalances(s: System, es: seq<Event>, k: int, p: int)
    requires Inv(s) && NeverWins(s, es, k)
    ensures Effect(s, es, k, p) == Owed(s, k, p) - Owed(Run(s, es), k, p) - Forfeit(s, es, k, p)
    decreases es
  {
    hide Inv;
    if es != [] {
      var s' := Next(s, es[0]);
      assert NeverWins(s', es[1..], k);
      NextInv(s, es[0]);
      NextEffect(s, es[0], k, p);
      BidBalances(s', es[1..], k, p);
    }
  }

  /** The bid is settled while its bidder is away, somewhere in the run. */
  ghost predicate Deserted(s: System, es: seq<Event>, k: int, p: int)
    decreases es
  {
    es != [] && (Abandoned(s, es[0], k, p) || Deserted(Next(s, es[0]), es[1..], k, p))
  }

  /** The number names no other bid. */
  ghost predicate NotReused(es: seq<Event>, k: int) {
    forall i :: 0 <= i < |es| ==> !(es[i].Load? && es[i].bid == k)
  }

  lemma NextSame(s: System, e: Event, k: int)
    requires !(e.Load? && e.bid == k)
    ensures k in Next(s, e).bids ==>
              && k in s.bids && Next(s, e).bids[k].bidder == s.bids[k].bidder
              && Next(s, e).bids[k].amount == s.bids[k].amount
    ensures e == Settle(k) && k in s.bids && s.bids[k].Lost? ==> k !in Next(s, e).bids
  {
  }

  /** One bid is abandoned at most once, with all of its amount. */
  lemma {:induction false} ForfeitOnce(s: System, es: seq<Event>, k: int, p: int)
    requires NotReused(es, k)
    ensures k !in s.bids ==> Forfeit(s, es, k, p) == 0 && !Deserted(s, es, k, p)
    ensures k in s.bids ==> Forfeit(s, es, k, p) == if Deserted(s, es, k, p) then s.bids[k].amount else 0
    decreases es
  {
    hide Next;
    if es != [] {
      NextSame(s, es[0], k);
      ForfeitOnce(Next(s, es[0]), es[1..], k, p);
    }
  }

  /** Whatever happens in between: a bid that is over and did not win has cost its bidder what he forfeited.
      That is nothing if he was there when it was settled, and else all of it. */
  lemma LoserIsWhole(s: System, es: seq<Event>, k: int, p: int)
    requires Inv(s) && NeverWins(s, es, k)
    requires k in s.bids && s.bids[k].bidder == p && (s.bids[k].Loaded? || s.bids[k].Tested?) && k !in Run(s, es).bids
    ensures Effect(s, es, k, p) == -Forfeit(s, es, k, p)
    ensures NotReused(es, k) ==> Effect(s, es, k, p) == if Deserted(s, es, k, p) then -s.bids[k].amount else 0
  {
    BidBalances(s, es, k, p);
    if NotReused(es, k) {
      ForfeitOnce(s, es, k, p);
    }
  }

  /** A bid of ten made from a snapshot that somebody has since bid on. */
  function StaleBid(): System {
    var seen := Order(1, 0, 5, 1, 10, 0, 0);
    System(Tables(map[1 := seen.(cost := 50, buyer := 8, betTime := 1)],
                  map[7 := Player(100, map[]), 8 := Player(0, map[])], 2),
           {7}, map[0 := Tested(seen, 7, 10)], [], Waiting, [], Books(0, 0, 0))
  }

  lemma StaleBidSound()
    ensures Inv(StaleBid()) && Affordable(StaleBid())
  {
    hide Sum;
    var s := StaleBid();
    forall id
      ensures OrderSound(s.t, id)
    {
    }
    assert RiskOf(s.bids, 7) == map[0 := 10];
    SumUpdate(map[], 0, 10);
    SumOfZeros(map[]);
    assert map[][0 := 10] == map[0 := 10];
    assert RiskOf(s.bids, 8) == map[0 := 0];
    SumOfZeros(RiskOf(s.bids, 8));
  }

  /** The bidder leaves after losing and before he is paid back: his ten are gone. */
  lemma LoserLeaves(betTime: int)
    ensures Inv(StaleBid()) && Affordable(StaleBid())
    ensures var t := Run(StaleBid(), [Charge(0), Compete(0, betTime), Disconnect(7), Settle(0)]);
            && 7 in t.t.players && t.t.players[7].money == 90
            && t.bids == map[] && t.books == Books(0, 10, 0)
            && t.t.orders == StaleBid().t.orders
  {
    StaleBidSound();
    RunOfFour(StaleBid(), Charge(0), Compete(0, betTime), Disconnect(7), Settle(0));
  }
}
