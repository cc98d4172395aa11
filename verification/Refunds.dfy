/** What the refund loop of a world regeneration amounts to. */
module Refunds {
  import Wrappers
  import opened Totals
  import opened Orders
  import opened Ledger

  function EscrowTotal(list: seq<Order>): int {
    if list == [] then 0 else EscrowTotal(list[..|list| - 1]) + Escrow(list[|list| - 1])
  }

  function StockTotal(list: seq<Order>, item: int): int {
    if list == [] then 0 else StockTotal(list[..|list| - 1], item) + Stock(list[|list| - 1], item)
  }

  /** Each order returns its goods to its initiator and its bid, if there is one, to the bidder. */
  lemma {:induction false} RefundedAdds(t: Tables, list: seq<Order>, item: int)
    requires Refundable(list, t.players.Keys)
    requires forall i :: 0 <= i < |list| ==> list[i].buyer >= 0
    ensures var t' := Refunded(t, list);
            && t'.players.Keys == t.players.Keys
            && Sum(MoneyOf(t'.players)) == Sum(MoneyOf(t.players)) + EscrowTotal(list)
            && Sum(ItemOf(t'.players, item)) == Sum(ItemOf(t.players, item)) + StockTotal(list, item)
  {
    if list != [] {
      var front, o := list[..|list| - 1], list[|list| - 1];
      RefundedAdds(t, front, item);
      var t1 := Refunded(t, front);
      PlayerChanges(t1.players, o.initiator, WithItem(t1.players[o.initiator], o.item, o.num), item);
      if o.buyer > 0 {
        var t2 := Give(t1, o.initiator, o.item, o.num);
        PlayerChanges(t2.players, o.buyer, WithMoney(t2.players[o.buyer], o.cost), item);
      }
    }
  }

  /** Summing the list of all orders is summing the table. */
  lemma {:induction false} ListTotals(orders: map<int, Order>, list: seq<Order>, item: int)
    requires Lists(orders, list)
    ensures EscrowTotal(list) == Sum(EscrowOf(orders)) && StockTotal(list, item) == Sum(StockOf(orders, item))
  {
    if list == [] {
      assert forall id :: id !in orders;
      assert EscrowOf(orders).Keys == {} && StockOf(orders, item).Keys == {};
    } else {
      var front, o := list[..|list| - 1], list[|list| - 1];
      var rest := orders - {o.id};
      forall id | id in rest
        ensures exists i :: 0 <= i < |front| && front[i].id == id
      {
        var i :| 0 <= i < |list| && list[i].id == id;
        assert front[i].id == id;
      }
      ListTotals(rest, front, item);
      OrderGoes(orders, o.id, item);
    }
  }

  /** A regeneration that goes through conserves goods of every kind, pays out exactly the escrow
      held, and leaves no order. */
  lemma RefundConserves(t: Tables, list: seq<Order>, item: int)
    requires Lists(t.orders, list) && Refundable(list, t.players.Keys)
    requires forall id :: id in t.orders ==> t.orders[id].buyer >= 0
    ensures var t' := RefundedAll(t, list);
            && t'.orders == map[]
            && Items(t', item) == Items(t, item)
            && Sum(MoneyOf(t'.players)) == Sum(MoneyOf(t.players)) + Sum(EscrowOf(t.orders))
  {
    forall i | 0 <= i < |list|
      ensures list[i].buyer >= 0
    {
      assert list[i].id in t.orders;
    }
    RefundedAdds(t, list, item);
    ListTotals(t.orders, list, item);
    assert StockOf(map[], item).Keys == {};
  }

  /** The house is no player, so one order of the house stops the whole loop, in whatever order the
      table is listed, although finalising that very order would go through. */
  lemma HouseOrderBlocksRefund(t: Tables, list: seq<Order>, id: int)
    requires Lists(t.orders, list) && 0 !in t.players
    requires id in t.orders && t.orders[id].initiator == 0 && t.orders[id].buyer in t.players
    ensures !Refundable(list, t.players.Keys)
    ensures t.orders[id].id == id ==> Finalized(t, t.orders[id]).0 == Wrappers.Success(true)
  {
    var i :| 0 <= i < |list| && list[i].id == id;
    assert list[i] == t.orders[id];
    assert !Returnable(list[i], t.players.Keys);
  }

  // ---------------------------------------------------------------- what each player gets

  /** The goods of a player's own orders, and the bids he has made. */
  function GoodsDue(list: seq<Order>, p: int, item: int): int {
    if list == [] then 0
    else
      var o := list[|list| - 1];
      GoodsDue(list[..|list| - 1], p, item) + if o.initiator == p && o.item == item then o.num else 0
  }

  function BidsDue(list: seq<Order>, p: int): int {
    if list == [] then 0
    else
      var o := list[|list| - 1];
      BidsDue(list[..|list| - 1], p) + if o.buyer == p && p > 0 then o.cost else 0
  }

  /** Each player gets the goods of his own orders and the bids he made, of every order of the list. */
  lemma {:induction false} RefundedPlayers(t: Tables, list: seq<Order>, p: int, item: int)
    requires Refundable(list, t.players.Keys) && p in t.players
    ensures var t' := Refunded(t, list);
            && t'.players.Keys == t.players.Keys
            && At(t'.players[p].items, item) == At(t.players[p].items, item) + GoodsDue(list, p, item)
            && t'.players[p].money == t.players[p].money + BidsDue(list, p)
  {
    if list != [] {
      var front, o := list[..|list| - 1], list[|list| - 1];
      RefundedPlayers(t, front, p, item);
      RefundOnePlayer(Refunded(t, front), o, p, item);
      assert Returnable(o, t.players.Keys);
    }
  }

  lemma RefundOnePlayer(t: Tables, o: Order, p: int, item: int)
    requires p in t.players
    ensures var t' := RefundOne(t, o);
            var known := o.initiator in t.players;
            && At(t'.players[p].items, item) ==
               At(t.players[p].items, item) + (if p == o.initiator && item == o.item then o.num else 0)
            && t'.players[p].money == t.players[p].money + if known && p == o.buyer && p > 0 then o.cost else 0
  {
  }

  /** And a loop that stops has given each player the same for the orders before, and at the order it stopped at
      the goods if its initiator was known. */
  lemma StoppedPlayers(t: Tables, list: seq<Order>, p: int, item: int)
    requires !Refundable(list, t.players.Keys) && p in t.players
    ensures var k := Stop(list, t.players.Keys);
            var t' := Refunded(t, list[..k + 1]);
            && t'.players.Keys == t.players.Keys
            && At(t'.players[p].items, item) ==
               At(t.players[p].items, item) + GoodsDue(list[..k], p, item)
               + (if list[k].initiator == p && list[k].item == item then list[k].num else 0)
            && t'.players[p].money == t.players[p].money + BidsDue(list[..k], p)
  {
    var k := Stop(list, t.players.Keys);
    RefundedPlayers(t, list[..k], p, item);
    OneMoreRefunded(t, list, k);
    RefundOnePlayer(Refunded(t, list[..k]), list[k], p, item);
  }

  // ---------------------------------------------------------------- a refund that stops

  /** What a loop that stops has paid: every order before the one it stopped at, and of that one the goods
      if it was the bidder who was missing. */
  lemma StoppedPays(t: Tables, list: seq<Order>, item: int)
    requires forall i :: 0 <= i < |list| ==> list[i].buyer >= 0
    requires !Refundable(list, t.players.Keys)
    ensures var k := Stop(list, t.players.Keys);
            var t' := Refunded(t, list[..k + 1]);
            && t'.orders == t.orders && t'.players.Keys == t.players.Keys
            && Sum(MoneyOf(t'.players)) == Sum(MoneyOf(t.players)) + EscrowTotal(list[..k])
            && Sum(ItemOf(t'.players, item)) == Sum(ItemOf(t.players, item)) + StockTotal(list[..k], item)
               + if list[k].initiator in t.players then Stock(list[k], item) else 0
  {
    var k := Stop(list, t.players.Keys);
    var o := list[k];
    RefundedKeeps(t, list[..k + 1]);
    RefundedAdds(t, list[..k], item);
    assert list[..k + 1][..k] == list[..k];
    hide Refunded;
    OneMoreRefunded(t, list, k);
    var t1 := Refunded(t, list[..k]);
    if o.initiator in t1.players {
      PlayerChanges(t1.players, o.initiator, WithItem(t1.players[o.initiator], o.item, o.num), item);
    }
  }

  lemma {:induction false} RefundedKeeps(t: Tables, list: seq<Order>)
    ensures var t' := Refunded(t, list);
            t'.orders == t.orders && t'.nextId == t.nextId && t'.players.Keys == t.players.Keys
  {
    if list != [] {
      RefundedKeeps(t, list[..|list| - 1]);
    }
  }

  /** Nothing marks what has been paid: run once more over the same orders, the loop stops at the same one
      and has paid all that twice. */
  lemma StoppedPaysTwice(t: Tables, list: seq<Order>, item: int)
    requires Lists(t.orders, list) && !Refundable(list, t.players.Keys)
    requires forall id :: id in t.orders ==> t.orders[id].buyer >= 0
    ensures var k := Stop(list, t.players.Keys);
            var once := Refunded(t, list[..k + 1]);
            var twice := Refunded(once, list[..k + 1]);
            && Lists(once.orders, list) && !Refundable(list, once.players.Keys) && Stop(list, once.players.Keys) == k
            && Sum(MoneyOf(twice.players)) == Sum(MoneyOf(t.players)) + 2 * EscrowTotal(list[..k])
            && Sum(ItemOf(twice.players, item)) == Sum(ItemOf(t.players, item)) + 2 * StockTotal(list[..k], item)
               + if list[k].initiator in t.players then 2 * Stock(list[k], item) else 0
  {
    hide Sum, MoneyOf, ItemOf, Refunded, EscrowTotal, StockTotal;
    forall i | 0 <= i < |list|
      ensures list[i].buyer >= 0
    {
      assert list[i].id in t.orders;
    }
    var k := Stop(list, t.players.Keys);
    RefundedKeeps(t, list[..k + 1]);
    StoppedPays(t, list, item);
    StoppedPays(Refunded(t, list[..k + 1]), list, item);
  }
}
