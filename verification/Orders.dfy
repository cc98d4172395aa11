/** The order and player tables: bids, finalisation, refunds. A transaction that fails leaves the
    tables as they were. */
module Orders {
  import opened Wrappers
  import opened Totals

  datatype Order = Order(id: int, initiator: int, item: int, num: int, cost: int, buyer: int, betTime: int)

  datatype Player = Player(money: int, items: map<int, int>)

  datatype Tables = Tables(orders: map<int, Order>, players: map<int, Player>, nextId: int)

  // ---------------------------------------------------------------- rows

  function WithItem(p: Player, item: int, count: int): Player {
    p.(items := p.items[item := At(p.items, item) + count])
  }

  function WithMoney(p: Player, amount: int): Player {
    p.(money := p.money + amount)
  }

  function Credit(t: Tables, id: int, amount: int): Tables
    requires id in t.players
  {
    t.(players := t.players[id := WithMoney(t.players[id], amount)])
  }

  function Give(t: Tables, id: int, item: int, count: int): Tables
    requires id in t.players
  {
    t.(players := t.players[id := WithItem(t.players[id], item, count)])
  }

  // ---------------------------------------------------------------- operations

  datatype Error = NoSuchOrder | BuyerMissing | SellerMissing | PlayerMissing

  function Created(t: Tables, initiator: int, item: int, num: int, cost: int): Tables {
    t.(orders := t.orders[t.nextId := Order(t.nextId, initiator, item, num, cost, 0, 0)], nextId := t.nextId + 1)
  }

  /** The compare-and-set bid goes through only on the buyer and cost it expects. */
  predicate CasApplies(t: Tables, id: int, expectedBuyer: int, expectedCost: int) {
    id in t.orders && t.orders[id].buyer == expectedBuyer && t.orders[id].cost == expectedCost
  }

  function Cas(t: Tables, id: int, cost: int, buyer: int, betTime: int, expectedBuyer: int, expectedCost: int): Tables {
    if CasApplies(t, id, expectedBuyer, expectedCost) then
      t.(orders := t.orders[id := t.orders[id].(cost := cost, buyer := buyer, betTime := betTime)])
    else t
  }

  /** Offline finalisation: goods to the buyer, money to the seller unless it is the house, and the
      order is gone. */
  function Finalized(t: Tables, o: Order): (Result<bool, Error>, Tables) {
    if o.id !in t.orders || t.orders[o.id] != o then (Success(false), t)
    else if o.buyer !in t.players then (Failure(BuyerMissing), t)
    else if o.initiator != 0 && o.initiator !in t.players then (Failure(SellerMissing), t)
    else
      var t1 := Give(t, o.buyer, o.item, o.num);
      var t2 := if o.initiator != 0 then Credit(t1, o.initiator, o.cost) else t1;
      (Success(true), t2.(orders := t2.orders - {o.id}))
  }

  /** The buyer has the goods, the seller, unless he is the house, the money, and nobody else anything. */
  ghost predicate Sold(before: map<int, Player>, after: map<int, Player>, o: Order) {
    && after.Keys == before.Keys && o.buyer in before
    && (o.initiator == 0 || o.initiator in before)
    && forall p :: p in before ==>
         && after[p].money == before[p].money + (if p == o.initiator && p != 0 then o.cost else 0)
         && forall k :: At(after[p].items, k) ==
                        At(before[p].items, k) + if p == o.buyer && k == o.item then o.num else 0
  }

  /** Which of the four ways a finalisation takes, and what the sale does to each player. */
  lemma FinalizedExactly(t: Tables, o: Order)
    ensures Finalized(t, o).0 == Success(false) <==> o.id !in t.orders || t.orders[o.id] != o
    ensures Finalized(t, o).0 == Failure(BuyerMissing) <==>
            o.id in t.orders && t.orders[o.id] == o && o.buyer !in t.players
    ensures Finalized(t, o).0 == Failure(SellerMissing) <==>
            && o.id in t.orders && t.orders[o.id] == o && o.buyer in t.players
            && o.initiator != 0 && o.initiator !in t.players
    ensures Finalized(t, o).0 != Success(true) ==> Finalized(t, o).1 == t
    ensures Finalized(t, o).0 == Success(true) ==>
              var t' := Finalized(t, o).1;
              t'.orders == t.orders - {o.id} && t'.nextId == t.nextId && Sold(t.players, t'.players, o)
  {
  }

  predicate Ready(o: Order, cutoff: int) {
    o.buyer > 0 && o.betTime > 0 && o.betTime <= cutoff
  }

  /** The tables as the server updates them. */
  class Database {
    var orders: map<int, Order>
    var players: map<int, Player>
    var nextId: int

    ghost function State(): Tables
      reads this
    {
      Tables(orders, players, nextId)
    }

    constructor ()
      ensures State() == Tables(map[], map[], 1)
    {
      orders, players, nextId := map[], map[], 1;
    }

    method CreateOrder(initiator: int, item: int, num: int, cost: int) returns (id: int)
      modifies this
      ensures id == old(nextId) && State() == Created(old(State()), initiator, item, num, cost)
      ensures orders == old(orders)[id := Order(id, initiator, item, num, cost, 0, 0)] && players == old(players)
    {
      id := nextId;
      orders := orders[id := Order(id, initiator, item, num, cost, 0, 0)];
      nextId := nextId + 1;
    }

    method TryUpdateOrderBetCas(id: int, cost: int, buyer: int, betTime: int, expectedBuyer: int, expectedCost: int)
      returns (affected: nat)
      modifies this
      ensures State() == Cas(old(State()), id, cost, buyer, betTime, expectedBuyer, expectedCost)
      ensures affected == if CasApplies(old(State()), id, expectedBuyer, expectedCost) then 1 else 0
      ensures affected == 1 <==>
              id in old(orders) && old(orders)[id].buyer == expectedBuyer && old(orders)[id].cost == expectedCost
      ensures affected == 1 ==>
                var o := old(orders)[id];
                orders == old(orders)[id := Order(o.id, o.initiator, o.item, o.num, cost, buyer, betTime)]
      ensures affected == 0 ==> orders == old(orders)
    {
      if id in orders && orders[id].buyer == expectedBuyer && orders[id].cost == expectedCost {
        orders := orders[id := orders[id].(cost := cost, buyer := buyer, betTime := betTime)];
        return 1;
      }
      affected := 0;
    }

    /** Row by row inside a transaction; every early exit rolls back. */
    method FinalizeOrderOffline(o: Order) returns (r: Result<bool, Error>)
      modifies this
      ensures (r, State()) == Finalized(old(State()), o)
      ensures r == Success(false) <==> o.id !in old(orders) || old(orders)[o.id] != o
      ensures r != Success(true) ==> players == old(players) && orders == old(orders)
      ensures r == Success(true) ==> orders == old(orders) - {o.id} && Sold(old(players), players, o)
    {
      FinalizedExactly(State(), o);
      var txOrders, txPlayers := orders, players;
      if o.id !in txOrders { return Success(false); }
      var current := txOrders[o.id];
      if current.id != o.id || current.initiator != o.initiator || current.item != o.item || current.num != o.num
         || current.cost != o.cost || current.buyer != o.buyer || current.betTime != o.betTime
      {
        return Success(false);
      }
      if o.buyer !in txPlayers { return Failure(BuyerMissing); }
      var inventory := txPlayers[o.buyer].items;
      inventory := inventory[o.item := (if o.item in inventory then inventory[o.item] else 0) + o.num];
      txPlayers := txPlayers[o.buyer := txPlayers[o.buyer].(items := inventory)];
      if o.initiator != 0 {
        if o.initiator !in txPlayers { return Failure(SellerMissing); }
        txPlayers := txPlayers[o.initiator := txPlayers[o.initiator].(money := txPlayers[o.initiator].money + o.cost)];
      }
      txOrders := txOrders - {o.id};
      orders, players := txOrders, txPlayers;
      r := Success(true);
    }

    method AddPlayerMoney(id: int, amount: int) returns (r: Result<(), Error>)
      modifies this
      ensures r.Success? <==> id in old(players)
      ensures State() == if id in old(players) then Credit(old(State()), id, amount) else old(State())
      ensures orders == old(orders) && players.Keys == old(players).Keys
      ensures forall p :: p in players ==>
                players[p] == if p == id then Player(old(players)[p].money + amount, old(players)[p].items)
                              else old(players)[p]
    {
      if id !in players { return Failure(PlayerMissing); }
      players := players[id := players[id].(money := players[id].money + amount)];
      r := Success(());
    }

    method AddPlayerInventoryItem(id: int, item: int, count: int) returns (r: Result<(), Error>)
      modifies this
      ensures r.Success? <==> id in old(players)
      ensures State() == if id in old(players) then Give(old(State()), id, item, count) else old(State())
      ensures orders == old(orders) && players.Keys == old(players).Keys
      ensures forall p :: p in players ==>
                && players[p].money == old(players)[p].money
                && forall k :: At(players[p].items, k) ==
                               At(old(players)[p].items, k) + if p == id && k == item then count else 0
    {
      if id !in players { return Failure(PlayerMissing); }
      var inventory := players[id].items;
      inventory := inventory[item := (if item in inventory then inventory[item] else 0) + count];
      players := players[id := players[id].(items := inventory)];
      r := Success(());
    }

    /** The body of the refund loop: goods first, then the bid. */
    method RefundOrder(o: Order) returns (r: Result<(), Error>)
      modifies this
      ensures r.Success? <==> Returnable(o, old(players).Keys)
      ensures State() == RefundOne(old(State()), o)
      ensures r.Success? ==> orders == old(orders) && Returned(old(players), players, o)
    {
      var given := AddPlayerInventoryItem(o.initiator, o.item, o.num);
      if given.Failure? { return Failure(given.error); }
      if o.buyer > 0 {
        var paid := AddPlayerMoney(o.buyer, o.cost);
        if paid.Failure? { return Failure(paid.error); }
      }
      r := Success(());
    }

    /** The refund loop of a world regeneration, over the orders in any order. It stops at the first order
        that cannot be returned in full and keeps what it has credited by then, of that order too; only a
        complete run deletes the orders. */
    method RefundAll(list: seq<Order>) returns (r: Result<(), Error>)
      requires Lists(orders, list)
      modifies this
      ensures r.Success? <==> Refundable(list, old(players).Keys)
      ensures r.Success? ==> State() == RefundedAll(old(State()), list)
      ensures r.Failure? ==> State() == Refunded(old(State()), list[..Stop(list, old(players).Keys) + 1])
    {
      ghost var keys := players.Keys;
      assert Refundable(list[..0], keys) && State() == Refunded(State(), list[..0]);
      hide Lists, Refundable, Refunded, Stop, RefundOne;
      for i := 0 to |list|
        invariant players.Keys == keys && Refundable(list[..i], keys)
        invariant State() == Refunded(old(State()), list[..i])
      {
        OneMoreRefunded(old(State()), list, i);
        StopsAt(list, keys, i);
        var refunded := RefundOrder(list[i]);
        if refunded.Failure? { return Failure(refunded.error); }
      }
      assert list[..|list|] == list;
      orders := map[];
      r := Success(());
    }
  }

  // ---------------------------------------------------------------- refunds

  /** The list names every order once. */
  ghost predicate Lists(orders: map<int, Order>, list: seq<Order>) {
    && (forall i :: 0 <= i < |list| ==> list[i].id in orders && orders[list[i].id] == list[i])
    && (forall i, j :: 0 <= i < j < |list| ==> list[i].id != list[j].id)
    && (forall id :: id in orders ==> exists i :: 0 <= i < |list| && list[i].id == id)
  }

  /** Everybody the order returns something to is known. The house, initiator 0, is no exception. */
  predicate Returnable(o: Order, players: set<int>) {
    o.initiator in players && (o.buyer > 0 ==> o.buyer in players)
  }

  /** The initiator has the goods back, the bidder, if there was a bid, his money, and nobody else anything. */
  ghost predicate Returned(before: map<int, Player>, after: map<int, Player>, o: Order) {
    && after.Keys == before.Keys
    && forall p :: p in before ==>
         && after[p].money == before[p].money + (if p == o.buyer && p > 0 then o.cost else 0)
         && forall k :: At(after[p].items, k) ==
                        At(before[p].items, k) + if p == o.initiator && k == o.item then o.num else 0
  }

  predicate Refundable(list: seq<Order>, players: set<int>) {
    forall i :: 0 <= i < |list| ==> Returnable(list[i], players)
  }

  /** The first order that cannot be returned in full. */
  function Stop(list: seq<Order>, players: set<int>): (k: nat)
    ensures k <= |list| && (k == |list| <==> Refundable(list, players))
    ensures forall i :: 0 <= i < k ==> Returnable(list[i], players)
    ensures k < |list| ==> !Returnable(list[k], players)
  {
    if list == [] || !Returnable(list[0], players) then 0 else Stop(list[1..], players) + 1
  }

  lemma StopsAt(list: seq<Order>, players: set<int>, i: nat)
    requires i < |list| && Refundable(list[..i], players)
    ensures Returnable(list[i], players) ==> Refundable(list[..i + 1], players)
    ensures !Returnable(list[i], players) ==> Stop(list, players) == i && !Refundable(list, players)
  {
    forall j | 0 <= j < i
      ensures Returnable(list[j], players)
    {
      assert list[..i][j] == list[j];
    }
  }

  ghost function RefundOne(t: Tables, o: Order): (r: Tables)
    ensures r.orders == t.orders && r.nextId == t.nextId
    ensures r.players.Keys == t.players.Keys
  {
    if o.initiator !in t.players then t
    else
      var t1 := Give(t, o.initiator, o.item, o.num);
      if o.buyer > 0 && o.buyer in t1.players then Credit(t1, o.buyer, o.cost) else t1
  }

  ghost function Refunded(t: Tables, list: seq<Order>): Tables {
    if list == [] then t else RefundOne(Refunded(t, list[..|list| - 1]), list[|list| - 1])
  }

  lemma OneMoreRefunded(t: Tables, list: seq<Order>, k: nat)
    requires k < |list|
    ensures Refunded(t, list[..k + 1]) == RefundOne(Refunded(t, list[..k]), list[k])
  {
    assert list[..k + 1][..k] == list[..k];
  }

  ghost function RefundedAll(t: Tables, list: seq<Order>): Tables {
    Refunded(t, list).(orders := map[])
  }
}
