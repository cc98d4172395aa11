/** What the player and order tables add up to. */
module Ledger {
  import opened Totals
  import opened Orders

  ghost function MoneyOf(players: map<int, Player>): map<int, int> {
    map k | k in players :: players[k].money
  }

  ghost function ItemOf(players: map<int, Player>, item: int): map<int, int> {
    map k | k in players :: At(players[k].items, item)
  }

  function Escrow(o: Order): int {
    if o.buyer != 0 then o.cost else 0
  }

  ghost function EscrowOf(orders: map<int, Order>): map<int, int> {
    map k | k in orders :: Escrow(orders[k])
  }

  function Stock(o: Order, item: int): int {
    if o.item == item then o.num else 0
  }

  ghost function StockOf(orders: map<int, Order>, item: int): map<int, int> {
    map k | k in orders :: Stock(orders[k], item)
  }

  /** Goods with the players and in the orders. */
  ghost function Items(t: Tables, item: int): int {
    Sum(ItemOf(t.players, item)) + Sum(StockOf(t.orders, item))
  }

  lemma PlayerChanges(players: map<int, Player>, id: int, p: Player, item: int)
    requires id in players
    ensures Sum(MoneyOf(players[id := p])) == Sum(MoneyOf(players)) - players[id].money + p.money
    ensures Sum(ItemOf(players[id := p], item))
            == Sum(ItemOf(players, item)) - At(players[id].items, item) + At(p.items, item)
  {
    assert MoneyOf(players[id := p]) == MoneyOf(players)[id := p.money];
    SumUpdate(MoneyOf(players), id, p.money);
    assert ItemOf(players[id := p], item) == ItemOf(players, item)[id := At(p.items, item)];
    SumUpdate(ItemOf(players, item), id, At(p.items, item));
  }

  /** Paying a player moves money and nothing else. */
  lemma CreditAdds(t: Tables, id: int, amount: int, item: int)
    requires id in t.players
    ensures var t' := Credit(t, id, amount);
            && t'.orders == t.orders && t'.nextId == t.nextId
            && Sum(MoneyOf(t'.players)) == Sum(MoneyOf(t.players)) + amount
            && Sum(ItemOf(t'.players, item)) == Sum(ItemOf(t.players, item))
  {
    PlayerChanges(t.players, id, WithMoney(t.players[id], amount), item);
  }

  lemma OrderChanges(orders: map<int, Order>, id: int, o: Order, item: int)
    ensures Sum(EscrowOf(orders[id := o]))
            == Sum(EscrowOf(orders)) - (if id in orders then Escrow(orders[id]) else 0) + Escrow(o)
    ensures Sum(StockOf(orders[id := o], item))
         == Sum(StockOf(orders, item)) - (if id in orders then Stock(orders[id], item) else 0) + Stock(o, item)
  {
    assert EscrowOf(orders[id := o]) == EscrowOf(orders)[id := Escrow(o)];
    SumUpdate(EscrowOf(orders), id, Escrow(o));
    assert StockOf(orders[id := o], item) == StockOf(orders, item)[id := Stock(o, item)];
    SumUpdate(StockOf(orders, item), id, Stock(o, item));
  }

  lemma OrderGoes(orders: map<int, Order>, id: int, item: int)
    requires id in orders
    ensures Sum(EscrowOf(orders - {id})) == Sum(EscrowOf(orders)) - Escrow(orders[id])
    ensures Sum(StockOf(orders - {id}, item)) == Sum(StockOf(orders, item)) - Stock(orders[id], item)
  {
    assert EscrowOf(orders - {id}) == EscrowOf(orders) - {id};
    SumRemove(EscrowOf(orders), id);
    assert StockOf(orders - {id}, item) == StockOf(orders, item) - {id};
    SumRemove(StockOf(orders, item), id);
  }
}
