/** The auction at work: bidders, each from the snapshot of an order he read, and the one task that
    finalises orders, all on the same tables, while players come and go. */
module Auction {
  import opened Wrappers
  import opened Totals
  import opened Orders
  import opened Ledger

  /** The least acceptable bid: the asking price at first, then one per cent more, rounded up. */
  function MinBid(cost: int, hasBuyer: bool): int {
    if hasBuyer then -((-101 * cost) / 100) else cost
  }

  /** A bid in progress: `Loaded` has read the order, `Tested` has found it affordable, `Charged` has
      paid and is about to compare and set; `Won` owes the previous bidder his money, `Lost` the bidder
      himself. */
  datatype Bid =
    | Loaded(o: Order, bidder: int, amount: int)
    | Tested(o: Order, bidder: int, amount: int)
    | Charged(o: Order, bidder: int, amount: int)
    | Won(o: Order, bidder: int, amount: int)
    | Lost(bidder: int, amount: int)

  /** How far the finaliser is with the first order of its list. An order with somebody online is
      handled in three steps: the seller is paid, the buyer gets the goods, the order is deleted. */
  datatype Stage = Waiting | Paid | Given

  /** Money that left the game for the house, that vanished, and that came from nowhere. */
  datatype Books = Books(burnt: int, lost: int, minted: int)

  /** An amount that nobody gets any more is lost; a debt that nobody pays is money from nowhere. */
  function Vanished(b: Books, amount: int): Books {
    if amount >= 0 then b.(lost := b.lost + amount) else b.(minted := b.minted - amount)
  }

  datatype System = System(
    t: Tables, online: set<int>, bids: map<int, Bid>, queue: seq<Order>,
    stage: Stage, finalized: seq<int>, books: Books)

  datatype Event =
    | Connect(player: int)
    | Disconnect(player: int)
    | Offer(seller: int, item: int, num: int, cost: int)
    | Load(bid: int, order: int, bidder: int, amount: int)
    | Test(bid: int)
    | Charge(bid: int)
    | Compete(bid: int, betTime: int)
    | Break(bid: int)
    | Settle(bid: int)
    | Refuse(bid: int)
    | List(rows: seq<Order>, cutoff: int)
    | Finalize
    | Hand
    | Remove

  // ---------------------------------------------------------------- bids

  function Moved(s: System, bid: int, b: Bid): System {
    s.(bids := s.bids[bid := b])
  }

  function Ended(s: System, bid: int): System {
    s.(bids := s.bids - {bid})
  }

  function OfferStep(s: System, seller: int, item: int, num: int, cost: int): System {
    if seller in s.online && seller in s.t.players && num > 0 && At(s.t.players[seller].items, item) >= num
    then s.(t := Created(Give(s.t, seller, item, -num), seller, item, num, cost))
    else s
  }

  function LoadStep(s: System, bid: int, order: int, bidder: int, amount: int): System {
    if bid !in s.bids && order in s.t.orders && bidder in s.t.players && bidder > 0
    then Moved(s, bid, Loaded(s.t.orders[order], bidder, amount))
    else s
  }

  /** The money is read and compared; nothing keeps it from changing before it is taken. */
  function TestStep(s: System, bid: int): System {
    if bid in s.bids && s.bids[bid].Loaded? then
      var b := s.bids[bid];
      if && b.bidder in s.online && b.bidder in s.t.players
         && MinBid(b.o.cost, b.o.buyer > 0) <= b.amount <= s.t.players[b.bidder].money
      then Moved(s, bid, Tested(b.o, b.bidder, b.amount))
      else Ended(s, bid)
    else s
  }

  /** The debit does not look at the money again. */
  function ChargeStep(s: System, bid: int): System {
    if bid in s.bids && s.bids[bid].Tested? then
      var b := s.bids[bid];
      if b.bidder in s.online && b.bidder in s.t.players
      then Moved(s.(t := Credit(s.t, b.bidder, -b.amount)), bid, Charged(b.o, b.bidder, b.amount))
      else Ended(s, bid)
    else s
  }

  function CompeteStep(s: System, bid: int, betTime: int): System {
    if bid in s.bids && s.bids[bid].Charged? then
      var b := s.bids[bid];
      if CasApplies(s.t, b.o.id, b.o.buyer, b.o.cost)
      then Moved(s.(t := Cas(s.t, b.o.id, b.amount, b.bidder, betTime, b.o.buyer, b.o.cost)), bid,
                 Won(b.o, b.bidder, b.amount))
      else Moved(s, bid, Lost(b.bidder, b.amount))
    else s
  }

  /** The database refuses the compare and set. */
  function BreakStep(s: System, bid: int): System {
    if bid in s.bids && s.bids[bid].Charged? then Moved(s, bid, Lost(s.bids[bid].bidder, s.bids[bid].amount)) else s
  }

  /** The winner pays out the one he outbid, wherever that one is. A loser gets his money back if he is
      online; if not, it is only logged that he did not. */
  function SettleStep(s: System, bid: int): System {
    if bid in s.bids && s.bids[bid].Won? then
      var o := s.bids[bid].o;
      if o.buyer == 0 then Ended(s, bid)
      else if o.buyer in s.t.players then Ended(s.(t := Credit(s.t, o.buyer, o.cost)), bid)
      else s
    else if bid in s.bids && s.bids[bid].Lost? then
      var b := s.bids[bid];
      if b.bidder in s.online && b.bidder in s.t.players then Ended(s.(t := Credit(s.t, b.bidder, b.amount)), bid)
      else Ended(s.(books := Vanished(s.books, b.amount)), bid)
    else s
  }

  /** Paying out the one who was outbid fails: the order is put back as it was, if it is still as the
      bid left it, and the bidder is owed his money either way. */
  function RefuseStep(s: System, bid: int): System {
    if bid in s.bids && s.bids[bid].Won? && s.bids[bid].o.buyer != 0 then
      var b := s.bids[bid];
      var restored := Cas(s.t, b.o.id, b.o.cost, b.o.buyer, b.o.betTime, b.bidder, b.amount);
      var books := if CasApplies(s.t, b.o.id, b.bidder, b.amount) then s.books
                   else Vanished(Vanished(s.books, b.o.cost), -b.amount);
      Moved(s.(t := restored, books := books), bid, Lost(b.bidder, b.amount))
    else s
  }

  // ---------------------------------------------------------------- the finaliser

  ghost predicate Listable(t: Tables, rows: seq<Order>, cutoff: int) {
    && (forall i :: 0 <= i < |rows| ==>
          rows[i].id in t.orders && t.orders[rows[i].id] == rows[i] && Ready(rows[i], cutoff))
    && (forall i, j :: 0 <= i < j < |rows| ==> rows[i].id != rows[j].id)
  }

  function Burnt(o: Order): int {
    if o.initiator == 0 then o.cost else 0
  }

  function Popped(s: System): System
    requires s.queue != []
  {
    s.(queue := s.queue[1..], stage := Waiting)
  }

  function Closed(s: System, t: Tables, books: Books): System
    requires s.queue != []
  {
    Popped(s).(t := t, finalized := s.finalized + [s.queue[0].id], books := books)
  }

  /** Both parties offline: one transaction. Otherwise the seller is paid first. */
  function FinalizeStep(s: System): System {
    if s.queue == [] || s.stage != Waiting then s
    else
      var o := s.queue[0];
      if o.buyer !in s.online && (o.initiator == 0 || o.initiator !in s.online) then
        var (r, t') := Finalized(s.t, o);
        if r == Success(true) then Closed(s, t', s.books.(burnt := s.books.burnt + Burnt(o))) else Popped(s)
      else if o.initiator == 0 then s.(stage := Paid)
      else if o.initiator in s.t.players then s.(t := Credit(s.t, o.initiator, o.cost), stage := Paid)
      else Popped(s)
  }

  function HandStep(s: System): System {
    if s.queue == [] || s.stage != Paid then s
    else
      var o := s.queue[0];
      if o.buyer in s.t.players then s.(t := Give(s.t, o.buyer, o.item, o.num), stage := Given)
      else if o.initiator != 0 && o.initiator in s.t.players then Popped(s.(t := Credit(s.t, o.initiator, -o.cost)))
      else Popped(s)
  }

  /** The order is deleted by its number, whatever has become of it since it was listed. */
  function RemoveStep(s: System): System {
    if s.queue == [] || s.stage != Given then s
    else
      var o := s.queue[0];
      if o.id !in s.t.orders then Popped(s)
      else
        var held := Escrow(s.t.orders[o.id]);
        Closed(s, s.t.(orders := s.t.orders - {o.id}),
               Vanished(s.books.(burnt := s.books.burnt + Burnt(o)), held - o.cost))
  }

  // ---------------------------------------------------------------- the whole

  ghost function Next(s: System, e: Event): System {
    match e
    case Connect(p) => if p in s.t.players then s.(online := s.online + {p}) else s
    case Disconnect(p) => s.(online := s.online - {p})
    case Offer(seller, item, num, cost) => OfferStep(s, seller, item, num, cost)
    case Load(bid, order, bidder, amount) => LoadStep(s, bid, order, bidder, amount)
    case Test(bid) => TestStep(s, bid)
    case Charge(bid) => ChargeStep(s, bid)
    case Compete(bid, betTime) => CompeteStep(s, bid, betTime)
    case Break(bid) => BreakStep(s, bid)
    case Settle(bid) => SettleStep(s, bid)
    case Refuse(bid) => RefuseStep(s, bid)
    case List(rows, cutoff) =>
      if s.queue == [] && Listable(s.t, rows, cutoff) then s.(queue := rows, stage := Waiting) else s
    case Finalize => FinalizeStep(s)
    case Hand => HandStep(s)
    case Remove => RemoveStep(s)
  }

  ghost function Run(s: System, es: seq<Event>): System
    decreases es
  {
    if es == [] then s else Run(Next(s, es[0]), es[1..])
  }

  // ---------------------------------------------------------------- what must hold in every state

  ghost predicate OrderSound(t: Tables, id: int) {
    id in t.orders ==>
      var o := t.orders[id];
      && o.id == id && id < t.nextId
      && (o.initiator == 0 || o.initiator in t.players)
      && (o.buyer == 0 || (o.buyer > 0 && o.buyer in t.players))
  }

  ghost predicate SnapshotSound(t: Tables, o: Order) {
    o.buyer == 0 || (o.buyer > 0 && o.buyer in t.players)
  }

  /** A bid that has been tested is at least the least acceptable one over its snapshot. */
  ghost predicate BidSound(t: Tables, b: Bid) {
    && b.bidder > 0 && b.bidder in t.players && (!b.Lost? ==> SnapshotSound(t, b.o))
    && (b.Tested? || b.Charged? || b.Won? ==> MinBid(b.o.cost, b.o.buyer > 0) <= b.amount)
  }

  /** What the finaliser holds is still there, with the same goods from the same seller: only the
      finaliser deletes orders, and bids change neither. */
  ghost predicate ListedSound(t: Tables, o: Order) {
    && o.buyer > 0 && o.buyer in t.players && (o.initiator == 0 || o.initiator in t.players)
    && o.id in t.orders
    && t.orders[o.id].item == o.item && t.orders[o.id].num == o.num && t.orders[o.id].initiator == o.initiator
  }

  ghost predicate QueueSound(s: System) {
    && (forall i :: 0 <= i < |s.queue| ==> ListedSound(s.t, s.queue[i]))
    && (forall i, j :: 0 <= i < j < |s.queue| ==> s.queue[i].id != s.queue[j].id)
    && (s.queue == [] ==> s.stage == Waiting)
  }

  ghost predicate HistorySound(s: System) {
    && (forall i, j :: 0 <= i < j < |s.finalized| ==> s.finalized[i] != s.finalized[j])
    && (forall i :: 0 <= i < |s.finalized| ==> s.finalized[i] < s.t.nextId && s.finalized[i] !in s.t.orders)
  }

  ghost predicate Inv(s: System) {
    && s.online <= s.t.players.Keys
    && (forall p :: p in s.t.players ==> p > 0)
    && (forall id :: OrderSound(s.t, id))
    && (forall k :: k in s.bids ==> BidSound(s.t, s.bids[k]))
    && QueueSound(s) && HistorySound(s)
  }

  /** No player goes, numbers only grow, and an order that stays keeps its goods and its seller. */
  ghost predicate TablesGrow(t: Tables, t': Tables) {
    && t.players.Keys == t'.players.Keys && t.nextId <= t'.nextId
    && (forall id :: OrderSound(t', id))
    && (forall id :: id in t.orders && id in t'.orders ==>
          && t'.orders[id].item == t.orders[id].item && t'.orders[id].num == t.orders[id].num
          && t'.orders[id].initiator == t.orders[id].initiator)
    && (forall id :: id in t'.orders && id !in t.orders ==> id >= t.nextId)
  }

  lemma CasGrows(t: Tables, id: int, cost: int, buyer: int, betTime: int, expectedBuyer: int, expectedCost: int)
    requires forall i :: OrderSound(t, i)
    requires buyer == 0 || (buyer > 0 && buyer in t.players)
    ensures TablesGrow(t, Cas(t, id, cost, buyer, betTime, expectedBuyer, expectedCost))
  {
    var t' := Cas(t, id, cost, buyer, betTime, expectedBuyer, expectedCost);
    forall i
      ensures OrderSound(t', i)
    {
      assert OrderSound(t, i);
    }
  }

  /** Any change of the players' rows alone, and any deletion of an order. */
  lemma RowsGrow(t: Tables, t': Tables)
    requires forall i :: OrderSound(t, i)
    requires t'.players.Keys == t.players.Keys && t'.nextId == t.nextId
    requires forall i :: i in t'.orders ==> i in t.orders && t'.orders[i] == t.orders[i]
    ensures TablesGrow(t, t')
  {
    forall i
      ensures OrderSound(t', i)
    {
      assert OrderSound(t, i);
    }
  }

  lemma OfferGrows(s: System, seller: int, item: int, num: int, cost: int)
    requires Inv(s)
    ensures TablesGrow(s.t, OfferStep(s, seller, item, num, cost).t)
  {
    var t' := OfferStep(s, seller, item, num, cost).t;
    forall i
      ensures OrderSound(t', i)
    {
      assert OrderSound(s.t, i);
    }
    assert OrderSound(s.t, s.t.nextId);
  }

  lemma TablesSound(s: System, e: Event)
    requires Inv(s)
    ensures TablesGrow(s.t, Next(s, e).t)
  {
    hide QueueSound, HistorySound, TablesGrow;
    match e
    case Offer(seller, item, num, cost) => OfferGrows(s, seller, item, num, cost);
    case Compete(bid, betTime) =>
      if bid in s.bids && s.bids[bid].Charged? {
        var b := s.bids[bid];
        assert BidSound(s.t, b);
        CasGrows(s.t, b.o.id, b.amount, b.bidder, betTime, b.o.buyer, b.o.cost);
      } else {
        RowsGrow(s.t, s.t);
      }
    case Refuse(bid) =>
      if bid in s.bids && s.bids[bid].Won? {
        var b := s.bids[bid];
        assert BidSound(s.t, b);
        CasGrows(s.t, b.o.id, b.o.cost, b.o.buyer, b.o.betTime, b.bidder, b.amount);
      }
      RowsGrow(s.t, s.t);
    case _ => RowsGrow(s.t, Next(s, e).t);
  }

  // ---------------------------------------------------------------- soundness is kept

  /** A step leaves a bid alone, ends it, or moves it on with the same bidder and snapshot. */
  lemma BidsSound(s: System, e: Event)
    requires Inv(s) && TablesGrow(s.t, Next(s, e).t)
    ensures forall k :: k in Next(s, e).bids ==> BidSound(Next(s, e).t, Next(s, e).bids[k])
  {
    hide QueueSound, HistorySound;
    var s' := Next(s, e);
    forall k | k in s'.bids
      ensures BidSound(s'.t, s'.bids[k])
    {
      if k in s.bids {
        assert BidSound(s.t, s.bids[k]);
      } else {
        assert OrderSound(s.t, e.order);
      }
    }
  }

  lemma ListedStays(t: Tables, t': Tables, o: Order)
    requires ListedSound(t, o) && TablesGrow(t, t') && o.id in t'.orders
    ensures ListedSound(t', o)
  {
  }

  lemma ListedQueue(s: System, e: Event)
    requires Inv(s) && e.List?
    ensures QueueSound(Next(s, e))
  {
    hide HistorySound;
    var s' := Next(s, e);
    forall i | 0 <= i < |s'.queue|
      ensures ListedSound(s'.t, s'.queue[i])
    {
      if s' != s {
        assert OrderSound(s.t, s'.queue[i].id);
      }
    }
  }

  lemma KeptQueue(s: System, e: Event)
    requires Inv(s) && !e.List?
    ensures var s' := Next(s, e);
            s'.queue == s.queue || (s.queue != [] && s'.queue == s.queue[1..] && s'.stage == Waiting)
    ensures Next(s, e).queue == [] ==> Next(s, e).stage == Waiting
  {
    hide HistorySound, OrderSound, BidSound;
  }

  lemma QueueStays(s: System, e: Event)
    requires Inv(s) && TablesGrow(s.t, Next(s, e).t)
    ensures QueueSound(Next(s, e))
  {
    hide HistorySound, TablesGrow, Next, ListedSound, OrderSound, BidSound;
    if e.List? {
      ListedQueue(s, e);
    } else {
      KeptQueue(s, e);
      var s' := Next(s, e);
      forall i | 0 <= i < |s'.queue|
        ensures ListedSound(s'.t, s'.queue[i])
      {
        var j := if s'.queue == s.queue then i else i + 1;
        assert s'.queue[i] == s.queue[j];
        QueueOrderStays(s, e, j);
        ListedStays(s.t, s'.t, s.queue[j]);
      }
    }
  }

  /** An order the finaliser still has to look at is not deleted. */
  lemma QueueOrderStays(s: System, e: Event, j: nat)
    requires QueueSound(s) && j < |s.queue| && !e.List?
    requires Next(s, e).queue == s.queue || j > 0
    ensures s.queue[j].id in Next(s, e).t.orders
  {
    assert ListedSound(s.t, s.queue[j]);
  }

  lemma HistoryStays(s: System, e: Event)
    requires Inv(s) && TablesGrow(s.t, Next(s, e).t)
    ensures HistorySound(Next(s, e))
  {
    var s' := Next(s, e);
    if s.queue != [] {
      assert ListedSound(s.t, s.queue[0]) && OrderSound(s.t, s.queue[0].id);
    }
    forall i | 0 <= i < |s'.finalized|
      ensures s'.finalized[i] < s'.t.nextId && s'.finalized[i] !in s'.t.orders
    {
      if i < |s.finalized| {
        assert s'.finalized[i] == s.finalized[i];
      }
    }
  }

  lemma NextInv(s: System, e: Event)
    requires Inv(s)
    ensures Inv(Next(s, e))
  {
    TablesSound(s, e);
    BidsSound(s, e);
    QueueStays(s, e);
    HistoryStays(s, e);
  }

  lemma {:induction false} RunInv(s: System, es: seq<Event>)
    requires Inv(s)
    ensures Inv(Run(s, es))
    decreases es
  {
    if es != [] {
      NextInv(s, es[0]);
      RunInv(Next(s, es[0]), es[1..]);
    }
  }

  lemma RunStep(s: System, e: Event, es: seq<Event>)
    ensures Run(s, [e] + es) == Run(Next(s, e), es)
  {
    assert ([e] + es)[1..] == es;
  }

  lemma RunOfFour(s: System, a: Event, b: Event, c: Event, d: Event)
    ensures Run(s, [a, b, c, d]) == Next(Next(Next(Next(s, a), b), c), d)
  {
    assert [a, b, c, d] == [a] + [b, c, d] && [b, c, d] == [b] + [c, d] && [c, d] == [c] + [d] && [d] == [d] + [];
    RunStep(s, a, [b, c, d]);
    RunStep(Next(s, a), b, [c, d]);
    RunStep(Next(Next(s, a), b), c, [d]);
    RunStep(Next(Next(Next(s, a), b), c), d, []);
  }
}
