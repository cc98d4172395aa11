/** When bids and payments overdraw a player. */
module AuctionSolvency {
  import opened Wrappers
  import opened Totals
  import opened Orders
  import opened Auction

  // ---------------------------------------------------------------- what is spoken for

  function Positive(n: int): nat {
    if n > 0 then n else 0
  }

  function Risk(b: Bid, p: int): nat {
    if b.Tested? && b.bidder == p then Positive(b.amount) else 0
  }

  ghost function RiskOf(bids: map<int, Bid>, p: int): map<int, int> {
    map k | k in bids :: Risk(bids[k], p)
  }

  /** What a player's bids between test and debit are about to take. */
  ghost function Exposure(s: System, p: int): int {
    Sum(RiskOf(s.bids, p))
  }

  ghost predicate Solvent(t: Tables) {
    forall p :: p in t.players ==> t.players[p].money >= 0
  }

  /** What a player has beyond that. */
  ghost function Spare(s: System, p: int): int
    requires p in s.t.players
  {
    s.t.players[p].money - Exposure(s, p)
  }

  /** Everybody can pay all he has been tested for. */
  ghost predicate Affordable(s: System) {
    forall p :: p in s.t.players ==> Spare(s, p) >= 0
  }

  lemma RiskChanges(bids: map<int, Bid>, k: int, b: Bid, p: int)
    ensures Sum(RiskOf(bids[k := b], p))
            == Sum(RiskOf(bids, p)) - (if k in bids then Risk(bids[k], p) else 0) + Risk(b, p)
  {
    assert RiskOf(bids[k := b], p) == RiskOf(bids, p)[k := Risk(b, p)];
    SumUpdate(RiskOf(bids, p), k, Risk(b, p));
  }

  lemma RiskGoes(bids: map<int, Bid>, k: int, p: int)
    requires k in bids
    ensures Sum(RiskOf(bids - {k}, p)) == Sum(RiskOf(bids, p)) - Risk(bids[k], p)
  {
    assert RiskOf(bids - {k}, p) == RiskOf(bids, p) - {k};
    SumRemove(RiskOf(bids, p), k);
  }

  lemma AffordableSolvent(s: System)
    requires Affordable(s)
    ensures Solvent(s.t)
  {
    forall p | p in s.t.players
      ensures s.t.players[p].money >= 0
    {
      assert Spare(s, p) >= 0;
      SumOfNats(RiskOf(s.bids, p));
    }
  }

  // ---------------------------------------------------------------- what a step takes

  /** A test passes although the money is already spoken for. */
  ghost predicate Overreaches(s: System, e: Event) {
    && e.Test? && e.bid in s.bids && s.bids[e.bid].Loaded?
    && var b := s.bids[e.bid];
       && b.bidder in s.online && b.bidder in s.t.players && MinBid(b.o.cost, b.o.buyer > 0) <= b.amount
       && b.amount <= s.t.players[b.bidder].money < Exposure(s, b.bidder) + Positive(b.amount)
  }

  /** Whom a step pays and how much: the one who was outbid, a loser who is there, or a seller. */
  function Payment(s: System, e: Event): Option<(int, int)> {
    match e
    case Settle(k) =>
      if k !in s.bids then None
      else if s.bids[k].Won? && s.bids[k].o.buyer != 0 then Some((s.bids[k].o.buyer, s.bids[k].o.cost))
      else if s.bids[k].Lost? && s.bids[k].bidder in s.online then Some((s.bids[k].bidder, s.bids[k].amount))
      else None
    case Finalize =>
      if s.queue == [] || s.stage != Waiting || s.queue[0].initiator == 0 then None
      else
        var o := s.queue[0];
        if o.buyer in s.online || o.initiator in s.online || (o.id in s.t.orders && s.t.orders[o.id] == o)
        then Some((o.initiator, o.cost))
        else None
    case _ => None
  }

  /** A payment takes more than is free, so it is one below zero. */
  ghost predicate Drains(s: System, e: Event) {
    && Payment(s, e).Some? && Payment(s, e).value.0 in s.t.players
    && s.t.players[Payment(s, e).value.0].money + Payment(s, e).value.1 < Exposure(s, Payment(s, e).value.0)
  }

  lemma TestTakes(s: System, bid: int, p: int)
    requires p in s.t.players
    ensures var s' := TestStep(s, bid);
            && s'.t == s.t
            && Spare(s', p) == Spare(s, p)
               - if s' != s && bid in s'.bids && s.bids[bid].bidder == p then Positive(s.bids[bid].amount) else 0
  {
    hide Sum, RiskOf;
    if bid in s.bids && s.bids[bid].Loaded? {
      var b := s.bids[bid];
      RiskChanges(s.bids, bid, Tested(b.o, b.bidder, b.amount), p);
      RiskGoes(s.bids, bid, p);
    }
  }

  /** The debit takes what was spoken for. */
  lemma ChargeTakes(s: System, bid: int, p: int)
    requires p in s.t.players
    ensures var s' := ChargeStep(s, bid); p in s'.t.players && Spare(s', p) >= Spare(s, p)
    ensures bid in s.bids && s.bids[bid].Tested? && s.bids[bid].amount > 0 && p in s.online ==>
              Spare(ChargeStep(s, bid), p) == Spare(s, p)
  {
    hide Sum, RiskOf;
    if bid in s.bids && s.bids[bid].Tested? {
      var b := s.bids[bid];
      RiskChanges(s.bids, bid, Charged(b.o, b.bidder, b.amount), p);
      RiskGoes(s.bids, bid, p);
    }
  }

  lemma SettleTakes(s: System, bid: int, p: int)
    requires Inv(s) && p in s.t.players
    ensures var s' := SettleStep(s, bid);
            p in s'.t.players
            && Spare(s', p) == Spare(s, p)
               + if Payment(s, Settle(bid)).Some? && Payment(s, Settle(bid)).value.0 == p
                 then Payment(s, Settle(bid)).value.1 else 0
  {
    hide Sum, RiskOf;
    if bid in s.bids {
      assert BidSound(s.t, s.bids[bid]);
      RiskGoes(s.bids, bid, p);
    }
  }

  lemma FinalizeTakes(s: System, p: int)
    requires Inv(s) && p in s.t.players
    ensures var s' := FinalizeStep(s);
            p in s'.t.players
            && Spare(s', p) == Spare(s, p)
               + if Payment(s, Finalize).Some? && Payment(s, Finalize).value.0 == p
                 then Payment(s, Finalize).value.1 else 0
  {
    hide Sum, RiskOf;
    if s.queue != [] {
      assert ListedSound(s.t, s.queue[0]);
    }
  }

  /** Nothing else touches what a player has or is tested for. */
  lemma OthersTakeNothing(s: System, e: Event, p: int)
    requires Inv(s) && p in s.t.players
    requires !e.Test? && !e.Charge? && !e.Settle? && !e.Finalize?
    ensures p in Next(s, e).t.players && Spare(Next(s, e), p) == Spare(s, p)
  {
    hide Sum, RiskOf;
    if e.Load? || e.Compete? || e.Break? || e.Refuse? {
      if e.bid in Next(s, e).bids {
        RiskChanges(s.bids, e.bid, Next(s, e).bids[e.bid], p);
      }
    }
    if s.queue != [] {
      assert ListedSound(s.t, s.queue[0]);
    }
  }

  lemma NextSpare(s: System, e: Event, p: int)
    requires Inv(s) && p in s.t.players && Spare(s, p) >= 0 && !Overreaches(s, e) && !Drains(s, e)
    ensures p in Next(s, e).t.players && Spare(Next(s, e), p) >= 0
  {
    hide Exposure, Inv;
    match e
    case Test(bid) => TestTakes(s, bid, p);
    case Charge(bid) => ChargeTakes(s, bid, p);
    case Settle(bid) => SettleTakes(s, bid, p);
    case Finalize => FinalizeTakes(s, p);
    case _ => OthersTakeNothing(s, e, p);
  }

  /** Exactly a test that overreaches, and a payment below zero that takes more than is free, end
      affordability. */
  lemma NextAffordable(s: System, e: Event)
    requires Inv(s) && Affordable(s)
    ensures Affordable(Next(s, e)) <==> !Overreaches(s, e) && !Drains(s, e)
  {
    hide Exposure, Inv;
    TablesSound(s, e);
    if Overreaches(s, e) {
      TestTakes(s, e.bid, s.bids[e.bid].bidder);
    } else if Drains(s, e) {
      var p := Payment(s, e).value.0;
      if e.Settle? {
        SettleTakes(s, e.bid, p);
      } else {
        FinalizeTakes(s, p);
      }
      assert Spare(Next(s, e), p) < 0;
    } else {
      forall p | p in Next(s, e).t.players
        ensures Spare(Next(s, e), p) >= 0
      {
        assert Spare(s, p) >= 0;
        NextSpare(s, e, p);
      }
    }
  }

  // ---------------------------------------------------------------- runs

  /** No test overreaches and no payment drains. */
  ghost predicate Careful(s: System, es: seq<Event>)
    decreases es
  {
    es == [] || (!Overreaches(s, es[0]) && !Drains(s, es[0]) && Careful(Next(s, es[0]), es[1..]))
  }

  ghost predicate AlwaysAffordable(s: System, es: seq<Event>)
    decreases es
  {
    Affordable(s) && (es == [] || AlwaysAffordable(Next(s, es[0]), es[1..]))
  }

  /** A careful run is one in which everybody can always pay, and nobody is ever in debt. */
  lemma {:induction false} RunSolvent(s: System, es: seq<Event>)
    requires Inv(s)
    ensures AlwaysAffordable(s, es) <==> Affordable(s) && Careful(s, es)
    ensures AlwaysAffordable(s, es) ==> Affordable(Run(s, es)) && Solvent(Run(s, es).t)
    decreases es
  {
    hide Inv, Overreaches, Drains, Affordable, Solvent;
    if es == [] {
      if Affordable(s) {
        AffordableSolvent(s);
      }
    } else {
      NextInv(s, es[0]);
      if Affordable(s) {
        NextAffordable(s, es[0]);
      }
      RunSolvent(Next(s, es[0]), es[1..]);
    }
  }

  ghost predicate Untested(es: seq<Event>) {
    forall i :: 0 <= i < |es| ==> !es[i].Test?
  }

  function TestedBy(bids: map<int, Bid>, p: int): set<int> {
    set k | k in bids && Risk(bids[k], p) > 0
  }

  lemma NoneTested(s: System, p: int)
    requires TestedBy(s.bids, p) == {}
    ensures Exposure(s, p) == 0
  {
    forall k | k in s.bids
      ensures Risk(s.bids[k], p) == 0
    {
      assert k !in TestedBy(s.bids, p);
    }
    SumOfZeros(RiskOf(s.bids, p));
  }

  /** Debiting all a player was tested for. */
  lemma {:induction false} ChargeAll(s: System, p: int) returns (es: seq<Event>)
    requires p in s.online && p in s.t.players && Spare(s, p) < 0
    ensures forall i :: 0 <= i < |es| ==> es[i].Charge?
    ensures Careful(s, es)
    ensures var t := Run(s, es).t; p in t.players && t.players[p].money < 0
    decreases |TestedBy(s.bids, p)|
  {
    if TestedBy(s.bids, p) == {} {
      NoneTested(s, p);
      es := [];
    } else {
      var k := Totals.Some(TestedBy(s.bids, p));
      var s' := Next(s, Charge(k));
      ChargeTakes(s, k, p);
      assert TestedBy(s'.bids, p) == TestedBy(s.bids, p) - {k};
      var rest := ChargeAll(s', p);
      RunStep(s, Charge(k), rest);
      es := [Charge(k)] + rest;
      assert es[1..] == rest;
    }
  }

  lemma ConnectFirst(s: System, p: int) returns (es: seq<Event>)
    requires p in s.t.players && Spare(s, p) < 0
    ensures forall i :: 0 <= i < |es| ==> es[i].Charge? || es[i].Connect?
    ensures Careful(s, es) && !Solvent(Run(s, es).t)
  {
    var s' := Next(s, Connect(p));
    assert Spare(s', p) == Spare(s, p);
    var rest := ChargeAll(s', p);
    RunStep(s, Connect(p), rest);
    es := [Connect(p)] + rest;
    assert es[1..] == rest;
  }

  /** Without a further test, and but for payments below zero, nobody can be driven into debt if and only
      if everybody can now pay all he has been tested for. */
  lemma SolventExactly(s: System)
    requires Inv(s)
    ensures Affordable(s) <==> forall es :: Untested(es) && Careful(s, es) ==> Solvent(Run(s, es).t)
  {
    if Affordable(s) {
      forall es | Untested(es) && Careful(s, es)
        ensures Solvent(Run(s, es).t)
      {
        RunSolvent(s, es);
      }
    } else {
      var p :| p in s.t.players && Spare(s, p) < 0;
      var es := ConnectFirst(s, p);
      assert Untested(es) && Careful(s, es) && !Solvent(Run(s, es).t);
    }
  }

  // ---------------------------------------------------------------- two bids, one purse

  /** Two orders at a hundred each, and a player with a hundred who is about to bid on both. */
  function TwoBids(): System {
    var first, second := Order(1, 0, 5, 1, 100, 0, 0), Order(2, 0, 6, 1, 100, 0, 0);
    System(Tables(map[1 := first, 2 := second], map[7 := Player(100, map[])], 3), {7},
           map[0 := Loaded(first, 7, 100), 1 := Loaded(second, 7, 100)], [], Waiting, [], Books(0, 0, 0))
  }

  lemma TwoBidsSound()
    ensures Inv(TwoBids()) && Solvent(TwoBids().t)
  {
    forall id
      ensures OrderSound(TwoBids().t, id)
    {
    }
  }

  /** Both tested before either is charged, they take twice what he has. */
  lemma TwoBidsOverdraw()
    ensures Inv(TwoBids()) && Solvent(TwoBids().t)
    ensures var t := Run(TwoBids(), [Test(0), Test(1), Charge(0), Charge(1)]).t;
            7 in t.players && t.players[7].money == -100
  {
    hide Inv, Solvent;
    TwoBidsSound();
    RunOfFour(TwoBids(), Test(0), Test(1), Charge(0), Charge(1));
  }
}
