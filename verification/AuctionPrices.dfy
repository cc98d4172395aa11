/** Which prices drive players into debt. Orders may ask for less than nothing; then whoever is paid pays. */
module AuctionPrices {
  import opened Totals
  import opened Orders
  import opened Auction
  import opened AuctionSolvency

  // ---------------------------------------------------------------- harmless states

  /** No payment below zero can come of the bid. */
  ghost predicate BidHarmless(b: Bid) {
    match b
    case Loaded(o, _, amount) => amount >= 0 || amount < MinBid(o.cost, o.buyer > 0)
    case Tested(_, _, amount) => amount >= 0
    case Charged(_, _, amount) => amount >= 0
    case Won(o, _, amount) => o.buyer == 0 || (o.cost >= 0 && amount >= 0)
    case Lost(_, amount) => amount >= 0
  }

  /** The i-th order of the finaliser's list has been paid for, or pays somebody nothing or more. */
  ghost predicate ListedHarmless(s: System, i: nat)
    requires i < |s.queue|
  {
    (i == 0 && s.stage != Waiting) || s.queue[i].initiator == 0 || s.queue[i].cost >= 0
  }

  ghost predicate Harmless(s: System) {
    && (forall id :: id in s.t.orders ==> s.t.orders[id].cost >= 0)
    && (forall k :: k in s.bids ==> BidHarmless(s.bids[k]))
    && (forall i :: 0 <= i < |s.queue| ==> ListedHarmless(s, i))
  }

  ghost predicate FairEvent(e: Event) {
    e.Offer? ==> e.cost >= 0
  }

  ghost predicate Fair(es: seq<Event>) {
    forall i :: 0 <= i < |es| ==> FairEvent(es[i])
  }

  /** No test overreaches. */
  ghost predicate Cautious(s: System, es: seq<Event>)
    decreases es
  {
    es == [] || (!Overreaches(s, es[0]) && Cautious(Next(s, es[0]), es[1..]))
  }

  lemma BidStaysHarmless(s: System, e: Event, k: int)
    requires Inv(s) && Harmless(s) && k in Next(s, e).bids
    ensures BidHarmless(Next(s, e).bids[k])
  {
    if k in s.bids {
      assert BidHarmless(s.bids[k]) && BidSound(s.t, s.bids[k]);
    }
  }

  lemma OrderStaysHarmless(s: System, e: Event, id: int)
    requires Inv(s) && Harmless(s) && FairEvent(e) && id in Next(s, e).t.orders
    ensures Next(s, e).t.orders[id].cost >= 0
  {
    if (e.Compete? || e.Refuse?) && e.bid in s.bids {
      assert BidHarmless(s.bids[e.bid]);
    }
  }

  lemma NextHarmless(s: System, e: Event)
    requires Inv(s) && Harmless(s) && FairEvent(e)
    ensures Harmless(Next(s, e))
  {
    hide Inv, BidHarmless;
    var s' := Next(s, e);
    forall k | k in s'.bids
      ensures BidHarmless(s'.bids[k])
    {
      BidStaysHarmless(s, e, k);
    }
    forall id | id in s'.t.orders
      ensures s'.t.orders[id].cost >= 0
    {
      OrderStaysHarmless(s, e, id);
    }
    forall i | 0 <= i < |s'.queue|
      ensures ListedHarmless(s', i)
    {
      if !e.List? {
        var j := if s'.queue == s.queue then i else i + 1;
        assert ListedHarmless(s, j);
      }
    }
  }

  lemma HarmlessDrainsNothing(s: System, e: Event)
    requires Harmless(s) && Affordable(s)
    ensures !Drains(s, e)
  {
    if Payment(s, e).Some? && Payment(s, e).value.0 in s.t.players {
      assert Spare(s, Payment(s, e).value.0) >= 0;
      if e.Settle? {
        assert BidHarmless(s.bids[e.bid]);
      } else {
        assert ListedHarmless(s, 0);
      }
    }
  }

  lemma {:induction false} FairRunSolvent(s: System, es: seq<Event>)
    requires Inv(s) && Affordable(s) && Harmless(s) && Fair(es) && Cautious(s, es)
    ensures Solvent(Run(s, es).t)
    decreases es
  {
    hide Inv, Affordable, Harmless, Solvent, Drains, Overreaches;
    if es == [] {
      AffordableSolvent(s);
    } else {
      NextInv(s, es[0]);
      HarmlessDrainsNothing(s, es[0]);
      NextAffordable(s, es[0]);
      NextHarmless(s, es[0]);
      FairRunSolvent(Next(s, es[0]), es[1..]);
    }
  }

  // ---------------------------------------------------------------- how harm is done

  /** A run without an overreaching test or an offer below zero that leaves somebody in debt. */
  ghost predicate Ruins(s: System, es: seq<Event>) {
    Fair(es) && Cautious(s, es) && !Solvent(Run(s, es).t)
  }

  lemma Prepend(s: System, e: Event, es: seq<Event>)
    requires Ruins(Next(s, e), es) && FairEvent(e) && !Overreaches(s, e)
    ensures Ruins(s, [e] + es)
  {
    RunStep(s, e, es);
    assert ([e] + es)[1..] == es;
  }

  /** Nobody is overdrawn, and there is an order for nothing or less. */
  ghost predicate Poised(s: System, x: int) {
    Inv(s) && Affordable(s) && x in s.t.orders && s.t.orders[x].cost <= 0
  }

  /** Events that pay nobody and leave the orders there are alone. */
  ghost predicate Quiet(s: System, e: Event) {
    e.Connect? || e.Load? || e.Charge? || e.Break? || e.Offer? || (e.Test? && !Overreaches(s, e))
  }

  lemma QuietKeeps(s: System, e: Event, x: int)
    requires Inv(s) && Quiet(s, e) && x in s.t.orders
    ensures x in Next(s, e).t.orders && Next(s, e).t.orders[x] == s.t.orders[x]
    ensures Next(s, e).queue == s.queue && Next(s, e).stage == s.stage
    ensures s.online <= Next(s, e).online && Next(s, e).t.players.Keys == s.t.players.Keys
  {
    assert OrderSound(s.t, x);
  }

  lemma StaysPoised(s: System, x: int, e: Event)
    requires Poised(s, x) && Quiet(s, e)
    ensures Poised(Next(s, e), x)
  {
    hide Inv, Affordable, Next;
    NextInv(s, e);
    NextAffordable(s, e);
    QuietKeeps(s, e, x);
  }

  lemma {:induction false} Unused(s: set<int>) returns (k: int)
    ensures forall j :: j in s ==> j < k
  {
    if s == {} {
      k := 0;
    } else {
      var j := Totals.Some(s);
      var rest := Unused(s - {j});
      k := if rest > j then rest else j + 1;
      forall i | i in s
        ensures i < k
      {
        assert i == j || i in s - {j};
      }
    }
  }

  /** A quiet step does not change who is paid by another event, unless it is about the same bid. */
  lemma PaymentStays(s: System, e: Event, d: Event)
    requires Inv(s) && Quiet(s, e) && Payment(s, d).Some?
    requires d.Settle? ==> e.Connect? || e.Offer? || e.bid != d.bid
    ensures Payment(Next(s, e), d) == Payment(s, d)
  {
    if s.queue != [] {
      assert ListedSound(s.t, s.queue[0]);
      QuietKeeps(s, e, s.queue[0].id);
    }
  }

  /** Spending all that is free: bidding so much on the order for nothing. */
  lemma Spend(s: System, x: int, p: int, k: int)
    requires Poised(s, x) && p in s.online && p in s.t.players && k !in s.bids
    ensures var s1 := Next(s, Load(k, x, p, Spare(s, p)));
            && Quiet(s1, Test(k)) && Poised(Next(s1, Test(k)), x)
            && p in Next(s1, Test(k)).t.players && Spare(Next(s1, Test(k)), p) == 0
  {
    hide Exposure;
    var e := Load(k, x, p, Spare(s, p));
    var s1 := Next(s, e);
    StaysPoised(s, x, e);
    assert Spare(s, p) >= 0;
    OthersTakeNothing(s, e, p);
    assert s1.bids[k] == Loaded(s.t.orders[x], p, Spare(s, p)) && s1.t == s.t;
    SpeltOut(s1, k, p);
    TestTakes(s1, k, p);
    StaysPoised(s1, x, Test(k));
  }

  lemma SpeltOut(s: System, k: int, p: int)
    requires k in s.bids && s.bids[k].Loaded? && s.bids[k].bidder == p && p in s.online && p in s.t.players
    requires s.bids[k].amount == Spare(s, p) >= 0 && s.bids[k].o.cost <= 0
    ensures !Overreaches(s, Test(k))
    ensures TestStep(s, k) == Moved(s, k, Tested(s.bids[k].o, p, s.bids[k].amount))
  {
    SumOfNats(RiskOf(s.bids, p));
  }

  /** Whoever is to be paid less than nothing spends all that is free first. */
  lemma ByPayment(s: System, x: int, e: Event) returns (es: seq<Event>)
    requires Poised(s, x) && (e.Settle? || e.Finalize?)
    requires Payment(s, e).Some? && Payment(s, e).value.0 in s.t.players && Payment(s, e).value.1 < 0
    ensures Ruins(s, es)
  {
    hide Exposure, Affordable, Payment, Ruins, Inv, Next, Solvent;
    var p := Payment(s, e).value.0;
    var s1 := Next(s, Connect(p));
    StaysPoised(s, x, Connect(p));
    PaymentStays(s, Connect(p), e);
    Connected(s, p);
    var k := Unused(s1.bids.Keys);
    var load := Load(k, x, p, Spare(s1, p));
    StaysPoised(s1, x, load);
    Spend(s1, x, p, k);
    var s2 := Next(s1, load);
    var s3 := Next(s2, Test(k));
    if e.Settle? {
      Paying(s1, e);
    }
    PaymentStays(s1, load, e);
    PaymentStays(s2, Test(k), e);
    var rest := Pay(s3, e, p);
    Prepend(s2, Test(k), rest);
    Prepend(s1, load, [Test(k)] + rest);
    Prepend(s, Connect(p), [load] + ([Test(k)] + rest));
    es := [Connect(p)] + ([load] + ([Test(k)] + rest));
  }

  lemma Connected(s: System, p: int)
    requires p in s.t.players
    ensures p in Next(s, Connect(p)).online && p in Next(s, Connect(p)).t.players
  {
  }

  lemma Paying(s: System, e: Event)
    requires Payment(s, e).Some? && e.Settle?
    ensures e.bid in s.bids
  {
  }

  lemma Pay(s: System, e: Event, p: int) returns (es: seq<Event>)
    requires Inv(s) && Affordable(s) && (e.Settle? || e.Finalize?)
    requires p in s.t.players && Spare(s, p) == 0
    requires Payment(s, e).Some? && Payment(s, e).value.0 == p && Payment(s, e).value.1 < 0
    ensures Ruins(s, es)
  {
    hide Exposure, Inv, Payment;
    NextAffordable(s, e);
    assert Drains(s, e);
    var q :| q in Next(s, e).t.players && Spare(Next(s, e), q) < 0;
    var rest := ConnectFirst(Next(s, e), q);
    CarefulCautious(Next(s, e), rest);
    Prepend(s, e, rest);
    es := [e] + rest;
  }

  lemma {:induction false} CarefulCautious(s: System, es: seq<Event>)
    requires Careful(s, es)
    ensures Cautious(s, es)
    decreases es
  {
    if es != [] {
      CarefulCautious(Next(s, es[0]), es[1..]);
    }
  }

  lemma ByLost(s: System, x: int, k: int) returns (es: seq<Event>)
    requires Poised(s, x) && k in s.bids && s.bids[k].Lost? && s.bids[k].amount < 0
    ensures Ruins(s, es)
  {
    assert BidSound(s.t, s.bids[k]);
    var p := s.bids[k].bidder;
    StaysPoised(s, x, Connect(p));
    var rest := ByPayment(Next(s, Connect(p)), x, Settle(k));
    Prepend(s, Connect(p), rest);
    es := [Connect(p)] + rest;
  }

  lemma ByCharged(s: System, x: int, k: int) returns (es: seq<Event>)
    requires Poised(s, x) && k in s.bids && s.bids[k].Charged? && s.bids[k].amount < 0
    ensures Ruins(s, es)
  {
    StaysPoised(s, x, Break(k));
    var rest := ByLost(Next(s, Break(k)), x, k);
    Prepend(s, Break(k), rest);
    es := [Break(k)] + rest;
  }

  lemma ByTested(s: System, x: int, k: int) returns (es: seq<Event>)
    requires Poised(s, x) && k in s.bids && s.bids[k].Tested? && s.bids[k].amount < 0
    ensures Ruins(s, es)
  {
    assert BidSound(s.t, s.bids[k]);
    var p := s.bids[k].bidder;
    var s1 := Next(s, Connect(p));
    StaysPoised(s, x, Connect(p));
    StaysPoised(s1, x, Charge(k));
    var rest := ByCharged(Next(s1, Charge(k)), x, k);
    Prepend(s1, Charge(k), rest);
    Prepend(s, Connect(p), [Charge(k)] + rest);
    es := [Connect(p)] + ([Charge(k)] + rest);
  }

  lemma ByLoaded(s: System, x: int, k: int) returns (es: seq<Event>)
    requires Poised(s, x) && k in s.bids && s.bids[k].Loaded? && !BidHarmless(s.bids[k])
    ensures Ruins(s, es)
  {
    assert BidSound(s.t, s.bids[k]);
    AffordableSolvent(s);
    var p := s.bids[k].bidder;
    var s1 := Next(s, Connect(p));
    StaysPoised(s, x, Connect(p));
    assert Exposure(s1, p) == Exposure(s, p) && Spare(s, p) >= 0;
    StaysPoised(s1, x, Test(k));
    var rest := ByTested(Next(s1, Test(k)), x, k);
    Prepend(s1, Test(k), rest);
    Prepend(s, Connect(p), [Test(k)] + rest);
    es := [Connect(p)] + ([Test(k)] + rest);
  }

  /** An order below zero, with anybody to bid on it: he bids what it asks and loses. */
  lemma ByOrder(s: System, x: int, p: int) returns (es: seq<Event>)
    requires Poised(s, x) && s.t.orders[x].cost < 0 && p in s.t.players
    ensures Ruins(s, es)
  {
    var k := Unused(s.bids.Keys);
    var e := Load(k, x, p, s.t.orders[x].cost);
    StaysPoised(s, x, e);
    var rest := ByLoaded(Next(s, e), x, k);
    Prepend(s, e, rest);
    es := [e] + rest;
  }

  /** A winner who owes less than nothing, or whose refund fails when he himself bid less than nothing. */
  lemma ByWon(s: System, x: int, k: int) returns (es: seq<Event>)
    requires Poised(s, x) && k in s.bids && s.bids[k].Won? && !BidHarmless(s.bids[k])
    requires forall id :: id in s.t.orders ==> s.t.orders[id].cost >= 0
    ensures Ruins(s, es)
  {
    assert BidSound(s.t, s.bids[k]);
    if s.bids[k].o.cost < 0 {
      es := ByPayment(s, x, Settle(k));
    } else {
      NextInv(s, Refuse(k));
      NextAffordable(s, Refuse(k));
      var rest := ByLost(Next(s, Refuse(k)), x, k);
      Prepend(s, Refuse(k), rest);
      es := [Refuse(k)] + rest;
    }
  }

  lemma ByBid(s: System, x: int, k: int) returns (es: seq<Event>)
    requires Poised(s, x) && k in s.bids && !BidHarmless(s.bids[k])
    requires forall id :: id in s.t.orders ==> s.t.orders[id].cost >= 0
    ensures Ruins(s, es)
  {
    match s.bids[k]
    case Loaded(_, _, _) => es := ByLoaded(s, x, k);
    case Tested(_, _, _) => es := ByTested(s, x, k);
    case Charged(_, _, _) => es := ByCharged(s, x, k);
    case Won(_, _, _) => es := ByWon(s, x, k);
    case Lost(_, _) => es := ByLost(s, x, k);
  }

  // ---------------------------------------------------------------- harm that is listed

  ghost predicate Unlisted(s: System, x: int) {
    forall i :: 0 <= i < |s.queue| ==> s.queue[i].id != x
  }

  /** The finaliser's next step on the first order of its list, and how many it still has to take. */
  function Work(stage: Stage): Event {
    match stage
    case Waiting => Finalize
    case Paid => Hand
    case Given => Remove
  }

  function Left(stage: Stage): nat {
    match stage
    case Waiting => 2
    case Paid => 1
    case Given => 0
  }

  lemma WorkGoesOn(s: System, x: int)
    requires Inv(s) && s.queue != [] && x in s.t.orders && Unlisted(s, x)
    ensures var s' := Next(s, Work(s.stage));
            && x in s'.t.orders && s'.t.orders[x] == s.t.orders[x] && Unlisted(s', x)
            && ((s'.queue == s.queue && Left(s'.stage) < Left(s.stage))
                || (s'.queue == s.queue[1..] && s'.stage == Waiting))
  {
    assert ListedSound(s.t, s.queue[0]);
  }

  lemma WorkStaysPoised(s: System, x: int)
    requires Poised(s, x) && s.queue != [] && Unlisted(s, x) && ListedHarmless(s, 0)
    ensures !Overreaches(s, Work(s.stage)) && Poised(Next(s, Work(s.stage)), x)
  {
    hide Inv, Exposure, Next;
    var e := Work(s.stage);
    if Payment(s, e).Some? && Payment(s, e).value.0 in s.t.players {
      assert Spare(s, Payment(s, e).value.0) >= 0;
    }
    WorkGoesOn(s, x);
    NextInv(s, e);
    NextAffordable(s, e);
  }

  /** The finaliser gets as far as the first order that pays less than nothing, and somebody is online. */
  lemma {:induction false} ByListed(s: System, x: int, i: nat) returns (es: seq<Event>)
    requires Poised(s, x) && Unlisted(s, x) && i < |s.queue| && !ListedHarmless(s, i)
    requires forall j :: 0 <= j < i ==> ListedHarmless(s, j)
    ensures Ruins(s, es)
    decreases |s.queue|, Left(s.stage)
  {
    if i == 0 {
      var p := s.queue[0].initiator;
      assert ListedSound(s.t, s.queue[0]);
      StaysPoised(s, x, Connect(p));
      var rest := ByPayment(Next(s, Connect(p)), x, Finalize);
      Prepend(s, Connect(p), rest);
      es := [Connect(p)] + rest;
    } else {
      hide Poised;
      var e := Work(s.stage);
      var s' := Next(s, e);
      WorkStaysPoised(s, x);
      WorkOn(s, x);
      assert ListedHarmless(s, 0);
      var i' := if s'.queue == s.queue then i else i - 1;
      forall j | 0 <= j < i'
        ensures ListedHarmless(s', j)
      {
        assert ListedHarmless(s, if s'.queue == s.queue then j else j + 1);
      }
      var rest := ByListed(s', x, i');
      Prepend(s, e, rest);
      es := [e] + rest;
    }
  }

  lemma WorkOn(s: System, x: int)
    requires Poised(s, x) && s.queue != [] && Unlisted(s, x)
    ensures var s' := Next(s, Work(s.stage));
            && Unlisted(s', x)
            && ((s'.queue == s.queue && Left(s'.stage) < Left(s.stage))
                || (s'.queue == s.queue[1..] && s'.stage == Waiting))
  {
    WorkGoesOn(s, x);
  }

  // ---------------------------------------------------------------- the theorem

  ghost predicate HasGoods(s: System, p: int, item: int) {
    p in s.t.players && At(s.t.players[p].items, item) > 0
  }

  ghost predicate Trading(s: System) {
    exists p, item :: HasGoods(s, p, item)
  }

  /** A player who has goods comes and offers one piece. */
  lemma OpenOrder(s: System, p: int, item: int, cost: int)
    requires Inv(s) && Affordable(s) && HasGoods(s, p, item)
    ensures var s1 := Next(s, Connect(p));
            var s2 := Next(s1, Offer(p, item, 1, cost));
            && Inv(s2) && Affordable(s2) && s2.bids == s.bids && s2.queue == s.queue && s2.stage == s.stage
            && s2.t.orders == s.t.orders[s.t.nextId := Order(s.t.nextId, p, item, 1, cost, 0, 0)]
            && Unlisted(s2, s.t.nextId) && s2.t.players.Keys == s.t.players.Keys
  {
    hide Affordable;
    var s1 := Next(s, Connect(p));
    NextInv(s, Connect(p));
    NextAffordable(s, Connect(p));
    NextInv(s1, Offer(p, item, 1, cost));
    NextAffordable(s1, Offer(p, item, 1, cost));
    forall i | 0 <= i < |s.queue|
      ensures s.queue[i].id != s.t.nextId
    {
      assert ListedSound(s.t, s.queue[i]) && OrderSound(s.t, s.queue[i].id);
    }
  }

  lemma {:induction false} LeastHarm(s: System, n: nat) returns (i: nat)
    requires n < |s.queue| && !ListedHarmless(s, n)
    ensures i <= n && !ListedHarmless(s, i) && forall j :: 0 <= j < i ==> ListedHarmless(s, j)
  {
    i := 0;
    while ListedHarmless(s, i)
      invariant i <= n && forall j :: 0 <= j < i ==> ListedHarmless(s, j)
      decreases n - i
    {
      i := i + 1;
    }
  }

  lemma ByTrade(s: System, p: int, item: int) returns (es: seq<Event>)
    requires Inv(s) && Affordable(s) && HasGoods(s, p, item)
    requires forall id :: id in s.t.orders ==> s.t.orders[id].cost >= 0
    requires !Harmless(s)
    ensures Ruins(s, es)
  {
    hide Inv, Affordable, Ruins, BidHarmless;
    var s1 := Next(s, Connect(p));
    var e := Offer(p, item, 1, 0);
    var s2 := Next(s1, e);
    var x := s.t.nextId;
    OpenOrder(s, p, item, 0);
    var rest: seq<Event>;
    if k :| k in s.bids && !BidHarmless(s.bids[k]) {
      rest := ByBid(s2, x, k);
    } else {
      var n :| 0 <= n < |s.queue| && !ListedHarmless(s, n);
      assert !ListedHarmless(s2, n);
      var i := LeastHarm(s2, n);
      rest := ByListed(s2, x, i);
    }
    Prepend(s1, e, rest);
    Prepend(s, Connect(p), [e] + rest);
    es := [Connect(p)] + ([e] + rest);
  }

  /** While anybody has goods to offer: no run without an offer below zero or an overreaching test leaves
      anybody in debt, if and only if everybody can pay what he has been tested for and nothing under way
      pays less than nothing. */
  lemma PricesExactly(s: System)
    requires Inv(s)
    ensures Affordable(s) && Harmless(s) ==> forall es :: Fair(es) && Cautious(s, es) ==> Solvent(Run(s, es).t)
    ensures Trading(s) ==>
              (Affordable(s) && Harmless(s) <==> forall es :: Fair(es) && Cautious(s, es) ==> Solvent(Run(s, es).t))
  {
    hide Inv, Harmless, Cautious, Fair, Solvent;
    if Affordable(s) && Harmless(s) {
      forall es | Fair(es) && Cautious(s, es)
        ensures Solvent(Run(s, es).t)
      {
        FairRunSolvent(s, es);
      }
    } else if Trading(s) {
      var es := Ruin(s);
      RuinsRun(s, es);
    }
  }

  lemma RuinsRun(s: System, es: seq<Event>)
    requires Ruins(s, es)
    ensures Fair(es) && Cautious(s, es) && !Solvent(Run(s, es).t)
  {
  }

  lemma Ruin(s: System) returns (es: seq<Event>)
    requires Inv(s) && Trading(s) && !(Affordable(s) && Harmless(s))
    ensures Ruins(s, es)
  {
    if !Affordable(s) {
      var p :| p in s.t.players && Spare(s, p) < 0;
      es := ConnectFirst(s, p);
      CarefulCautious(s, es);
    } else {
      var p, item :| HasGoods(s, p, item);
      if x :| x in s.t.orders && s.t.orders[x].cost < 0 {
        es := ByOrder(s, x, p);
      } else {
        es := ByTrade(s, p, item);
      }
    }
  }

  /** With offers below zero nobody is safe: wherever anybody has goods, some run without an overreaching
      test ends with somebody in debt. */
  lemma NobodyIsSafe(s: System)
    requires Inv(s) && Trading(s)
    ensures exists es :: Cautious(s, es) && !Solvent(Run(s, es).t)
  {
    hide Harmless, Inv;
    var es: seq<Event>;
    if !(Affordable(s) && Harmless(s)) {
      es := Ruin(s);
      RuinsRun(s, es);
    } else {
      var p, item :| HasGoods(s, p, item);
      var s1, e := Next(s, Connect(p)), Offer(p, item, 1, -1);
      OpenOrder(s, p, item, -1);
      var rest := ByOrder(Next(s1, e), s.t.nextId, p);
      RuinsRun(Next(s1, e), rest);
      RunStep(s1, e, rest);
      RunStep(s, Connect(p), [e] + rest);
      es := [Connect(p)] + ([e] + rest);
      assert ([e] + rest)[1..] == rest && es[1..] == [e] + rest;
    }
    assert Cautious(s, es) && !Solvent(Run(s, es).t);
  }

  // ---------------------------------------------------------------- the shortest way

  /** Two players without money, one with something to offer. */
  function Penniless(): System {
    System(Tables(map[], map[7 := Player(0, map[5 := 1]), 8 := Player(0, map[])], 1), {7, 8}, map[], [], Waiting, [],
           Books(0, 0, 0))
  }

  lemma PennilessSound()
    ensures Inv(Penniless()) && Affordable(Penniless()) && Harmless(Penniless()) && Trading(Penniless())
  {
    assert RiskOf(Penniless().bids, 7) == map[] && RiskOf(Penniless().bids, 8) == map[];
    assert HasGoods(Penniless(), 7, 5);
  }

  lemma OneStep(s: System, e: Event, es: seq<Event>)
    requires Cautious(Next(s, e), es) && !Overreaches(s, e)
    ensures Cautious(s, [e] + es) && Run(s, [e] + es) == Run(Next(s, e), es)
  {
    RunStep(s, e, es);
    assert ([e] + es)[1..] == es;
  }

  /** The order as it is offered, and as it is bid on. */
  const OFFERED := Order(1, 7, 5, 1, -100, 0, 0)
  const TAKEN := OFFERED.(buyer := 8, betTime := 1)

  function Stall(o: Order, purse: int, bids: map<int, Bid>, queue: seq<Order>): System {
    System(Tables(map[1 := o], map[7 := Player(0, map[5 := 0]), 8 := Player(purse, map[])], 2), {7, 8}, bids, queue,
           Waiting, [], Books(0, 0, 0))
  }

  lemma OfferedBelowZero()
    ensures Next(Penniless(), Offer(7, 5, 1, -100)) == Stall(OFFERED, 0, map[], [])
  {
    var s1 := Next(Penniless(), Offer(7, 5, 1, -100));
    assert s1.t.orders == map[1 := OFFERED];
    assert s1.t.players[7].items == map[5 := 0];
    assert s1.t.players == map[7 := Player(0, map[5 := 0]), 8 := Player(0, map[])];
  }

  lemma TestedBelowZero()
    ensures var s := Stall(OFFERED, 0, map[0 := Loaded(OFFERED, 8, -100)], []);
            && Next(Stall(OFFERED, 0, map[], []), Load(0, 1, 8, -100)) == s
            && !Overreaches(s, Test(0))
            && Next(s, Test(0)) == Stall(OFFERED, 0, map[0 := Tested(OFFERED, 8, -100)], [])
  {
    var s := Stall(OFFERED, 0, map[0 := Loaded(OFFERED, 8, -100)], []);
    NoneTested(s, 8);
  }

  /** The bidder is paid for bidding. */
  lemma WonBelowZero()
    ensures Next(Stall(OFFERED, 0, map[0 := Tested(OFFERED, 8, -100)], []), Charge(0))
         == Stall(OFFERED, 100, map[0 := Charged(OFFERED, 8, -100)], [])
    ensures Next(Stall(OFFERED, 100, map[0 := Charged(OFFERED, 8, -100)], []), Compete(0, 1))
         == Stall(TAKEN, 100, map[0 := Won(OFFERED, 8, -100)], [])
  {
    var s := Stall(OFFERED, 0, map[0 := Tested(OFFERED, 8, -100)], []);
    assert Next(s, Charge(0)).t.players == map[7 := Player(0, map[5 := 0]), 8 := Player(100, map[])];
    var s' := Stall(OFFERED, 100, map[0 := Charged(OFFERED, 8, -100)], []);
    assert Next(s', Compete(0, 1)).t.orders == map[1 := TAKEN];
  }

  /** The seller pays for selling. */
  lemma SoldBelowZero()
    ensures Next(Stall(TAKEN, 100, map[0 := Won(OFFERED, 8, -100)], []), Settle(0)) == Stall(TAKEN, 100, map[], [])
    ensures Next(Stall(TAKEN, 100, map[], []), List([TAKEN], 1)) == Stall(TAKEN, 100, map[], [TAKEN])
    ensures var t := Next(Stall(TAKEN, 100, map[], [TAKEN]), Finalize).t;
            7 in t.players && t.players[7].money == -100 && 8 in t.players && t.players[8].money == 100
  {
  }

  /** An offer at -100, a bid of -100 and the sale: the buyer has 100, and the seller owes it. */
  lemma NegativePriceOverdraws()
    ensures Inv(Penniless()) && Affordable(Penniless()) && Harmless(Penniless())
    ensures var es := [Offer(7, 5, 1, -100), Load(0, 1, 8, -100), Test(0), Charge(0), Compete(0, 1), Settle(0),
                       List([TAKEN], 1), Finalize];
            && Cautious(Penniless(), es)
            && var t := Run(Penniless(), es).t;
               7 in t.players && t.players[7].money == -100 && 8 in t.players && t.players[8].money == 100
  {
    hide Next, Stall, Inv, Affordable, Harmless;
    PennilessSound();
    OfferedBelowZero();
    TestedBelowZero();
    WonBelowZero();
    SoldBelowZero();
    OneStep(Stall(TAKEN, 100, map[], [TAKEN]), Finalize, []);
    var es := [Finalize];
    assert [Finalize] + [] == es;
    OneStep(Stall(TAKEN, 100, map[], []), List([TAKEN], 1), es);
    es := [List([TAKEN], 1)] + es;
    OneStep(Stall(TAKEN, 100, map[0 := Won(OFFERED, 8, -100)], []), Settle(0), es);
    es := [Settle(0)] + es;
    OneStep(Stall(OFFERED, 100, map[0 := Charged(OFFERED, 8, -100)], []), Compete(0, 1), es);
    es := [Compete(0, 1)] + es;
    OneStep(Stall(OFFERED, 0, map[0 := Tested(OFFERED, 8, -100)], []), Charge(0), es);
    es := [Charge(0)] + es;
    OneStep(Stall(OFFERED, 0, map[0 := Loaded(OFFERED, 8, -100)], []), Test(0), es);
    es := [Test(0)] + es;
    OneStep(Stall(OFFERED, 0, map[], []), Load(0, 1, 8, -100), es);
    es := [Load(0, 1, 8, -100)] + es;
    OneStep(Penniless(), Offer(7, 5, 1, -100), es);
    es := [Offer(7, 5, 1, -100)] + es;
    assert es == [Offer(7, 5, 1, -100), Load(0, 1, 8, -100), Test(0), Charge(0), Compete(0, 1), Settle(0),
                  List([TAKEN], 1), Finalize];
  }
}
