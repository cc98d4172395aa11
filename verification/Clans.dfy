/** Clans: the clan, player, request and invite tables, and what every operation on them keeps. */
module Clans {
  import opened Wrappers
  import opened Sequences

  const ICONS := 218

  datatype Rank = NoRank | Member | Officer | Leader

  function RankNumber(r: Rank): int {
    match r
    case NoRank => 0
    case Member => 10
    case Officer => 50
    case Leader => 100
  }

  datatype Clan = Clan(name: string, abr: string, owner: int)

  datatype Player = Player(clan: Option<int>, rank: int)

  /** Requests and invites are unique pairs of clan and player. */
  datatype Tables = Tables(
    clans: map<int, Clan>, players: map<int, Player>, requests: set<(int, int)>, invites: set<(int, int)>)

  datatype Error = Conflict | NoSuchPlayer | NoSuchClan | NoPending | NotAMember

  type Outcome = (Result<(), Error>, Tables)

  // ---------------------------------------------------------------- operations

  function Created(t: Tables, id: int, clan: Clan): Outcome {
    if id in t.clans then (Failure(Conflict), t)
    else if clan.owner !in t.players then (Failure(NoSuchPlayer), t)
    else (Success(()), t.(clans := t.clans[id := clan],
                          players := t.players[clan.owner := Player(Some(id), RankNumber(Leader))]))
  }

  function Expelled(players: map<int, Player>, id: int): map<int, Player> {
    map p | p in players :: if players[p].clan == Some(id) then Player(None, 0) else players[p]
  }

  function Deleted(t: Tables, id: int): Outcome {
    if id !in t.clans then (Failure(NoSuchClan), t)
    else (Success(()), Tables(t.clans - {id}, Expelled(t.players, id),
                              set r | r in t.requests && r.0 != id, set r | r in t.invites && r.0 != id))
  }

  function Requested(t: Tables, clan: int, player: int): Outcome {
    if (clan, player) in t.requests then (Failure(Conflict), t)
    else (Success(()), t.(requests := t.requests + {(clan, player)}))
  }

  function Invited(t: Tables, clan: int, player: int): Outcome {
    if (clan, player) in t.invites then (Failure(Conflict), t)
    else (Success(()), t.(invites := t.invites + {(clan, player)}))
  }

  function Joined(t: Tables, clan: int, player: int): map<int, Player>
    requires player in t.players
  {
    t.players[player := Player(Some(clan), RankNumber(Member))]
  }

  /** The request goes, and with it every invite the player has. */
  function RequestAccepted(t: Tables, clan: int, player: int): Outcome {
    if player !in t.players || t.players[player].clan.Some? || (clan, player) !in t.requests then
      (Failure(NoPending), t)
    else (Success(()), t.(players := Joined(t, clan, player), requests := t.requests - {(clan, player)},
                          invites := set r | r in t.invites && r.1 != player))
  }

  /** The invite goes, and with it every request the player has made. */
  function InviteAccepted(t: Tables, clan: int, player: int): Outcome {
    if player !in t.players || t.players[player].clan.Some? || (clan, player) !in t.invites then (Failure(NoPending), t)
    else (Success(()), t.(players := Joined(t, clan, player), invites := t.invites - {(clan, player)},
                          requests := set r | r in t.requests && r.1 != player))
  }

  function RequestDeclined(t: Tables, clan: int, player: int): Outcome {
    if (clan, player) !in t.requests then (Failure(NoPending), t)
    else (Success(()), t.(requests := t.requests - {(clan, player)}))
  }

  function InviteDeclined(t: Tables, clan: int, player: int): Outcome {
    if (clan, player) !in t.invites then (Failure(NoPending), t)
    else (Success(()), t.(invites := t.invites - {(clan, player)}))
  }

  function Ranked(t: Tables, player: int, clan: int, rank: Rank): Outcome {
    if player !in t.players || t.players[player].clan != Some(clan) then (Failure(NotAMember), t)
    else (Success(()), t.(players := t.players[player := Player(Some(clan), RankNumber(rank))]))
  }

  function Left(t: Tables, player: int): Outcome {
    if player !in t.players then (Failure(NoSuchPlayer), t)
    else (Success(()), t.(players := t.players[player := Player(None, 0)]))
  }

  // ---------------------------------------------------------------- the tables as they are updated

  class Database {
    var clans: map<int, Clan>
    var players: map<int, Player>
    var requests: set<(int, int)>
    var invites: set<(int, int)>

    ghost function State(): Tables
      reads this
    {
      Tables(clans, players, requests, invites)
    }

    constructor (players: map<int, Player>)
      ensures State() == Tables(map[], players, {}, {})
    {
      clans, this.players, requests, invites := map[], players, {}, {};
    }

    /** `pick_clan_id`: some number from 1 to 218 that no clan has; none only when there are 218 clans
        or more. Where the source draws until it hits a free one, one is chosen here. */
    method PickClanId() returns (r: Option<int>)
      ensures r.None? <==> |clans| >= 218
      ensures r.Some? ==> 1 <= r.value <= 218 && r.value !in clans
    {
      if |clans| >= ICONS { return None; }
      FreeIcon(clans.Keys);
      var c: int :| 1 <= c <= ICONS && c !in clans;
      r := Some(c);
    }

    method CreateClan(id: int, clan: Clan) returns (r: Result<(), Error>)
      modifies this
      ensures (r, State()) == Created(old(State()), id, clan)
    {
      var txClans, txPlayers := clans, players;
      if id in txClans { return Failure(Conflict); }
      txClans := txClans[id := clan];
      if clan.owner !in txPlayers { return Failure(NoSuchPlayer); }
      txPlayers := txPlayers[clan.owner := Player(Some(id), 100)];
      clans, players := txClans, txPlayers;
      r := Success(());
    }

    method DeleteClan(id: int) returns (r: Result<(), Error>)
      modifies this
      ensures (r, State()) == Deleted(old(State()), id)
    {
      var txPlayers := map p | p in players :: if players[p].clan == Some(id) then Player(None, 0) else players[p];
      var txRequests := set q | q in requests && q.0 != id;
      var txInvites := set q | q in invites && q.0 != id;
      if id !in clans { return Failure(NoSuchClan); }
      clans, players, requests, invites := clans - {id}, txPlayers, txRequests, txInvites;
      r := Success(());
    }

    method AddClanRequest(clan: int, player: int) returns (r: Result<(), Error>)
      modifies this
      ensures (r, State()) == Requested(old(State()), clan, player)
    {
      if (clan, player) in requests { return Failure(Conflict); }
      requests := requests + {(clan, player)};
      r := Success(());
    }

    method AddClanInvite(clan: int, player: int) returns (r: Result<(), Error>)
      modifies this
      ensures (r, State()) == Invited(old(State()), clan, player)
    {
      if (clan, player) in invites { return Failure(Conflict); }
      invites := invites + {(clan, player)};
      r := Success(());
    }

    method AcceptClanRequest(clan: int, player: int) returns (r: Result<(), Error>)
      modifies this
      ensures (r, State()) == RequestAccepted(old(State()), clan, player)
    {
      if !(player in players && players[player].clan.None? && (clan, player) in requests) { return Failure(NoPending); }
      players := players[player := Player(Some(clan), 10)];
      requests := requests - {(clan, player)};
      invites := set q | q in invites && q.1 != player;
      r := Success(());
    }

    method AcceptClanInvite(clan: int, player: int) returns (r: Result<(), Error>)
      modifies this
      ensures (r, State()) == InviteAccepted(old(State()), clan, player)
    {
      if !(player in players && players[player].clan.None? && (clan, player) in invites) { return Failure(NoPending); }
      players := players[player := Player(Some(clan), 10)];
      invites := invites - {(clan, player)};
      requests := set q | q in requests && q.1 != player;
      r := Success(());
    }

    method SetClanRank(player: int, clan: int, rank: Rank) returns (r: Result<(), Error>)
      modifies this
      ensures (r, State()) == Ranked(old(State()), player, clan, rank)
    {
      if !(player in players && players[player].clan == Some(clan)) { return Failure(NotAMember); }
      players := players[player := players[player].(rank := RankNumber(rank))];
      r := Success(());
    }

    method LeaveClan(player: int) returns (r: Result<(), Error>)
      modifies this
      ensures (r, State()) == Left(old(State()), player)
    {
      if player !in players { return Failure(NoSuchPlayer); }
      players := players[player := Player(None, 0)];
      r := Success(());
    }
  }

  /** Fewer than 218 numbers in use leave one of 1 to 218 free, wherever the used ones lie. */
  lemma FreeIcon(used: set<int>)
    requires |used| < ICONS
    ensures exists c: int :: 1 <= c <= ICONS && c !in used
  {
    if forall c: int :: 1 <= c <= ICONS ==> c in used {
      var icons: seq<int> := seq(ICONS, i => i + 1);
      NoDupFits(icons, used);
    }
  }

  // ---------------------------------------------------------------- runs

  datatype Event =
    | Create(id: int, clan: Clan)
    | Delete(id: int)
    | Request(id: int, player: int)
    | Invite(id: int, player: int)
    | AcceptRequest(id: int, player: int)
    | AcceptInvite(id: int, player: int)
    | DeclineRequest(id: int, player: int)
    | DeclineInvite(id: int, player: int)
    | SetRank(player: int, id: int, rank: Rank)
    | Leave(player: int)

  function Next(t: Tables, e: Event): Outcome {
    match e
    case Create(id, clan) => Created(t, id, clan)
    case Delete(id) => Deleted(t, id)
    case Request(id, player) => Requested(t, id, player)
    case Invite(id, player) => Invited(t, id, player)
    case AcceptRequest(id, player) => RequestAccepted(t, id, player)
    case AcceptInvite(id, player) => InviteAccepted(t, id, player)
    case DeclineRequest(id, player) => RequestDeclined(t, id, player)
    case DeclineInvite(id, player) => InviteDeclined(t, id, player)
    case SetRank(player, id, rank) => Ranked(t, player, id, rank)
    case Leave(player) => Left(t, player)
  }

  /** Nobody without a clan has a rank, and nothing refers to a clan that is not there. */
  ghost predicate Consistent(t: Tables) {
    && (forall p :: p in t.players && t.players[p].clan.None? ==> t.players[p].rank == 0)
    && (forall p :: p in t.players && t.players[p].clan.Some? ==> t.players[p].clan.value in t.clans)
    && (forall r :: r in t.requests ==> r.0 in t.clans)
    && (forall r :: r in t.invites ==> r.0 in t.clans)
  }

  /** The tables themselves do not check that a request or invite names a clan; the caller must. */
  ghost predicate NamesClan(t: Tables, e: Event) {
    e.Request? || e.Invite? ==> e.id in t.clans
  }

  lemma NextConsistent(t: Tables, e: Event)
    requires Consistent(t) && NamesClan(t, e)
    ensures Consistent(Next(t, e).1)
  {
  }

  /** And that is exactly when a step keeps them consistent. */
  lemma ConsistentExactly(t: Tables, e: Event)
    requires Consistent(t)
    ensures Consistent(Next(t, e).1) <==> NamesClan(t, e)
  {
    if !NamesClan(t, e) {
      if e.Request? {
        assert (e.id, e.player) in Next(t, e).1.requests;
      } else {
        assert (e.id, e.player) in Next(t, e).1.invites;
      }
    }
  }

  function Run(t: Tables, es: seq<Event>): Tables
    decreases es
  {
    if es == [] then t else Run(Next(t, es[0]).1, es[1..])
  }

  ghost predicate AllNameClans(t: Tables, es: seq<Event>)
    decreases es
  {
    es == [] || (NamesClan(t, es[0]) && AllNameClans(Next(t, es[0]).1, es[1..]))
  }

  /** Over every run whose requests and invites name existing clans, the tables stay consistent. */
  lemma {:induction false} RunConsistent(t: Tables, es: seq<Event>)
    requires Consistent(t) && AllNameClans(t, es)
    ensures Consistent(Run(t, es))
    decreases es
  {
    if es != [] {
      NextConsistent(t, es[0]);
      RunConsistent(Next(t, es[0]).1, es[1..]);
    }
  }

  // ---------------------------------------------------------------- rows

  predicate Free(t: Tables, p: int) {
    p in t.players && t.players[p].clan == None
  }

  /** What each operation asks for. */
  ghost predicate Allowed(t: Tables, e: Event) {
    match e
    case Create(id, clan) => id !in t.clans && clan.owner in t.players
    case Delete(id) => id in t.clans
    case Request(id, player) => (id, player) !in t.requests
    case Invite(id, player) => (id, player) !in t.invites
    case AcceptRequest(id, player) => Free(t, player) && (id, player) in t.requests
    case AcceptInvite(id, player) => Free(t, player) && (id, player) in t.invites
    case DeclineRequest(id, player) => (id, player) in t.requests
    case DeclineInvite(id, player) => (id, player) in t.invites
    case SetRank(player, id, _) => player in t.players && t.players[player].clan == Some(id)
    case Leave(player) => player in t.players
  }

  /** Which clan and rank a player has after an operation: founders lead with rank 100, who is accepted is a
      member with rank 10, ranks are 0, 10, 50 and 100, and everybody else is where he was. */
  lemma NextPlayer(t: Tables, e: Event, p: int)
    requires p in t.players
    ensures Next(t, e).0.Success? <==> Allowed(t, e)
    ensures Next(t, e).1.players.Keys == t.players.Keys
    ensures Next(t, e).1.players[p] ==
            if !Allowed(t, e) then t.players[p]
            else if e.Create? && e.clan.owner == p then Player(Some(e.id), 100)
            else if (e.AcceptRequest? || e.AcceptInvite?) && e.player == p then Player(Some(e.id), 10)
            else if e.SetRank? && e.player == p then
              Player(Some(e.id), match e.rank case NoRank => 0 case Member => 10 case Officer => 50 case Leader => 100)
            else if e.Leave? && e.player == p then Player(None, 0)
            else if e.Delete? && t.players[p].clan == Some(e.id) then Player(None, 0)
            else t.players[p]
  {
  }

  /** Which clans, requests and invites there are after it. */
  lemma NextPending(t: Tables, e: Event, id: int, p: int)
    requires Allowed(t, e)
    ensures id in Next(t, e).1.clans <==> (id in t.clans && e != Delete(id)) || (e.Create? && e.id == id)
    ensures id in Next(t, e).1.clans ==>
              Next(t, e).1.clans[id] == if e.Create? && e.id == id then e.clan else t.clans[id]
    ensures (id, p) in Next(t, e).1.requests <==>
            || e == Request(id, p)
            || ((id, p) in t.requests && e != Delete(id) && e != AcceptRequest(id, p) && e != DeclineRequest(id, p)
                && !(e.AcceptInvite? && e.player == p))
    ensures (id, p) in Next(t, e).1.invites <==>
            || e == Invite(id, p)
            || ((id, p) in t.invites && e != Delete(id) && e != AcceptInvite(id, p) && e != DeclineInvite(id, p)
                && !(e.AcceptRequest? && e.player == p))
  {
  }

  /** An operation that fails changes nothing. */
  lemma FailureChangesNothing(t: Tables, e: Event)
    ensures Next(t, e).0.Failure? ==> Next(t, e).1 == t
  {
  }

  /** Who can move a current member: only himself by founding or leaving, or the end of his clan. No
      accepted request or invite ever does. */
  lemma MembersStay(t: Tables, e: Event, p: int)
    requires p in t.players && t.players[p].clan.Some?
    ensures p in Next(t, e).1.players
    ensures Next(t, e).1.players[p].clan != t.players[p].clan ==>
              || (e.Create? && e.clan.owner == p)
              || (e.Leave? && e.player == p)
              || (e.Delete? && Some(e.id) == t.players[p].clan)
  {
  }

  /** Deleting a clan that was just founded undoes it, for a founder who had no clan. */
  lemma CreateThenDelete(t: Tables, id: int, clan: Clan)
    requires Consistent(t) && Created(t, id, clan).0.Success?
    requires t.players[clan.owner].clan.None?
    ensures Deleted(Created(t, id, clan).1, id) == (Success(()), t)
  {
    var t1 := Created(t, id, clan).1;
    var t2 := Deleted(t1, id).1;
    assert t2.clans == t.clans;
    forall p | p in t.players
      ensures p in t2.players && t2.players[p] == t.players[p]
    {
      assert t.players[p].clan != Some(id);
    }
    assert t2.players == t.players;
    assert t2.requests == t.requests && t2.invites == t.invites;
  }

  // ---------------------------------------------------------------- leaders

  /** The owner of the clan is a member of it, with the leader's rank. */
  predicate Led(t: Tables, id: int)
    requires id in t.clans
  {
    var owner := t.clans[id].owner;
    owner in t.players && t.players[owner] == Player(Some(id), RankNumber(Leader))
  }

  ghost predicate AllLed(t: Tables) {
    forall id :: id in t.clans ==> Led(t, id)
  }

  predicate Owns(t: Tables, p: int) {
    && p in t.players && t.players[p].clan.Some?
    && t.players[p].clan.value in t.clans && t.clans[t.players[p].clan.value].owner == p
  }

  /** A leader leaves, loses his rank, or founds another clan. */
  predicate Deposes(t: Tables, e: Event) {
    match e
    case Leave(p) => Owns(t, p)
    case SetRank(p, id, rank) => Owns(t, p) && t.players[p].clan == Some(id) && rank != Leader
    case Create(id, clan) => id !in t.clans && Owns(t, clan.owner)
    case _ => false
  }

  /** A step leaves every clan with its owner at the head, if and only if it deposes nobody. */
  lemma LedExactly(t: Tables, e: Event)
    requires AllLed(t)
    ensures AllLed(Next(t, e).1) <==> !Deposes(t, e)
  {
    var t' := Next(t, e).1;
    if Deposes(t, e) {
      var p := if e.Create? then e.clan.owner else e.player;
      var id := t.players[p].clan.value;
      assert id in t'.clans && t'.clans[id].owner == p && !Led(t', id);
    } else {
      forall id | id in t'.clans
        ensures Led(t', id)
      {
        if id in t.clans {
          assert Led(t, id);
        }
      }
    }
  }

  ghost predicate NoneDeposed(t: Tables, es: seq<Event>)
    decreases es
  {
    es == [] || (!Deposes(t, es[0]) && NoneDeposed(Next(t, es[0]).1, es[1..]))
  }

  lemma {:induction false} RunLed(t: Tables, es: seq<Event>)
    requires AllLed(t) && NoneDeposed(t, es)
    ensures AllLed(Run(t, es))
    decreases es
  {
    if es != [] {
      LedExactly(t, es[0]);
      RunLed(Next(t, es[0]).1, es[1..]);
    }
  }

  /** A deposed owner can come back only by a request or invite of his own that is accepted, and then as an
      ordinary member: no single step puts him at the head again. */
  lemma LeaderlessStays(t: Tables, e: Event, id: int)
    requires id in t.clans && t.clans[id].owner in t.players && t.players[t.clans[id].owner].clan != Some(id)
    requires id in Next(t, e).1.clans && Next(t, e).1.players[t.clans[id].owner].clan == Some(id)
    ensures (e.AcceptRequest? || e.AcceptInvite?) && e.id == id && e.player == t.clans[id].owner
    ensures !Led(Next(t, e).1, id)
  {
  }
}
