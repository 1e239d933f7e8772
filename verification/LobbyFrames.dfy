/** Steps that touch one game and the sessions around it leave the rest of the lobby alone. */
module LobbyFrames {
  import opened LobbyModel
  import opened LobbyClient
  import opened LobbyInvariant

  /** From `l` to `l'` only game `gid` and the sessions of `who` change; those are unqueued and
      nowhere but in that game, and everybody in it is among them. */
  ghost predicate Local<S>(l: Lobby<S>, l': Lobby<S>, gid: int, who: set<S>)
    requires KeysOk(l)
  {
    && KeysOk(l')
    && l'.ids == l.ids && l'.users == l.users && l'.sessions == l.sessions && l'.active == l.active
    && l'.nextUser == l.nextUser && l'.nextSession == l.nextSession
    && l'.queue == l.queue && l'.nextMatch == l.nextMatch
    && l'.nextGame >= l.nextGame && gid != 0
    && (forall k | k in l.games && k != gid :: k in l'.games && l'.games[k] == l.games[k])
    && (forall k | k in l'.games && k != gid :: k in l.games)
    && (forall s | s in l.ids && s in who :: Around(l.seats[s], gid) && Around(l'.seats[s], gid))
    && (forall s | s in l.ids && s !in who :: l'.seats[s] == l.seats[s] && l'.inbox[s] == l.inbox[s] && l.seats[s].gameID != gid)
  }

  predicate Around(seat: Seat, gid: int)
  {
    (seat.gameID == 0 || seat.gameID == gid) && seat.queuedMatch == 0
  }

  /** The changed game, if it is registered, is in order and its members sit in it. */
  ghost predicate GameSeated<S>(l: Lobby<S>, gid: int)
  {
    gid in l.games ==>
      && 0 < gid < l.nextGame && l.games[gid].id == gid && GameOk(l.games[gid], l.ids)
      && forall m | m in l.games[gid].members :: m in l.seats && l.seats[m].gameID == gid
  }

  /** A local change keeps the invariant if it does so for the game and the sessions it touches. */
  lemma LocalKeeps<S>(l: Lobby<S>, l': Lobby<S>, gid: int, who: set<S>)
    requires Inv(l) && Local(l, l', gid, who) && GameSeated(l', gid)
    requires forall s | s in l.ids && s in who :: SeatOk(l', s) && InboxOk(l', s)
    ensures Inv(l')
  {
    LocalRegistry(l, l', gid, who);
    LocalGames(l, l', gid, who);
    LocalSeats(l, l', gid, who);
    LocalQueue(l, l', gid, who);
    LocalInboxes(l, l', gid, who);
    hide RegistryOk, GamesOk, SeatsOk, QueueOk, InboxesOk, Local;
  }

  lemma LocalRegistry<S>(l: Lobby<S>, l': Lobby<S>, gid: int, who: set<S>)
    requires Inv(l) && Local(l, l', gid, who)
    ensures RegistryOk(l')
  {
    hide GamesOk, SeatsOk, QueueOk, InboxesOk;
    assert forall s | s in l.ids :: IdentityOk(l, s) ==> IdentityOk(l', s);
  }

  lemma LocalGames<S>(l: Lobby<S>, l': Lobby<S>, gid: int, who: set<S>)
    requires Inv(l) && Local(l, l', gid, who) && GameSeated(l', gid)
    ensures GamesOk(l')
  {
    hide GameOk, RegistryOk, SeatsOk, QueueOk, InboxesOk;
  }

  lemma LocalSeats<S>(l: Lobby<S>, l': Lobby<S>, gid: int, who: set<S>)
    requires Inv(l) && Local(l, l', gid, who) && GameSeated(l', gid)
    requires forall s | s in l.ids && s in who :: SeatOk(l', s)
    ensures SeatsOk(l')
  {
    hide GameOk, RegistryOk, QueueOk, InboxesOk, SeatOk, GameSeated, Around;
    forall s | s in l'.seats
      ensures SeatOk(l', s)
    {
      if s !in who {
        SeatFrame(l, l', gid, who, s);
      }
    }
    forall k, m | k in l'.games && m in l'.games[k].members
      ensures m in l'.seats && l'.seats[m].gameID == k
    {
      MemberFrame(l, l', gid, who, k, m);
    }
  }

  lemma SeatFrame<S>(l: Lobby<S>, l': Lobby<S>, gid: int, who: set<S>, s: S)
    requires KeysOk(l) && Local(l, l', gid, who) && s in l.seats && s !in who && SeatOk(l, s)
    ensures SeatOk(l', s)
  {
    hide Around;
  }

  lemma MemberFrame<S>(l: Lobby<S>, l': Lobby<S>, gid: int, who: set<S>, k: int, m: S)
    requires KeysOk(l) && SeatsOk(l) && GamesOk(l) && Local(l, l', gid, who) && GameSeated(l', gid)
    requires k in l'.games && m in l'.games[k].members
    ensures m in l'.seats && l'.seats[m].gameID == k
  {
    hide GameOk, SeatOk;
    if k != gid {
      assert m in l.seats && l.seats[m].gameID == k;
      assert 0 < k;
    }
  }

  lemma LocalQueue<S>(l: Lobby<S>, l': Lobby<S>, gid: int, who: set<S>)
    requires Inv(l) && Local(l, l', gid, who)
    ensures QueueOk(l')
  {
    hide GamesOk, RegistryOk, SeatsOk, InboxesOk, CompatibleMatch;
  }

  /** What a session's inbox condition looks at. */
  lemma InboxFrame<S>(l: Lobby<S>, l': Lobby<S>, s: S)
    requires s in l.inbox && s in l.seats && InboxOk(l, s)
    requires s in l'.inbox && s in l'.seats
    requires Pid(l'.ids, s) == Pid(l.ids, s) && l'.inbox[s] == l.inbox[s]
    requires l'.seats[s].gameID == l.seats[s].gameID
    requires var k := l.seats[s].gameID;
             k in l'.games ==>
               && k in l.games && l'.games[k].slots == l.games[k].slots && l'.games[k].id == l.games[k].id
               && forall m | m in l'.games[k].members && m in l'.seats && l'.seats[m].pending == k ::
                    m in l.games[k].members && m in l.seats && l.seats[m].pending == k && Pid(l'.ids, m) == Pid(l.ids, m)
    requires l.seats[s].gameID in l.games ==> l.games[l.seats[s].gameID].id == l.seats[s].gameID
    ensures InboxOk(l', s)
  {
    hide Legal, After, Pid;
  }

  lemma LocalInboxes<S>(l: Lobby<S>, l': Lobby<S>, gid: int, who: set<S>)
    requires Inv(l) && Local(l, l', gid, who)
    requires forall s | s in l.ids && s in who :: InboxOk(l', s)
    ensures InboxesOk(l')
  {
    hide GameOk, RegistryOk, QueueOk, InboxOk, Pid, SeatOk;
    forall s | s in l'.inbox
      ensures InboxOk(l', s)
    {
      if s !in who {
        assert InboxOk(l, s);
        assert Pid(l'.ids, s) == Pid(l.ids, s);
        InboxFrame(l, l', s);
      }
    }
  }
}
