/** Sessions log in and disconnect. */
module LobbySessionSteps {
  import opened IntSets
  import opened Options
  import opened LobbyModel
  import opened LobbyClient
  import opened LobbyInvariant
  import opened LobbyGames
  import opened LobbyInboxes
  import opened LobbyFrames
  import opened LobbyQueueSteps
  import opened LobbyJoinSteps
  import opened LobbyOpenSteps
  import opened LobbyLeaveSteps
  import opened LobbyRoomSteps

  // ---- login -------------------------------------------------------------------------------

  /** Every known persona is below the allocator, so its first candidate is fresh. */
  lemma NextUserIsFresh<S>(l: Lobby<S>)
    requires RegistryOk(l)
    ensures !PersonaTaken(l, l.nextUser) && FreshPersona(l, l.nextUser) == l.nextUser
  {
    forall p | p in l.active
      ensures p < l.nextUser
    {
      assert IdentityOk(l, l.active[p]);
    }
  }

  /** The persona a login settles on. */
  function ChosenPersona<S>(l: Lobby<S>, requested: int): int
  {
    if requested <= 0 || requested in l.active then FreshPersona(l, l.nextUser) else requested
  }

  lemma ChosenPersonaIsFree<S>(l: Lobby<S>, requested: int)
    requires RegistryOk(l)
    ensures ChosenPersona(l, requested) > 0 && ChosenPersona(l, requested) !in l.active
  {
    NextUserIsFresh(l);
  }

  lemma LoginKeeps<S>(l: Lobby<S>, s: S, requested: int, name: string)
    requires Inv(l) && s in l.ids
    ensures Inv(Login(l, s, requested, name))
  {
    hide RegistryOk, GamesOk, SeatsOk, QueueOk, InboxesOk, Authenticate, Post, UserNotes;
    if LoggedIn(l, s) {
      AuthenticateOnce(l, s, requested, name);
      KnownToItself(l, s);
      MailKeeps(l, map[s := UserNotes(l.ids, s)]);
    } else {
      FirstLoginKeeps(l, s, requested, name);
    }
  }

  lemma AuthenticateOnce<S>(l: Lobby<S>, s: S, requested: int, name: string)
    requires LoggedIn(l, s)
    ensures Authenticate(l, s, requested, name) == l
  {
  }

  lemma KnownToItself<S>(l: Lobby<S>, s: S)
    requires Inv(l) && LoggedIn(l, s)
    ensures Pid(l.ids, s) != 0 && Legal(Pid(l.ids, s), ViewOf(l, s), UserNotes(l.ids, s))
    ensures After(Pid(l.ids, s), ViewOf(l, s), UserNotes(l.ids, s)) == ViewOf(l, s)
  {
    hide RegistryOk, GamesOk, SeatsOk, QueueOk, InboxesOk, ViewOf, UserNotes, Legal, After;
    ViewFacts(l, s);
    UserNotesView(Pid(l.ids, s), ViewOf(l, s), l.ids, s);
    var v := ViewOf(l, s);
    assert v.known + {Pid(l.ids, s)} == v.known;
  }

  lemma FirstLoginKeeps<S>(l: Lobby<S>, s: S, requested: int, name: string)
    requires Inv(l) && s in l.ids && l.ids[s].personaID == 0
    ensures Inv(Login(l, s, requested, name))
  {
    hide RegistryOk, GamesOk, SeatsOk, QueueOk, InboxesOk, Login, InboxOk;
    var l' := Login(l, s, requested, name);
    LoginRegistry(l, s, requested, name);
    LoginShape(l, s, requested, name);
    LoginGames(l, l', s);
    LoginSeats(l, l', s);
    SameQueue(l, l');
    forall x | x in l'.inbox
      ensures InboxOk(l', x)
    {
      if x == s {
        LoginOwnInbox(l, s, requested, name);
      } else {
        LoginOtherInbox(l, l', s, x);
      }
    }
    AllInboxes(l');
  }

  lemma AllInboxes<S>(l: Lobby<S>)
    requires KeysOk(l) && forall x | x in l.inbox :: InboxOk(l, x)
    ensures InboxesOk(l)
  {
  }

  /** A first login touches the newcomer's identity and inbox, and the registries. */
  ghost predicate LogsIn<S>(l: Lobby<S>, l': Lobby<S>, s: S)
    requires KeysOk(l)
  {
    && KeysOk(l') && s in l.ids && l.ids[s].personaID == 0 && s in l'.ids && l'.ids[s].personaID > 0
    && l'.seats == l.seats && l'.games == l.games && l'.queue == l.queue
    && l'.nextGame == l.nextGame && l'.nextMatch == l.nextMatch
    && l'.ids.Keys == l.ids.Keys
    && (forall x | x in l.ids && x != s :: l'.ids[x] == l.ids[x] && l'.inbox[x] == l.inbox[x])
  }

  lemma LoginShape<S>(l: Lobby<S>, s: S, requested: int, name: string)
    requires KeysOk(l) && RegistryOk(l) && s in l.ids && l.ids[s].personaID == 0
    ensures LogsIn(l, Login(l, s, requested, name), s)
  {
    hide UserNotes;
    ChosenPersonaIsFree(l, requested);
  }

  lemma LoginRegistry<S>(l: Lobby<S>, s: S, requested: int, name: string)
    requires KeysOk(l) && RegistryOk(l) && s in l.ids && l.ids[s].personaID == 0
    ensures RegistryOk(Login(l, s, requested, name))
  {
    hide UserNotes, Post;
    ChosenPersonaIsFree(l, requested);
    var l' := Authenticate(l, s, requested, name);
    var p := ChosenPersona(l, requested);
    assert IdentityOk(l, s);
    hide FreshPersona, PersonaTaken, PersonaName;
    LoginUsers(l, s, requested, name);
    forall x | x in l'.ids
      ensures IdentityOk(l', x)
    {
      assert IdentityOk(l, x);
      if x != s && l.ids[x].personaID != 0 {
        assert l.ids[x].personaID != p;
      }
    }
    LoginTables(l, s, requested, name);
    SameRegistry(l', Login(l, s, requested, name));
  }

  lemma LoginUsers<S>(l: Lobby<S>, s: S, requested: int, name: string)
    requires RegistryOk(l) && s in l.ids && l.ids[s].personaID == 0
    ensures var l' := Authenticate(l, s, requested, name);
            forall p | p in l'.users :: 0 < p < l'.nextUser && l'.users[p].personaID == p && l'.users[p].accountID == p
  {
    hide IdentityOk;
    ChosenPersonaIsFree(l, requested);
    hide FreshPersona;
  }

  lemma LoginTables<S>(l: Lobby<S>, s: S, requested: int, name: string)
    requires RegistryOk(l) && s in l.ids && l.ids[s].personaID == 0
    ensures var l' := Authenticate(l, s, requested, name);
            && (forall k | k in l'.sessions :: l'.sessions[k] in l'.ids && l'.ids[l'.sessions[k]].sessionID == k && k != 0)
            && (forall p | p in l'.active :: l'.active[p] in l'.ids && l'.ids[l'.active[p]].personaID == p && p != 0)
  {
    ChosenPersonaIsFree(l, requested);
    assert IdentityOk(l, s);
    hide FreshPersona, PersonaTaken, PersonaName, IdentityOk;
  }

  lemma LoginGames<S>(l: Lobby<S>, l': Lobby<S>, s: S)
    requires Inv(l) && LogsIn(l, l', s)
    ensures GamesOk(l')
  {
    hide RegistryOk, GameOk, SeatsOk, QueueOk, InboxesOk, Pid;
    forall gid | gid in l.games
      ensures GameOk(l.games[gid], l'.ids)
    {
      forall m | m in l.games[gid].members
        ensures m in l'.ids && Pid(l'.ids, m) == Pid(l.ids, m)
      {
        LoginMember(l, l', s, gid, m);
      }
      GameFrame(l.games[gid], l.ids, l'.ids);
    }
  }

  lemma LoginMember<S>(l: Lobby<S>, l': Lobby<S>, s: S, gid: int, m: S)
    requires KeysOk(l) && SeatsOk(l) && GamesOk(l) && LogsIn(l, l', s) && gid in l.games && m in l.games[gid].members
    ensures m in l'.ids && m != s && Pid(l'.ids, m) == Pid(l.ids, m)
  {
    hide GameOk, SeatsOk, GamesOk;
    MemberSeat(l, gid, m);
  }

  lemma LoginSeats<S>(l: Lobby<S>, l': Lobby<S>, s: S)
    requires KeysOk(l) && SeatsOk(l) && LogsIn(l, l', s)
    ensures SeatsOk(l')
  {
    forall x | x in l'.seats
      ensures SeatOk(l', x)
    {
      assert SeatOk(l, x);
    }
  }

  lemma LoginOtherInbox<S>(l: Lobby<S>, l': Lobby<S>, s: S, x: S)
    requires Inv(l) && LogsIn(l, l', s) && x in l.ids && x != s
    ensures x in l'.inbox && InboxOk(l', x)
  {
    hide GameOk, RegistryOk, QueueOk, SeatsOk, InboxOk;
    assert InboxOk(l, x);
    var k := l.seats[x].gameID;
    if k in l.games {
      forall m | m in l.games[k].members
        ensures m in l'.ids && Pid(l'.ids, m) == Pid(l.ids, m)
      {
        hide Pid, GamesOk;
        LoginMember(l, l', s, k, m);
      }
    }
    hide Pid;
    LoginPid(l, l', s, x);
    InboxFrame(l, l', x);
  }

  lemma LoginPid<S>(l: Lobby<S>, l': Lobby<S>, s: S, x: S)
    requires KeysOk(l) && LogsIn(l, l', s) && x in l.ids && x != s
    ensures Pid(l'.ids, x) == Pid(l.ids, x)
  {
  }

  /** The newcomer's first mail is about itself. */
  lemma LoginOwnInbox<S>(l: Lobby<S>, s: S, requested: int, name: string)
    requires Inv(l) && s in l.ids && l.ids[s].personaID == 0
    ensures var l' := Login(l, s, requested, name);
            s in l'.inbox && s in l'.seats && InboxOk(l', s)
  {
    var l' := Login(l, s, requested, name);
    assert InboxOk(l, s) && SeatOk(l, s);
    NoGameZero(l);
    hide GameOk, RegistryOk, GamesOk, QueueOk, SeatsOk, InboxesOk, Legal, After, UserNotes, FreshPersona, PersonaTaken;
    var self := Pid(l'.ids, s);
    assert [] + UserNotes(l'.ids, s) == UserNotes(l'.ids, s);
    assert l'.inbox[s] == UserNotes(l'.ids, s);
    UserNotesView(self, START, l'.ids, s);
  }

  // ---- disconnection -----------------------------------------------------------------------

  /** A session that is in no game and not queued can be forgotten. */
  lemma ForgetKeeps<S>(l: Lobby<S>, s: S)
    requires Inv(l) && s in l.ids && l.seats[s].gameID == 0 && Unqueued(l, s)
    ensures Inv(Forget(l, s))
  {
    hide RegistryOk, GamesOk, SeatsOk, QueueOk, InboxesOk, Forget, InboxOk;
    var l' := Forget(l, s);
    ForgetRegistry(l, s);
    ForgetShape(l, s);
    ForgetGames(l, l', s);
    ForgetSeats(l, l', s);
    ForgetQueue(l, l', s);
    forall x | x in l'.inbox
      ensures InboxOk(l', x)
    {
      ForgetInbox(l, l', s, x);
    }
    AllInboxes(l');
  }

  ghost predicate Forgets<S>(l: Lobby<S>, l': Lobby<S>, s: S)
    requires KeysOk(l)
  {
    && KeysOk(l') && s in l.ids && l'.ids.Keys == l.ids.Keys - {s}
    && l.seats[s].gameID == 0 && Unqueued(l, s)
    && l'.games == l.games && l'.queue == l.queue && l'.nextGame == l.nextGame && l'.nextMatch == l.nextMatch
    && (forall x | x in l'.ids :: x in l.ids && l'.ids[x] == l.ids[x] && l'.inbox[x] == l.inbox[x] && l'.seats[x] == l.seats[x])
  }

  lemma ForgetShape<S>(l: Lobby<S>, s: S)
    requires KeysOk(l) && s in l.ids && l.seats[s].gameID == 0 && Unqueued(l, s)
    ensures Forgets(l, Forget(l, s), s)
  {
  }

  lemma ForgetRegistry<S>(l: Lobby<S>, s: S)
    requires KeysOk(l) && RegistryOk(l) && s in l.ids
    ensures RegistryOk(Forget(l, s))
  {
    var l' := Forget(l, s);
    forall x | x in l'.ids
      ensures IdentityOk(l', x)
    {
      assert IdentityOk(l, x) && IdentityOk(l, s);
    }
    assert IdentityOk(l, s);
  }

  lemma ForgetMember<S>(l: Lobby<S>, l': Lobby<S>, s: S, gid: int, m: S)
    requires KeysOk(l) && SeatsOk(l) && GamesOk(l) && Forgets(l, l', s) && gid in l.games && m in l.games[gid].members
    ensures m in l'.ids && m in l.ids && m != s && Pid(l'.ids, m) == Pid(l.ids, m) && l'.seats[m] == l.seats[m]
  {
    hide GameOk, SeatsOk, GamesOk;
    MemberSeat(l, gid, m);
  }

  lemma ForgetGames<S>(l: Lobby<S>, l': Lobby<S>, s: S)
    requires Inv(l) && Forgets(l, l', s)
    ensures GamesOk(l')
  {
    hide RegistryOk, GameOk, SeatsOk, QueueOk, InboxesOk, Pid, Unqueued;
    forall gid | gid in l.games
      ensures GameOk(l.games[gid], l'.ids)
    {
      forall m | m in l.games[gid].members
        ensures m in l'.ids && Pid(l'.ids, m) == Pid(l.ids, m)
      {
        ForgetMember(l, l', s, gid, m);
      }
      GameFrame(l.games[gid], l.ids, l'.ids);
    }
  }

  lemma ForgetSeats<S>(l: Lobby<S>, l': Lobby<S>, s: S)
    requires KeysOk(l) && SeatsOk(l) && GamesOk(l) && Forgets(l, l', s)
    ensures SeatsOk(l')
  {
    hide GameOk, GamesOk;
    forall x | x in l'.seats
      ensures SeatOk(l', x)
    {
      assert SeatOk(l, x);
    }
    forall gid, m | gid in l'.games && m in l'.games[gid].members
      ensures m in l'.seats && l'.seats[m].gameID == gid
    {
      ForgetMember(l, l', s, gid, m);
    }
  }

  lemma ForgetQueue<S>(l: Lobby<S>, l': Lobby<S>, s: S)
    requires KeysOk(l) && QueueOk(l) && Forgets(l, l', s)
    ensures QueueOk(l')
  {
    hide CompatibleMatch;
  }

  lemma ForgetInbox<S>(l: Lobby<S>, l': Lobby<S>, s: S, x: S)
    requires Inv(l) && Forgets(l, l', s) && x in l'.inbox
    ensures x in l'.seats && InboxOk(l', x)
  {
    hide GameOk, RegistryOk, QueueOk, SeatsOk, InboxOk, Pid, Unqueued;
    assert InboxOk(l, x);
    var k := l.seats[x].gameID;
    if k in l.games {
      forall m | m in l.games[k].members
        ensures m in l'.ids && m in l.ids && Pid(l'.ids, m) == Pid(l.ids, m) && l'.seats[m] == l.seats[m]
      {
        hide GamesOk;
        ForgetMember(l, l', s, k, m);
      }
    }
    ForgetPid(l, l', s, x);
    InboxFrame(l, l', x);
  }

  lemma ForgetPid<S>(l: Lobby<S>, l': Lobby<S>, s: S, x: S)
    requires KeysOk(l) && Forgets(l, l', s) && x in l'.ids
    ensures Pid(l'.ids, x) == Pid(l.ids, x)
  {
  }

  /** Under the invariant a session in no seat is in no roster, so there is no leftover game. */
  lemma NoLeftover<S>(l: Lobby<S>, s: S)
    requires Inv(l) && s in l.ids && l.seats[s].gameID == 0
    ensures LeftoverGame(l, s) == None
  {
    hide RegistryOk, GamesOk, SeatsOk, QueueOk, InboxesOk, GameOk;
    forall gid | gid in l.games
      ensures MemberFor(l.ids, l.games[gid].members, Pid(l.ids, s)) != Some(s)
    {
      SlotsAreTables(l, gid);
      Distinct(l.games[gid], l.ids);
      MemberForExact(l.ids, l.games[gid].members, Pid(l.ids, s));
      NotSeated(l, s, gid);
    }
  }

  lemma NotSeated<S>(l: Lobby<S>, s: S, gid: int)
    requires KeysOk(l) && SeatsOk(l) && GamesOk(l) && s in l.ids && gid in l.games && l.seats[s].gameID != gid
    ensures s !in l.games[gid].members
  {
    hide GameOk, SeatOk;
  }

  /** A session's GameID, when set, names the registered game it is a member of. */
  lemma SeatedIn<S>(l: Lobby<S>, s: S)
    requires KeysOk(l) && SeatsOk(l) && s in l.seats && l.seats[s].gameID != 0
    ensures l.seats[s].gameID in l.games && s in l.games[l.seats[s].gameID].members
  {
    assert SeatOk(l, s);
  }

  lemma DisconnectKeeps<S>(l: Lobby<S>, s: S)
    requires Inv(l) && s in l.ids
    ensures Inv(Disconnect(l, s))
  {
    hide RegistryOk, GamesOk, SeatsOk, QueueOk, InboxesOk, GameOk, Unqueued, LeftoverGame, Forget, Leave;
    var l1 := Dequeue(l, s);
    DequeueKeeps(l, s);
    DequeueEmpties(l, s);
    var gid := l.seats[s].gameID;
    NoGameZero(l);
    if gid != 0 {
      SeatedIn(l, s);
      var l2 := Leave(l1, s, gid);
      LeaveKeeps(l1, s, gid);
      LeaveFrees(l1, s, gid);
      ForgetKeeps(l2, s);
      DisconnectIs(l, s);
    } else {
      NoLeftover(l, s);
      ForgetKeeps(l1, s);
      DisconnectIs(l, s);
    }
  }

  /** Disconnecting is leaving the queue, leaving the game if in one, and being forgotten. */
  lemma DisconnectIs<S>(l: Lobby<S>, s: S)
    requires Inv(l) && s in l.ids
    ensures var gid := l.seats[s].gameID;
            && (gid != 0 ==> gid in Dequeue(l, s).games)
            && s in Dequeue(l, s).ids && (gid != 0 ==> s in Leave(Dequeue(l, s), s, gid).ids)
            && Disconnect(l, s) == Forget(if gid != 0 then Leave(Dequeue(l, s), s, gid) else Dequeue(l, s), s)
  {
    hide RegistryOk, GamesOk, SeatsOk, QueueOk, InboxesOk, GameOk, Unqueued, LeftoverGame, Forget;
    hide RemoveRequests, RemoveMember, Refresh;
    NoGameZero(l);
    if l.seats[s].gameID != 0 {
      SeatedIn(l, s);
    } else {
      NoLeftover(l, s);
    }
  }

  lemma DequeueEmpties<S>(l: Lobby<S>, s: S)
    requires s in l.seats
    ensures Unqueued(Dequeue(l, s), s)
  {
    hide RemoveRequests;
    RemoveRequestsElements(l.queue, s);
    var q := RemoveRequests(l.queue, s);
    forall i | 0 <= i < |q|
      ensures q[i].session != s
    {
      assert q[i] in q;
    }
  }

  lemma LeaveFrees<S>(l: Lobby<S>, t: S, gid: int)
    requires LeaveReady(l, t, gid)
    ensures var l' := Leave(l, t, gid);
            && t in l'.seats && l'.seats[t] == IDLE && l'.queue == l.queue && l'.ids == l.ids
            && l'.seats.Keys == l.seats.Keys
            && (Unqueued(l, t) ==> Unqueued(l', t))
  {
    hide RegistryOk, GamesOk, SeatsOk, QueueOk, InboxesOk, Leave, Refresh, RemoveMember, LeaveMail;
    LeaveShape(l, t, gid);
  }

  // ---- removal -----------------------------------------------------------------------------

  lemma AllowedTargetExact<S>(l: Lobby<S>, s: S, gid: int, pid: int)
    requires Inv(l) && LoggedIn(l, s) && gid in l.games
    ensures match AllowedTarget(l, s, gid, pid)
            case None => s !in l.games[gid].members || pid !in Pids(l.ids, l.games[gid].members)
                         || (Pid(l.ids, s) != pid && s != l.games[gid].host)
            case Some(t) => t in l.games[gid].members && Pid(l.ids, t) == pid && s in l.games[gid].members
                            && (t == s || s == l.games[gid].host)
  {
    hide RegistryOk, GamesOk, SeatsOk, QueueOk, InboxesOk, GameOk, Pids, MembersDistinct;
    var members := l.games[gid].members;
    SlotsAreTables(l, gid);
    Distinct(l.games[gid], l.ids);
    MemberForExact(l.ids, members, pid);
    MemberForExact(l.ids, members, Pid(l.ids, s));
    var caller := MemberFor(l.ids, members, Pid(l.ids, s));
    LoggedInPid(l, s);
    if caller.Some? {
      MemberSeat(l, gid, caller.value);
      SamePersona(l, caller.value, s);
    }
  }

  /** For a permitted change the game's record gets the merged attributes and nothing else. */
  lemma PlayerAttrsGame<S>(l: Lobby<S>, s: S, gid: int, pid: int, attrs: Attrs, now: int)
    requires Inv(l) && LoggedIn(l, s) && gid in l.games && AllowedTarget(l, s, gid, pid).Some?
    ensures var g := MergeAttrs(l.games[gid], pid, attrs);
            && GameOk(g, l.ids) && g.id == gid
            && SetPlayerAttrs(l, s, gid, pid, attrs, now)
               == l.(games := l.games[gid := g], inbox := Post(l.inbox, Broadcast(l, s, gid, PlayerAttributes(gid, pid, attrs))))
  {
    hide RegistryOk, GamesOk, SeatsOk, QueueOk, InboxesOk, GameOk, AllowedTarget, Post, Pids, Pid, EnsureMembership, Broadcast;
    AllowedTargetExact(l, s, gid, pid);
    var t := AllowedTarget(l, s, gid, pid).value;
    MemberSeat(l, gid, t);
    SlotsAreTables(l, gid);
    Idle(l.games[gid], l.ids, now);
    MergeIsFree(l.games[gid], l.ids, pid, attrs);
  }

  lemma SetPlayerAttrsKeeps<S>(l: Lobby<S>, s: S, gid: int, pid: int, attrs: Attrs, now: int)
    requires Inv(l) && LoggedIn(l, s)
    ensures Inv(SetPlayerAttrs(l, s, gid, pid, attrs, now))
  {
    hide Inv, AllowedTarget, Post, EnsureMembership, GameOk, LoggedIn;
    var note := PlayerAttributes(gid, pid, attrs);
    if gid !in l.games {
      BroadcastKeeps(l, s, gid, note);
    } else if AllowedTarget(l, s, gid, pid).Some? {
      PlayerAttrsGame(l, s, gid, pid, attrs, now);
      var g := MergeAttrs(l.games[gid], pid, attrs);
      var l1 := l.(games := l.games[gid := g]);
      ReplaceKeeps(l, gid, g);
      assert Broadcast(l1, s, gid, note) == Broadcast(l, s, gid, note);
      StillLoggedIn(l, l1, s);
      BroadcastKeeps(l1, s, gid, note);
    }
  }

  lemma StillLoggedIn<S>(l: Lobby<S>, l': Lobby<S>, s: S)
    requires LoggedIn(l, s) && l'.ids == l.ids
    ensures LoggedIn(l', s)
  {
  }

  lemma RemovePlayerKeeps<S>(l: Lobby<S>, s: S, gid: int, pid: int)
    requires Inv(l) && LoggedIn(l, s)
    ensures Inv(RemovePlayer(l, s, gid, pid))
  {
    hide RegistryOk, GamesOk, SeatsOk, QueueOk, InboxesOk, GameOk, AllowedTarget, Leave, Dequeue, Post, Pids, ViewOf, Pid;
    if gid !in l.games {
      EchoIsInert(l, s, gid, pid);
      NoteKeeps(l, s, PlayerRemoved(gid, pid));
    } else {
      AllowedTargetExact(l, s, gid, pid);
      var target := AllowedTarget(l, s, gid, pid);
      if target.Some? {
        var t := target.value;
        MemberSeat(l, gid, t);
        DequeueKeeps(l, t);
        DequeueGames(l, t);
        LeaveKeeps(Dequeue(l, t), t, gid);
      }
    }
  }

  lemma DequeueGames<S>(l: Lobby<S>, s: S)
    requires s in l.seats
    ensures Dequeue(l, s).games == l.games && Dequeue(l, s).ids == l.ids && s in Dequeue(l, s).seats
    ensures forall x | x in l.seats && x != s :: x in Dequeue(l, s).seats && Dequeue(l, s).seats[x] == l.seats[x]
  {
    hide RemoveRequests;
  }

  /** A removal from a game that is not registered is not about the game the sender is in. */
  lemma EchoIsInert<S>(l: Lobby<S>, s: S, gid: int, pid: int)
    requires Inv(l) && LoggedIn(l, s) && gid !in l.games
    ensures Inert(ViewOf(l, s), PlayerRemoved(gid, pid))
  {
    hide RegistryOk, GamesOk, SeatsOk, QueueOk, InboxesOk, ViewOf;
    LoggedInPid(l, s);
    ViewFacts(l, s);
    if l.seats[s].gameID != 0 {
      SeatedIn(l, s);
    }
  }

  // ---- cancelling --------------------------------------------------------------------------

  lemma CancelKeeps<S>(l: Lobby<S>, s: S, msid: int)
    requires Inv(l) && s in l.seats
    ensures Inv(Cancel(l, s, msid).0)
  {
    hide RegistryOk, GamesOk, SeatsOk, QueueOk, InboxesOk, Cancel, Dequeue;
    CancelIsDequeue(l, s, msid);
    DequeueKeeps(l, s);
  }

  // ---- hosting and matchmaking -------------------------------------------------------------

  /** Under the invariant a session is playing exactly when its GameID is set. */
  lemma PlayingExact<S>(l: Lobby<S>, s: S)
    requires Inv(l) && LoggedIn(l, s)
    ensures Playing(l, s) <==> l.seats[s].gameID != 0
  {
    hide RegistryOk, GamesOk, SeatsOk, QueueOk, InboxesOk, GameOk;
    NoGameZero(l);
    var gid := l.seats[s].gameID;
    if gid != 0 {
      SeatedIn(l, s);
      SlotsAreTables(l, gid);
      Distinct(l.games[gid], l.ids);
      MemberForExact(l.ids, l.games[gid].members, Pid(l.ids, s));
    }
  }

  /** Starting over leaves a session that was in no game free. */
  lemma RestartFrees<S>(l: Lobby<S>, s: S)
    requires Inv(l) && LoggedIn(l, s) && l.seats[s].gameID == 0
    ensures Restart(l, s) == Dequeue(l, s) && Inv(Restart(l, s)) && Free(Restart(l, s), s)
  {
    hide RegistryOk, GamesOk, QueueOk, InboxesOk, RemoveRequests, Unqueued;
    DequeueKeeps(l, s);
    DequeueEmpties(l, s);
    assert SeatOk(l, s);
    assert l.seats[s].(gameID := 0) == l.seats[s];
    assert l.seats[s := l.seats[s].(gameID := 0)] == l.seats;
  }

  lemma ResetDedicatedKeeps<S>(l: Lobby<S>, s: S, attrs: Attrs, cap: int, topology: int, now: int)
    requires Inv(l) && LoggedIn(l, s) && now > 0
    ensures s in l.seats && Inv(ResetDedicated(l, s, attrs, cap, topology, now))
  {
    hide RegistryOk, GamesOk, SeatsOk, QueueOk, InboxesOk, Host, Restart, Playing, Free, Dequeue;
    PlayingExact(l, s);
    if !Playing(l, s) {
      RestartFrees(l, s);
      HostKeeps(Restart(l, s), s, attrs, cap, topology, now);
    }
  }

  ghost predicate Compatible<S>(l: Lobby<S>, r: Request<S>, gid: int)
  {
    gid in l.games && CompatibleGame(l.games[gid], r)
  }

  /** The slot a newcomer gets. */
  function OpenSlot<S>(l: Lobby<S>, gid: int): int
    requires gid in l.games
  {
    LeastUnused(l.games[gid].slots.Values, 0)
  }

  /** A free session is taken by every game it is compatible with, in the least unused slot. */
  lemma CompatibleAccepts<S>(l: Lobby<S>, r: Request<S>, now: int, gid: int)
    requires Inv(l) && Free(l, r.session) && gid in l.games && CompatibleGame(l.games[gid], r)
    ensures var a := AddMember(l.games[gid], l.ids, r.session, now);
            && a.added && a.slot == OpenSlot(l, gid) && 0 <= a.slot <= |l.games[gid].members| < l.games[gid].capacity
            && a.slot !in l.games[gid].slots.Values
            && l.games[gid := a.game] == JoinedGames(l, r.session, gid, a.slot, now)
  {
    hide RegistryOk, GamesOk, SeatsOk, QueueOk, InboxesOk, SameAttr, Pids, Pid, Unqueued, AddMember;
    SlotsAreTables(l, gid);
    FreeIsNoMember(l, r.session, gid);
    AddMemberSpec(l.games[gid], l.ids, r.session, now);
  }

  /** queueMatch's scan takes the session into the compatible game with the lowest id, and changes
      nothing when there is none. */
  lemma {:induction false} ScanSpec<S>(l: Lobby<S>, r: Request<S>, now: int, todo: set<int>)
    requires Inv(l) && Free(l, r.session) && todo <= l.games.Keys
    ensures var scan := ScanGames(l.games, l.ids, r, now, todo);
            match scan.joined
            case None => scan.games == l.games && forall gid | gid in todo :: !Compatible(l, r, gid)
            case Some(gid) =>
              && gid in todo && Compatible(l, r, gid) && (forall k | k in todo && Compatible(l, r, k) :: gid <= k)
              && scan.games == JoinedGames(l, r.session, gid, OpenSlot(l, gid), now)
    decreases |todo|
  {
    hide Inv, CompatibleGame, AddMember, OpenSlot, JoinedGames, Joined;
    if todo != {} {
      var gid := Least(todo);
      if CompatibleGame(l.games[gid], r) {
        CompatibleAccepts(l, r, now, gid);
      } else {
        ScanSpec(l, r, now, todo - {gid});
      }
    }
  }

  lemma PlaceRequestKeeps<S>(l: Lobby<S>, r: Request<S>, now: int)
    requires Inv(l) && Free(l, r.session) && now > 0 && 0 < r.msid < l.nextMatch
    requires forall i | 0 <= i < |l.queue| :: l.queue[i].msid < r.msid
    ensures Inv(PlaceRequest(l, r, now))
  {
    hide Inv, ScanGames, Join, JoinedGames, Pair, Enqueue, FirstMatch, OpenSlot, CompatibleMatch, Unqueued, Compatible;
    ScanSpec(l, r, now, l.games.Keys);
    var scan := ScanGames(l.games, l.ids, r, now, l.games.Keys);
    if scan.joined.Some? {
      var gid := scan.joined.value;
      JoinedKeys(l, r.session, gid, now);
      JoinKeeps(l, r.session, gid, OpenSlot(l, gid), now);
    } else {
      assert l.(games := scan.games) == l;
      FirstMatchSpec(l.queue, r);
      var i := FirstMatch(l.queue, r);
      if i < |l.queue| {
        MatchedCap(l.queue[i], r);
        PairKeeps(l, i, r, now);
      } else {
        EnqueueKeeps(l, r);
      }
    }
  }

  lemma JoinedKeys<S>(l: Lobby<S>, s: S, gid: int, now: int)
    requires Inv(l) && Free(l, s) && gid in l.games && now > 0
    ensures gid in JoinedGames(l, s, gid, OpenSlot(l, gid), now)
    ensures JoinReady(l, s, gid, OpenSlot(l, gid), now)
  {
    hide Inv, Unqueued;
  }

  lemma MatchedCap<S>(a: Request<S>, b: Request<S>)
    requires CompatibleMatch(a, b)
    ensures a.cap >= 2
  {
    hide SameAttr;
  }

  lemma QueueMatchKeeps<S>(l: Lobby<S>, s: S, attrs: Attrs, cap: int, topology: int, now: int)
    requires Inv(l) && LoggedIn(l, s) && now > 0
    ensures s in l.seats && Inv(QueueMatch(l, s, attrs, cap, topology, now))
  {
    hide RegistryOk, GamesOk, SeatsOk, QueueOk, InboxesOk, PlaceRequest, Restart, Playing, Free, Dequeue;
    var l1 := l.(nextMatch := l.nextMatch + 1);
    SpendMatchKeeps(l);
    PlayingExact(l1, s);
    if l.seats[s].gameID == 0 {
      RestartFrees(l1, s);
      var l2 := Restart(l1, s);
      QueueBelow(l, s);
      PlaceRequestKeeps(l2, Request(s, attrs, cap, topology, l.nextMatch), now);
    }
  }

  lemma QueueBelow<S>(l: Lobby<S>, s: S)
    requires QueueOk(l) && s in l.seats
    ensures l.nextMatch > 0
    ensures var l2 := Dequeue(l.(nextMatch := l.nextMatch + 1), s);
            l2.nextMatch == l.nextMatch + 1 && forall i | 0 <= i < |l2.queue| :: l2.queue[i].msid < l.nextMatch
  {
    hide CompatibleMatch, RemoveRequests;
    RemoveRequestsElements(l.queue, s);
    var q := RemoveRequests(l.queue, s);
    forall i | 0 <= i < |q|
      ensures q[i].msid < l.nextMatch
    {
      assert q[i] in l.queue;
    }
  }
}
