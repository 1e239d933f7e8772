/** What matchmaking, removal and disconnection come to, read off the states before and after. */
module LobbyOutcomes {
  import IntSets
  import opened Options
  import opened LobbyModel
  import opened LobbyInvariant
  import opened LobbyGames
  import opened LobbyFrames
  import opened LobbyQueueSteps
  import opened LobbyJoinSteps
  import opened LobbyOpenSteps
  import opened LobbyLeaveSteps
  import opened LobbySessionSteps
  import opened LobbyHistory

  // ---- matchmaking ---------------------------------------------------------------------------

  /** A logged-in session asks for a match while it is in no game. */
  ghost predicate Asks<S>(l: Lobby<S>, s: S, now: int)
  {
    Inv(l) && LoggedIn(l, s) && l.seats[s].gameID == 0 && now > 0
  }

  /** The request a session makes, with the next match id. */
  function Asked<S>(l: Lobby<S>, s: S, attrs: Attrs, cap: int, topology: int): Request<S>
  {
    Request(s, attrs, cap, topology, l.nextMatch)
  }

  /** A session in a game spends a match id and nothing else. */
  lemma MatchIgnored<S>(l: Lobby<S>, s: S, attrs: Attrs, cap: int, topology: int, now: int)
    requires Inv(l) && LoggedIn(l, s) && l.seats[s].gameID != 0
    ensures s in l.seats && QueueMatch(l, s, attrs, cap, topology, now) == l.(nextMatch := l.nextMatch + 1)
  {
    hide RegistryOk, GamesOk, SeatsOk, QueueOk, InboxesOk, PlaceRequest, Playing;
    SpendMatchKeeps(l);
    PlayingExact(l.(nextMatch := l.nextMatch + 1), s);
  }

  lemma AskRestarts<S>(l: Lobby<S>, s: S, attrs: Attrs, cap: int, topology: int, now: int) returns (l2: Lobby<S>)
    requires Asks(l, s, now)
    ensures s in l.seats && s in l2.seats
    ensures l2 == Dequeue(l.(nextMatch := l.nextMatch + 1), s)
    ensures QueueMatch(l, s, attrs, cap, topology, now) == PlaceRequest(l2, Asked(l, s, attrs, cap, topology), now)
    ensures Inv(l2) && Free(l2, s) && l2.games == l.games && l2.ids == l.ids && l2.queue == RemoveRequests(l.queue, s)
    ensures l2.nextGame == l.nextGame && l2.seats == l.seats[s := IDLE]
    ensures 0 < l.nextMatch < l2.nextMatch && forall i | 0 <= i < |l2.queue| :: l2.queue[i].msid < l.nextMatch
  {
    hide RegistryOk, GamesOk, SeatsOk, QueueOk, InboxesOk, PlaceRequest, Playing, RemoveRequests, Unqueued;
    var l1 := l.(nextMatch := l.nextMatch + 1);
    SpendMatchKeeps(l);
    PlayingExact(l1, s);
    RestartFrees(l1, s);
    QueueBelow(l, s);
    l2 := Dequeue(l1, s);
  }

  /** If registered games are compatible, the one with the lowest id takes the session in, in its
      least unused slot; no other game and no other request is touched. */
  lemma MatchJoins<S>(l: Lobby<S>, s: S, attrs: Attrs, cap: int, topology: int, now: int, gid: int)
    requires Asks(l, s, now)
    requires Compatible(l, Asked(l, s, attrs, cap, topology), gid)
    requires forall k | k in l.games && Compatible(l, Asked(l, s, attrs, cap, topology), k) :: gid <= k
    ensures s in l.seats
    ensures var l' := QueueMatch(l, s, attrs, cap, topology, now);
            && l'.games.Keys == l.games.Keys && (forall k | k in l.games && k != gid :: l'.games[k] == l.games[k])
            && l'.games[gid].members == l.games[gid].members + [s]
            && l'.games[gid].slots == l.games[gid].slots[Pid(l.ids, s) := OpenSlot(l, gid)]
            && |l'.games[gid].members| <= l'.games[gid].capacity
            && l'.seats == l.seats[s := Seat(gid, gid, 0)]
            && l'.queue == RemoveRequests(l.queue, s)
  {
    hide Inv, CompatibleGame, ScanGames, PlaceRequest, QueueMatch, Dequeue, RemoveRequests, OpenSlot, Unqueued, LoggedIn, FirstMatch, Join;
    hide Joined, JoinedGames;
    var r := Asked(l, s, attrs, cap, topology);
    var l2 := AskRestarts(l, s, attrs, cap, topology, now);
    ScanFinds(l2, r, now, gid);
    CompatibleAccepts(l2, r, now, gid);
    PlacedJoin(l2, r, now, gid);
    InvGames(l2, gid);
    JoinEffect(l2, s, gid, OpenSlot(l2, gid), now);
    SameSlot(l, l2, gid);
  }

  lemma ScanFinds<S>(l: Lobby<S>, r: Request<S>, now: int, gid: int)
    requires Inv(l) && Free(l, r.session) && Compatible(l, r, gid)
    requires forall k | k in l.games && Compatible(l, r, k) :: gid <= k
    ensures var scan := ScanGames(l.games, l.ids, r, now, l.games.Keys);
            scan.joined == Some(gid) && gid in scan.games && scan.games == JoinedGames(l, r.session, gid, OpenSlot(l, gid), now)
  {
    hide Inv, CompatibleGame, ScanGames, OpenSlot, Unqueued, LoggedIn, Joined;
    ScanSpec(l, r, now, l.games.Keys);
  }

  lemma SameSlot<S>(l: Lobby<S>, l': Lobby<S>, gid: int)
    requires gid in l.games && l'.games == l.games
    ensures OpenSlot(l', gid) == OpenSlot(l, gid)
  {
  }

  lemma PlacedJoin<S>(l: Lobby<S>, r: Request<S>, now: int, gid: int)
    requires r.session in l.seats
    requires var scan := ScanGames(l.games, l.ids, r, now, l.games.Keys); scan.joined == Some(gid) && gid in scan.games
    ensures PlaceRequest(l, r, now) == Join(l, r.session, ScanGames(l.games, l.ids, r, now, l.games.Keys).games, gid)
  {
    hide ScanGames, Join;
  }

  lemma JoinEffect<S>(l: Lobby<S>, s: S, gid: int, slot: int, now: int)
    requires gid in l.games && s in l.seats && l.games[gid].id == gid
    ensures var l' := Join(l, s, JoinedGames(l, s, gid, slot, now), gid);
            && l'.games.Keys == l.games.Keys && (forall k | k in l.games && k != gid :: l'.games[k] == l.games[k])
            && l'.games[gid].members == l.games[gid].members + [s] && l'.games[gid].capacity == l.games[gid].capacity
            && l'.games[gid].slots == l.games[gid].slots[Pid(l.ids, s) := slot]
            && l'.seats == l.seats[s := Seat(gid, gid, 0)] && l'.queue == l.queue
  {
    hide Post, UserNotes, UserNotesExcept, SetupNote;
  }

  /** If no registered game is compatible, the oldest compatible request of another session is
      paired: its owner hosts a new game in slot 0 with the session in slot 1, and both are in it. */
  lemma MatchPairs<S>(l: Lobby<S>, s: S, attrs: Attrs, cap: int, topology: int, now: int, i: nat)
    requires Asks(l, s, now)
    requires var r := Asked(l, s, attrs, cap, topology);
             && (forall k | k in l.games :: !Compatible(l, r, k))
             && i < |RemoveRequests(l.queue, s)| && CompatibleMatch(RemoveRequests(l.queue, s)[i], r)
             && forall k | 0 <= k < i :: !CompatibleMatch(RemoveRequests(l.queue, s)[k], r)
    ensures s in l.seats
    ensures var l' := QueueMatch(l, s, attrs, cap, topology, now);
            var others := RemoveRequests(l.queue, s);
            var h := others[i].session;
            var gid := l.nextGame;
            && h != s && gid !in l.games && gid in l'.games && l'.games == l.games[gid := l'.games[gid]]
            && l'.games[gid].host == h && l'.games[gid].members == [h, s] && l'.games[gid].capacity == cap
            && l'.games[gid].attrs == others[i].attrs && l'.games[gid].topology == others[i].topology
            && l'.games[gid].slots == map[Pid(l.ids, h) := 0, Pid(l.ids, s) := 1]
            && l'.seats == l.seats[h := Seat(gid, gid, 0)][s := Seat(gid, gid, 0)]
            && l'.queue == others[..i] + others[i + 1..]
  {
    hide Inv, CompatibleGame, ScanGames, PlaceRequest, QueueMatch, Dequeue, RemoveRequests, OpenSlot, LoggedIn, FirstMatch, CompatibleMatch;
    hide JoinedGames;
    var r := Asked(l, s, attrs, cap, topology);
    var l2 := AskRestarts(l, s, attrs, cap, topology, now);
    ScanSpec(l2, r, now, l2.games.Keys);
    assert forall k | k in l2.games.Keys :: Compatible(l2, r, k) ==> Compatible(l, r, k);
    FirstMatchSpec(l2.queue, r);
    var j := FirstMatch(l2.queue, r);
    assert j == i;
    PlacedPair(l2, r, now, i);
    PairEffect(l2, i, r, now);
  }

  lemma PlacedPair<S>(l: Lobby<S>, r: Request<S>, now: int, i: nat)
    requires r.session in l.seats && FirstMatch(l.queue, r) == i < |l.queue|
    requires var scan := ScanGames(l.games, l.ids, r, now, l.games.Keys); scan.joined == None && scan.games == l.games
    ensures PlaceRequest(l, r, now) == Pair(l, i, r, now)
  {
    hide ScanGames, Pair, FirstMatch;
    assert l.(games := l.games) == l;
  }

  lemma PairEffect<S>(l: Lobby<S>, i: nat, r: Request<S>, now: int)
    requires Inv(l) && Free(l, r.session) && now != 0
    requires i < |l.queue| && CompatibleMatch(l.queue[i], r)
    ensures var l' := Pair(l, i, r, now);
            var h := l.queue[i].session;
            var gid := l.nextGame;
            && h in l.seats && h != r.session && gid !in l.games && gid in l'.games && l'.games == l.games[gid := l'.games[gid]]
            && l'.games[gid].host == h && l'.games[gid].members == [h, r.session] && l'.games[gid].capacity == r.cap
            && l'.games[gid].attrs == l.queue[i].attrs && l'.games[gid].topology == l.queue[i].topology
            && l'.games[gid].slots == map[Pid(l.ids, h) := 0, Pid(l.ids, r.session) := 1]
            && l'.seats == l.seats[h := Seat(gid, gid, 0)][r.session := Seat(gid, gid, 0)]
            && l'.queue == l.queue[..i] + l.queue[i + 1..]
  {
    hide Inv, NewGame, GameOk, SetupNote, UserNotes, Post, SameAttr, Pid;
    var q := l.queue[i];
    PairParties(l, i, r, now);
    InvParts(l, r.session);
    NewGameTwo(l.ids, l.nextGame, q.session, r.session, q.attrs, q.cap, q.topology, now);
  }

  /** If neither exists the request goes to the end of the queue, and the session waits. */
  lemma MatchWaits<S>(l: Lobby<S>, s: S, attrs: Attrs, cap: int, topology: int, now: int)
    requires Asks(l, s, now)
    requires var r := Asked(l, s, attrs, cap, topology);
             && (forall k | k in l.games :: !Compatible(l, r, k))
             && forall k | 0 <= k < |RemoveRequests(l.queue, s)| :: !CompatibleMatch(RemoveRequests(l.queue, s)[k], r)
    ensures s in l.seats
    ensures var l' := QueueMatch(l, s, attrs, cap, topology, now);
            && l'.games == l.games && l'.inbox == l.inbox
            && l'.seats == l.seats[s := Seat(0, 0, l.nextMatch)]
            && l'.queue == RemoveRequests(l.queue, s) + [Asked(l, s, attrs, cap, topology)]
  {
    hide Inv, CompatibleGame, ScanGames, PlaceRequest, QueueMatch, RemoveRequests, OpenSlot, LoggedIn, FirstMatch, CompatibleMatch;
    hide JoinedGames, Unqueued;
    var r := Asked(l, s, attrs, cap, topology);
    var l2 := AskRestarts(l, s, attrs, cap, topology, now);
    ScanSpec(l2, r, now, l2.games.Keys);
    assert forall k | k in l2.games.Keys :: Compatible(l2, r, k) ==> Compatible(l, r, k);
    FirstMatchSpec(l2.queue, r);
    PlacedLast(l2, r, now);
  }

  lemma PlacedLast<S>(l: Lobby<S>, r: Request<S>, now: int)
    requires r.session in l.seats && FirstMatch(l.queue, r) == |l.queue|
    requires var scan := ScanGames(l.games, l.ids, r, now, l.games.Keys); scan.joined == None && scan.games == l.games
    ensures PlaceRequest(l, r, now) == Enqueue(l, r)
  {
    hide ScanGames, Enqueue, FirstMatch;
    assert l.(games := l.games) == l;
  }

  // ---- disconnection -------------------------------------------------------------------------

  /** The persona appears in none of the game's tables. */
  predicate Absent<S>(g: Game<S>, p: int)
  {
    && p !in g.slots && p !in g.joinedAt && p !in g.playerAttrs && p !in g.playerStates
    && p !in g.mesh && (forall q | q in g.mesh :: p !in g.mesh[q]) && p !in g.meshReady
  }

  /** After a disconnection the session is in no registry, queue entry, roster or table, and the
      other requests keep their order. */
  lemma DisconnectIsComplete<S>(l: Lobby<S>, s: S)
    requires Inv(l) && s in l.ids
    ensures var l' := Disconnect(l, s);
            && l'.ids == l.ids - {s} && s !in l'.seats && s !in l'.inbox
            && s !in l'.sessions.Values && s !in l'.active.Values
            && l'.queue == RemoveRequests(l.queue, s)
            && (forall r | r in l'.queue :: r.session != s)
            && (forall gid | gid in l'.games :: s !in l'.games[gid].members
                  && (LoggedIn(l, s) ==> Absent(l'.games[gid], Pid(l.ids, s))))
  {
    hide RegistryOk, GamesOk, SeatsOk, QueueOk, InboxesOk, Disconnect, RemoveRequests, Pid, LoggedIn, Absent;
    DisconnectKeeps(l, s);
    DisconnectEffect(l, s);
    RemoveRequestsElements(l.queue, s);
    var l' := Disconnect(l, s);
    RegistryWithout(l', s);
    forall gid | gid in l'.games
      ensures s !in l'.games[gid].members && (LoggedIn(l, s) ==> Absent(l'.games[gid], Pid(l.ids, s)))
    {
      if s in l'.games[gid].members {
        MemberSeat(l', gid, s);
      }
      if LoggedIn(l, s) {
        AbsentFrom(l, l', s, gid);
      }
    }
  }

  lemma RegistryWithout<S>(l: Lobby<S>, s: S)
    requires RegistryOk(l) && s !in l.ids
    ensures s !in l.sessions.Values && s !in l.active.Values
  {
    forall v | v in l.sessions.Values
      ensures v in l.ids
    {
      var k := IntSets.KeyOf(l.sessions, v);
    }
    forall v | v in l.active.Values
      ensures v in l.ids
    {
      var p := IntSets.KeyOf(l.active, v);
    }
  }

  lemma DisconnectEffect<S>(l: Lobby<S>, s: S)
    requires Inv(l) && s in l.ids
    ensures var l' := Disconnect(l, s);
            l'.ids == l.ids - {s} && l'.queue == RemoveRequests(l.queue, s) && s !in l'.seats && s !in l'.inbox
  {
    hide RegistryOk, GamesOk, SeatsOk, QueueOk, InboxesOk, Disconnect, RemoveRequests, Leave;
    DisconnectIs(l, s);
    if l.seats[s].gameID != 0 {
      SeatedIn(l, s);
      DequeueKeeps(l, s);
      LeaveFrees(Dequeue(l, s), s, l.seats[s].gameID);
    }
  }

  lemma AbsentFrom<S>(l: Lobby<S>, l': Lobby<S>, s: S, gid: int)
    requires Inv(l) && Inv(l') && LoggedIn(l, s) && l'.ids == l.ids - {s} && gid in l'.games
    ensures Absent(l'.games[gid], Pid(l.ids, s))
  {
    hide RegistryOk, GamesOk, SeatsOk, QueueOk, InboxesOk, GameOk, Absent, Pids;
    SlotsAreTables(l', gid);
    var members := l'.games[gid].members;
    forall i | 0 <= i < |members|
      ensures Pid(l'.ids, members[i]) != Pid(l.ids, s)
    {
      MemberSeat(l', gid, members[i]);
      if Pid(l.ids, members[i]) == Pid(l.ids, s) {
        SamePersona(l, members[i], s);
      }
    }
    NoPid(l'.ids, members, Pid(l.ids, s));
    AbsentTables(l'.games[gid], l'.ids, Pid(l.ids, s));
  }

  lemma AbsentTables<S>(g: Game<S>, ids: map<S, Identity>, p: int)
    requires GameOk(g, ids) && p !in g.slots
    ensures Absent(g, p)
  {
    hide Pids;
  }

  /** A host's disconnection unregisters its game and frees every survivor; a member's leaves the
      game to the others. Other games are not touched. */
  lemma DisconnectEndsHostedGame<S>(l: Lobby<S>, s: S, gid: int)
    requires Inv(l) && s in l.ids && gid in l.games && s in l.games[gid].members
    ensures var l' := Disconnect(l, s);
            && (forall k | k in l.games && k != gid :: k in l'.games && l'.games[k] == l.games[k])
            && (gid in l'.games <==> s != l.games[gid].host)
            && (s == l.games[gid].host ==>
                  forall m | m in l.games[gid].members && m != s :: m in l'.seats && l'.seats[m] == IDLE)
            && (s != l.games[gid].host ==>
                  && l'.games[gid].members == Without(l.games[gid].members, s)
                  && l'.games[gid].slots == l.games[gid].slots - {Pid(l.ids, s)})
  {
    hide RegistryOk, GamesOk, SeatsOk, QueueOk, InboxesOk, GameOk, Disconnect, RemoveRequests, Leave, LeaveMail, Refresh, RemoveMember, Without, Pid, Pids;
    hide Unqueued;
    MemberSeat(l, gid, s);
    DisconnectIs(l, s);
    DequeueKeeps(l, s);
    var l1 := Dequeue(l, s);
    LeaveShape(l1, s, gid);
    SlotsAreTables(l, gid);
    if s != l.games[gid].host {
      RemoveKeeps(l.games[gid], l.ids, s);
    }
    forall m | m in l.games[gid].members
      ensures m in l.ids
    {
      MemberSeat(l, gid, m);
    }
  }

  // ---- removal -------------------------------------------------------------------------------

  /** removePlayer takes a member out exactly when it is registered with the persona asked for and
      the caller is that member or the host; otherwise no game, seat or request changes. */
  lemma RemovalIsExact<S>(l: Lobby<S>, s: S, gid: int, pid: int)
    requires Inv(l) && LoggedIn(l, s)
    ensures var l' := RemovePlayer(l, s, gid, pid);
            if gid in l.games && s in l.games[gid].members && pid in Pids(l.ids, l.games[gid].members)
               && (Pid(l.ids, s) == pid || s == l.games[gid].host)
            then exists t | t in l.games[gid].members ::
                   && Pid(l.ids, t) == pid && t in l'.seats && l'.seats[t] == IDLE
                   && (gid in l'.games <==> t != l.games[gid].host)
                   && (gid in l'.games ==> l'.games[gid].members == Without(l.games[gid].members, t))
            else l'.games == l.games && l'.seats == l.seats && l'.queue == l.queue
  {
    hide RegistryOk, GamesOk, SeatsOk, QueueOk, InboxesOk, GameOk, AllowedTarget, Leave, Dequeue, Post, Pids, Pid, Without;
    if gid in l.games {
      AllowedTargetExact(l, s, gid, pid);
      var target := AllowedTarget(l, s, gid, pid);
      if target.Some? {
        var t := target.value;
        MemberSeat(l, gid, t);
        DequeueKeeps(l, t);
        DequeueGames(l, t);
        LeaveFrees(Dequeue(l, t), t, gid);
        LeaveRoster(Dequeue(l, t), t, gid);
        PidIn(l.ids, l.games[gid].members, t);
      }
    }
  }

  lemma LeaveRoster<S>(l: Lobby<S>, t: S, gid: int)
    requires LeaveReady(l, t, gid)
    ensures var l' := Leave(l, t, gid);
            && (gid in l'.games <==> t != l.games[gid].host)
            && (gid in l'.games ==> l'.games[gid].members == Without(l.games[gid].members, t))
  {
    hide Inv, GameOk, Leave, LeaveMail, Pid, Pids, Without, Refresh, RemoveMember;
    LeaveShape(l, t, gid);
    InvGames(l, gid);
    if t != l.games[gid].host {
      RemoveKeeps(l.games[gid], l.ids, t);
    }
  }

  // ---- before login --------------------------------------------------------------------------

  /** A live connection that has not logged in. */
  ghost predicate Nameless<S>(l: Lobby<S>, s: S)
  {
    Inv(l) && s in l.ids && !LoggedIn(l, s)
  }

  lemma NamelessHosts<S>(l: Lobby<S>, s: S, attrs: Attrs, cap: int, topology: int, now: int)
    requires Nameless(l, s)
    ensures s in l.seats
    ensures ResetDedicated(l, s, attrs, cap, topology, now) == Host(Dequeue(l, s), s, attrs, cap, topology, now)
    ensures l.nextGame == Dequeue(l, s).nextGame && l.ids == Dequeue(l, s).ids
  {
    hide RegistryOk, GamesOk, QueueOk, InboxesOk, Host, RemoveRequests, MemberFor;
    NoGameZero(l);
    assert SeatOk(l, s);
    assert l.seats[s].(gameID := 0) == l.seats[s];
    assert l.seats[s := l.seats[s].(gameID := 0)] == l.seats;
  }

  lemma HostedNameless<S>(ids: map<S, Identity>, gid: int, s: S, attrs: Attrs, cap: int, topology: int, now: int)
    requires Pid(ids, s) == 0
    ensures var g := NewGame(ids, gid, s, [s], attrs, cap, topology, now);
            g.members == [s] && g.slots == map[0 := 0] && !GameOk(g, ids)
  {
    var e := EmptyGame(gid, s, attrs, cap, topology);
    var a := AddMember(e, ids, s, now);
    assert EnsureMembership(e, ids, now) == e;
    assert [s][1..] == [];
    assert AddMembers(a.game, ids, [], now) == a.game;
    var g := NewGame(ids, gid, s, [s], attrs, cap, topology, now);
    assert g == a.game;
    assert Pid(ids, g.members[0]) == 0;
  }

  lemma HostedIn<S>(l: Lobby<S>, s: S, attrs: Attrs, cap: int, topology: int, now: int)
    requires s in l.seats
    ensures var l' := Host(l, s, attrs, cap, topology, now);
            && l.nextGame in l'.games && l'.games[l.nextGame] == NewGame(l.ids, l.nextGame, s, [s], attrs, cap, topology, now)
            && l'.ids == l.ids && l'.users == l.users && l'.sessions == l.sessions && l'.active == l.active
            && l'.nextUser == l.nextUser && l'.nextSession == l.nextSession
  {
    hide NewGame, SetupNote, Post;
  }

  /** The handlers do not forbid a connection that has not logged in to create a game. The game it
      gets is never in order, and once the connection logs in, under whatever persona, the game's
      tables no longer match its roster. */
  lemma HostingBeforeLoginBreaksTables<S>(l: Lobby<S>, s: S, attrs: Attrs, cap: int, topology: int, now: int,
                                          requested: int, name: string)
    requires Nameless(l, s)
    ensures s in l.seats
    ensures var l' := ResetDedicated(l, s, attrs, cap, topology, now);
            && s in l'.ids && l.nextGame in l'.games && !GameOk(l'.games[l.nextGame], l'.ids)
            && var l'' := Login(l', s, requested, name);
            && LoggedIn(l'', s) && l.nextGame in l''.games
            && l''.games[l.nextGame].members == [s] && !TablesMatch(l''.games[l.nextGame], l''.ids)
  {
    hide RegistryOk, GamesOk, SeatsOk, QueueOk, InboxesOk, ResetDedicated, Host, Dequeue, NewGame, GameOk, Login, TablesMatch, Pids;
    NamelessHosts(l, s, attrs, cap, topology, now);
    var l1 := Dequeue(l, s);
    DequeueKeeps(l, s);
    HostedIn(l1, s, attrs, cap, topology, now);
    HostedNameless(l1.ids, l1.nextGame, s, attrs, cap, topology, now);
    var l' := ResetDedicated(l, s, attrs, cap, topology, now);
    SameRegistry(l1, l');
    LoginNames(l', s, requested, name);
    MisnamedTables(l'.games[l.nextGame], Login(l', s, requested, name).ids, s);
  }

  lemma MisnamedTables<S>(g: Game<S>, ids: map<S, Identity>, s: S)
    requires g.members == [s] && g.slots == map[0 := 0] && Pid(ids, s) != 0
    ensures !TablesMatch(g, ids)
  {
    PidIn(ids, g.members, s);
  }

  lemma LoginNames<S>(l: Lobby<S>, s: S, requested: int, name: string)
    requires RegistryOk(l) && s in l.ids && l.ids[s].personaID == 0
    ensures var l' := Login(l, s, requested, name);
            LoggedIn(l', s) && Pid(l'.ids, s) != 0 && l'.games == l.games
  {
    hide UserNotes, Post, FreshPersona;
    ChosenPersonaIsFree(l, requested);
  }

  /** So hosting keeps the invariant exactly for connections that have logged in. */
  lemma HostingNeedsLogin<S>(l: Lobby<S>, s: S, attrs: Attrs, cap: int, topology: int, now: int)
    requires Inv(l) && s in l.ids && now > 0
    ensures s in l.seats
    ensures Inv(ResetDedicated(l, s, attrs, cap, topology, now)) <==> LoggedIn(l, s)
  {
    hide RegistryOk, SeatsOk, QueueOk, InboxesOk, ResetDedicated, GameOk, Login, LoggedIn, TablesMatch;
    if LoggedIn(l, s) {
      ResetDedicatedKeeps(l, s, attrs, cap, topology, now);
    } else {
      HostingBeforeLoginBreaksTables(l, s, attrs, cap, topology, now, 0, "");
    }
  }
}
