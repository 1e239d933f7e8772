/** What the other handlers do, in terms of the request and the states before and after. */
module LobbyEffects {
  import opened Options
  import opened IntSets
  import opened LobbyModel
  import opened LobbyInvariant
  import opened LobbyGames
  import opened LobbyQueueSteps
  import opened LobbyJoinSteps
  import opened LobbyOpenSteps
  import opened LobbyLeaveSteps
  import opened LobbyRoomSteps
  import opened LobbySessionSteps
  import opened LobbyHistory
  import opened LobbyOutcomes
  import opened LobbyRuns

  // ---- who is matched with whom --------------------------------------------------------------

  /** What is asked for under the key, if anything, is what there is. */
  predicate Grants(have: Attrs, asked: Attrs, key: string)
  {
    key in asked ==> key in have && have[key] == asked[key]
  }

  /** The game is somebody else's, has room within what the request tolerates, is of the same
      topology, and has every matchmaking attribute the request names. */
  predicate Suits<S(==)>(g: Game<S>, s: S, attrs: Attrs, cap: int, topology: int)
  {
    && g.host != s && |g.members| < g.capacity && (cap <= 0 || g.capacity <= cap) && g.topology == topology
    && Grants(g.attrs, attrs, "playlist") && Grants(g.attrs, attrs, "cartier")
    && Grants(g.attrs, attrs, "event") && Grants(g.attrs, attrs, "visibility")
  }

  /** Both name the key with the same value, or neither names it. */
  predicate Agree(a: Attrs, b: Attrs, key: string)
  {
    Grants(a, b, key) && Grants(b, a, key)
  }

  /** Requests for the same number of players, at least two, the same topology, and the same
      matchmaking attributes. */
  predicate Alike<S>(r: Request<S>, attrs: Attrs, cap: int, topology: int)
  {
    && r.cap == cap && cap >= 2 && r.topology == topology
    && Agree(r.attrs, attrs, "playlist") && Agree(r.attrs, attrs, "cartier")
    && Agree(r.attrs, attrs, "event") && Agree(r.attrs, attrs, "visibility")
  }

  lemma SuitsIsCompatible<S>(g: Game<S>, r: Request<S>)
    ensures Suits(g, r.session, r.attrs, r.cap, r.topology) <==> CompatibleGame(g, r)
  {
    var keys := MATCH_KEYS;
    assert keys[0] == "playlist" && keys[1] == "cartier" && keys[2] == "event" && keys[3] == "visibility";
  }

  lemma AlikeIsCompatible<S>(q: Request<S>, r: Request<S>)
    ensures Alike(q, r.attrs, r.cap, r.topology) <==> CompatibleMatch(q, r)
  {
    var keys := MATCH_KEYS;
    assert keys[0] == "playlist" && keys[1] == "cartier" && keys[2] == "event" && keys[3] == "visibility";
    assert SameAttr(q.attrs, r.attrs, keys[0]) <==> Agree(q.attrs, r.attrs, "playlist");
    assert SameAttr(q.attrs, r.attrs, keys[1]) <==> Agree(q.attrs, r.attrs, "cartier");
    assert SameAttr(q.attrs, r.attrs, keys[2]) <==> Agree(q.attrs, r.attrs, "event");
    assert SameAttr(q.attrs, r.attrs, keys[3]) <==> Agree(q.attrs, r.attrs, "visibility");
  }

  ghost predicate SomeSuits<S>(l: Lobby<S>, s: S, attrs: Attrs, cap: int, topology: int)
  {
    exists gid | gid in l.games :: Suits(l.games[gid], s, attrs, cap, topology)
  }

  /** The registered game with the lowest id among those that suit. */
  ghost predicate FirstSuiting<S>(l: Lobby<S>, s: S, attrs: Attrs, cap: int, topology: int, gid: int)
  {
    && gid in l.games && Suits(l.games[gid], s, attrs, cap, topology)
    && forall k | k in l.games && Suits(l.games[k], s, attrs, cap, topology) :: gid <= k
  }

  /** The queue without the session's own earlier request. */
  function Others<S(==)>(l: Lobby<S>, s: S): seq<Request<S>>
  {
    RemoveRequests(l.queue, s)
  }

  /** The oldest request of somebody else that is alike. */
  ghost predicate FirstAlike<S>(l: Lobby<S>, s: S, attrs: Attrs, cap: int, topology: int, i: nat)
  {
    && i < |Others(l, s)| && Alike(Others(l, s)[i], attrs, cap, topology)
    && forall k | 0 <= k < i :: !Alike(Others(l, s)[k], attrs, cap, topology)
  }

  /** Matchmaking puts a session into a registered game exactly if one suits its request, and then
      into the one with the lowest id. */
  lemma JoinsExactlySuiting<S>(l: Lobby<S>, s: S, attrs: Attrs, cap: int, topology: int, now: int, gid: int)
    requires Asks(l, s, now) && gid in l.games
    ensures s in l.seats
    ensures var l' := QueueMatch(l, s, attrs, cap, topology, now);
            gid in l'.games && (s in l'.games[gid].members <==> FirstSuiting(l, s, attrs, cap, topology, gid))
  {
    hide Inv, QueueMatch, Suits, CompatibleGame, CompatibleMatch, RemoveRequests, OpenSlot, Pid;
    var r := Asked(l, s, attrs, cap, topology);
    NobodysMember(l, s, gid);
    forall k | k in l.games
      ensures Suits(l.games[k], s, attrs, cap, topology) <==> Compatible(l, r, k)
    {
      SuitsIsCompatible(l.games[k], r);
    }
    var fits := set k | k in l.games && Compatible(l, r, k);
    if fits != {} {
      var first := Least(fits);
      forall k | k in l.games && Compatible(l, r, k)
        ensures first <= k
      {
        assert k in fits;
      }
      MatchJoins(l, s, attrs, cap, topology, now, first);
    } else {
      assert forall k | k in l.games :: !Compatible(l, r, k) by {
        forall k | k in l.games
          ensures !Compatible(l, r, k)
        {
          assert k in fits <==> Compatible(l, r, k);
        }
      }
      MatchElsewhere(l, s, attrs, cap, topology, now);
    }
  }

  /** The session is now the last member of the game, in the least slot nobody had, within its
      capacity; no other game, nobody else's seat and no other request has changed. */
  ghost predicate TakenIn<S>(l: Lobby<S>, l': Lobby<S>, s: S, p: int, gid: int)
    requires gid in l.games && s in l.seats
  {
    && gid in l'.games && l'.games == l.games[gid := l'.games[gid]]
    && var g, g' := l.games[gid], l'.games[gid];
    && g'.members == g.members + [s] && |g'.members| <= g'.capacity
    && p !in g.slots && p in g'.slots && g'.slots == g.slots[p := g'.slots[p]]
    && g'.slots[p] >= 0 && g'.slots[p] !in g.slots.Values && (forall k | 0 <= k < g'.slots[p] :: k in g.slots.Values)
    && l'.seats == l.seats[s := Seat(gid, gid, 0)] && l'.queue == Others(l, s)
  }

  /** And that is what joining it comes to. */
  lemma JoinsFirstSuiting<S>(l: Lobby<S>, s: S, attrs: Attrs, cap: int, topology: int, now: int, gid: int)
    requires Asks(l, s, now) && FirstSuiting(l, s, attrs, cap, topology, gid)
    ensures s in l.seats
    ensures TakenIn(l, QueueMatch(l, s, attrs, cap, topology, now), s, Pid(l.ids, s), gid)
  {
    hide Inv, QueueMatch, Suits, CompatibleGame, CompatibleMatch, RemoveRequests, Pid, OpenSlot, Unqueued, Grants;
    var r := Asked(l, s, attrs, cap, topology);
    forall k | k in l.games
      ensures Suits(l.games[k], s, attrs, cap, topology) <==> Compatible(l, r, k)
    {
      SuitsIsCompatible(l.games[k], r);
    }
    MatchJoins(l, s, attrs, cap, topology, now, gid);
    NobodysPersona(l, s, gid);
    OpenSlotIsLeast(l, gid);
    assert Others(l, s) == RemoveRequests(l.queue, s);
  }

  lemma OpenSlotIsLeast<S>(l: Lobby<S>, gid: int)
    requires gid in l.games
    ensures var slot, used := OpenSlot(l, gid), l.games[gid].slots.Values;
            slot >= 0 && slot !in used && forall k | 0 <= k < slot :: k in used
  {
  }

  lemma NobodysPersona<S>(l: Lobby<S>, s: S, gid: int)
    requires Inv(l) && LoggedIn(l, s) && l.seats[s].gameID == 0 && gid in l.games
    ensures Pid(l.ids, s) !in l.games[gid].slots
  {
    hide RegistryOk, GamesOk, SeatsOk, QueueOk, InboxesOk, Unqueued, Pids, GameOk;
    RestartFrees(l, s);
    DequeueGames(l, s);
    NotIn(Dequeue(l, s), s, gid);
  }

  lemma NobodysMember<S>(l: Lobby<S>, s: S, gid: int)
    requires Inv(l) && s in l.ids && l.seats[s].gameID == 0 && gid in l.games
    ensures s !in l.games[gid].members
  {
    hide RegistryOk, GamesOk, SeatsOk, QueueOk, InboxesOk;
    NoGameZero(l);
    NotSeated(l, s, gid);
  }

  /** If no registered game is compatible, none of them changes. */
  lemma MatchElsewhere<S>(l: Lobby<S>, s: S, attrs: Attrs, cap: int, topology: int, now: int)
    requires Asks(l, s, now) && forall k | k in l.games :: !Compatible(l, Asked(l, s, attrs, cap, topology), k)
    ensures s in l.seats
    ensures forall k | k in l.games ::
              k in QueueMatch(l, s, attrs, cap, topology, now).games && QueueMatch(l, s, attrs, cap, topology, now).games[k] == l.games[k]
  {
    hide Inv, QueueMatch, CompatibleGame, Compatible, CompatibleMatch, RemoveRequests, FirstMatch, Pid;
    var r := Asked(l, s, attrs, cap, topology);
    FirstMatchSpec(RemoveRequests(l.queue, s), r);
    OthersAreOthers(l, s);
    var i := FirstMatch(RemoveRequests(l.queue, s), r);
    assert Others(l, s) == RemoveRequests(l.queue, s);
    forall k | 0 <= k < |RemoveRequests(l.queue, s)|
      ensures RemoveRequests(l.queue, s)[k].session != r.session
    {
      assert Others(l, s)[k].session != s;
    }
    if i < |RemoveRequests(l.queue, s)| {
      MatchPairs(l, s, attrs, cap, topology, now, i);
    } else {
      MatchWaits(l, s, attrs, cap, topology, now);
    }
  }

  lemma OthersAreOthers<S>(l: Lobby<S>, s: S)
    ensures forall i | 0 <= i < |Others(l, s)| :: Others(l, s)[i].session != s
  {
    hide RemoveRequests;
    RemoveRequestsElements(l.queue, s);
    forall i | 0 <= i < |Others(l, s)|
      ensures Others(l, s)[i].session != s
    {
      assert Others(l, s)[i] in Others(l, s);
    }
  }

  lemma NoneCompatible<S>(l: Lobby<S>, s: S, attrs: Attrs, cap: int, topology: int)
    requires !SomeSuits(l, s, attrs, cap, topology)
    ensures forall k | k in l.games :: !Compatible(l, Asked(l, s, attrs, cap, topology), k)
  {
    hide Suits, CompatibleGame;
    forall k | k in l.games
      ensures !Compatible(l, Asked(l, s, attrs, cap, topology), k)
    {
      SuitsIsCompatible(l.games[k], Asked(l, s, attrs, cap, topology));
    }
  }

  /** Where nothing suits, the oldest alike request is paired: its owner hosts a new game, made to its
      request, and both are seated there. */
  lemma PairsOldestAlike<S>(l: Lobby<S>, s: S, attrs: Attrs, cap: int, topology: int, now: int, i: nat)
    requires Asks(l, s, now) && !SomeSuits(l, s, attrs, cap, topology) && FirstAlike(l, s, attrs, cap, topology, i)
    ensures s in l.seats
    ensures var l' := QueueMatch(l, s, attrs, cap, topology, now);
            var r := Others(l, s)[i];
            var gid := l.nextGame;
            && r.session != s && gid !in l.games && gid in l'.games && l'.games == l.games[gid := l'.games[gid]]
            && l'.games[gid].host == r.session && l'.games[gid].members == [r.session, s]
            && l'.games[gid].attrs == r.attrs && l'.games[gid].capacity == r.cap && l'.games[gid].topology == r.topology
            && l'.seats == l.seats[r.session := Seat(gid, gid, 0)][s := Seat(gid, gid, 0)]
            && l'.queue == Others(l, s)[..i] + Others(l, s)[i + 1..]
  {
    hide Inv, QueueMatch, Suits, Agree, CompatibleGame, CompatibleMatch, RemoveRequests, Pid;
    var r := Asked(l, s, attrs, cap, topology);
    NoneCompatible(l, s, attrs, cap, topology);
    forall k | 0 <= k < |Others(l, s)|
      ensures Alike(Others(l, s)[k], attrs, cap, topology) <==> CompatibleMatch(Others(l, s)[k], r)
    {
      AlikeIsCompatible(Others(l, s)[k], r);
    }
    assert Others(l, s) == RemoveRequests(l.queue, s);
    MatchPairs(l, s, attrs, cap, topology, now, i);
  }

  /** Where neither a game suits nor a request is alike, the request is queued last. */
  lemma WaitsOtherwise<S>(l: Lobby<S>, s: S, attrs: Attrs, cap: int, topology: int, now: int)
    requires Asks(l, s, now) && !SomeSuits(l, s, attrs, cap, topology)
    requires forall k | 0 <= k < |Others(l, s)| :: !Alike(Others(l, s)[k], attrs, cap, topology)
    ensures s in l.seats
    ensures var l' := QueueMatch(l, s, attrs, cap, topology, now);
            && l'.games == l.games && l'.inbox == l.inbox && l'.seats == l.seats[s := Seat(0, 0, l.nextMatch)]
            && l'.queue == Others(l, s) + [Request(s, attrs, cap, topology, l.nextMatch)]
  {
    hide Inv, QueueMatch, Suits, Agree, CompatibleGame, CompatibleMatch, RemoveRequests;
    var r := Asked(l, s, attrs, cap, topology);
    NoneCompatible(l, s, attrs, cap, topology);
    forall k | 0 <= k < |Others(l, s)|
      ensures !CompatibleMatch(Others(l, s)[k], r)
    {
      AlikeIsCompatible(Others(l, s)[k], r);
    }
    assert Others(l, s) == RemoveRequests(l.queue, s);
    forall k | 0 <= k < |RemoveRequests(l.queue, s)|
      ensures !CompatibleMatch(RemoveRequests(l.queue, s)[k], r)
    {
      assert !CompatibleMatch(Others(l, s)[k], r);
    }
    MatchWaits(l, s, attrs, cap, topology, now);
  }

  // ---- finalisation --------------------------------------------------------------------------

  /** finalizeGameCreation ends the session's pending admission without a completion and tells it,
      and only it, the platform host of the game named, else pending, else current; with none of
      these it does nothing. */
  lemma FinalizeEffect<S>(l: Lobby<S>, s: S, gid: int)
    requires KeysOk(l) && s in l.ids
    ensures var l' := Finalize(l, s, gid);
            var seat := l.seats[s];
            if gid == 0 && seat.pending == 0 && seat.gameID == 0 then l' == l
            else
              && l' == l.(seats := l'.seats, inbox := l'.inbox)
              && l'.seats == l.seats[s := Seat(seat.gameID, 0, seat.queuedMatch)]
              && l'.inbox.Keys == l.inbox.Keys && (forall x | x in l.inbox && x != s :: l'.inbox[x] == l.inbox[x])
              && (gid != 0 ==> l'.inbox[s] == l.inbox[s] + [PlatformHost(gid)])
              && (gid == 0 && seat.pending != 0 ==> l'.inbox[s] == l.inbox[s] + [PlatformHost(seat.pending)])
              && (gid == 0 && seat.pending == 0 ==> l'.inbox[s] == l.inbox[s] + [PlatformHost(seat.gameID)])
  {
    NoMoreMail(l.inbox, s);
  }

  lemma NoMoreMail<S>(inbox: map<S, seq<Note>>, s: S)
    ensures forall x | x in inbox :: inbox[x] + [] == inbox[x]
  {
  }

  /** So a session that finalizes is not completed until a later matchmaking step admits it anew. */
  lemma FinalizedAdmissionsDoNotComplete<S>(trace: seq<Lobby<S>>, events: seq<Event<S>>, m: S, game: int, gid: int, p: int, i: nat, j: nat)
    requires IsRun(trace, events) && i < j < |events|
    requires events[i] == EFinalize(m, game) && Finishes(trace[j], trace[j + 1], gid, m, p)
    ensures exists k | i < k < j :: Admits(trace, events, k, m, gid)
  {
    RunsKeepInv(trace, events, i);
    RunsKeepInv(trace, events, j);
    RunsKeepInv(trace, events, j + 1);
    hide Inv, Enabled;
    FinalizedAwaitsNot(trace[i], events[i], m, game);
    hide Next;
    FinishedAwaitsNot(trace[j], trace[j + 1], gid, m, m, p);
    NextKeepsPersona(trace[j], events[j], gid, m, p);
    assert !Awaits(trace[i + 1], m, p, gid);
    AdmissionBetween(trace, events, gid, m, p, i + 1, j);
  }

  lemma FinalizedAwaitsNot<S>(l: Lobby<S>, e: Event<S>, m: S, game: int)
    requires Inv(l) && Enabled(l, e) && e == EFinalize(m, game)
    ensures var l' := Next(l, e); m in l'.seats && l'.seats[m].pending == 0
  {
    hide RegistryOk, GamesOk, SeatsOk, QueueOk, InboxesOk;
    hide Connect, Login, QueueMatch, Cancel, ResetDedicated, Finalize, SetCapacity, SetGameAttrs, SetPlayerAttrs, RemovePlayer, UpdateMesh, Disconnect;
    FinalizeEffect(l, m, game);
  }

  // ---- hosting -------------------------------------------------------------------------------

  /** A session in no game that asks to host gets a new game of its own, as it described it, in slot
      0, leaves the queue, and is told of the game; a session in a game gets nothing. */
  lemma HostingEffect<S>(l: Lobby<S>, s: S, attrs: Attrs, cap: int, topology: int, now: int)
    requires Inv(l) && LoggedIn(l, s) && now > 0
    ensures s in l.seats
    ensures var l' := ResetDedicated(l, s, attrs, cap, topology, now);
            if l.seats[s].gameID != 0 then l' == l
            else
              var gid := l.nextGame;
              && gid !in l.games && gid in l'.games && l'.games == l.games[gid := l'.games[gid]]
              && l'.games[gid].id == gid && l'.games[gid].host == s && l'.games[gid].members == [s]
              && l'.games[gid].attrs == attrs && l'.games[gid].capacity == cap && l'.games[gid].topology == topology
              && l'.games[gid].slots == map[Pid(l.ids, s) := 0]
              && l'.seats == l.seats[s := Seat(gid, 0, 0)] && l'.queue == Others(l, s)
              && (forall x | x in l.inbox && x != s :: x in l'.inbox && l'.inbox[x] == l.inbox[x])
              && s in l'.inbox && l'.inbox[s] == l.inbox[s] + [GameSetup(gid, Pid(l.ids, s), [(Pid(l.ids, s), 0)])]
  {
    hide RegistryOk, GamesOk, SeatsOk, QueueOk, InboxesOk, Host, Restart, Playing, Dequeue, RemoveRequests, Pid, Unqueued;
    PlayingExact(l, s);
    if l.seats[s].gameID == 0 {
      RestartFrees(l, s);
      DequeueKeeps(l, s);
      var l1 := Dequeue(l, s);
      DequeuedParts(l, s);
      HostedParts(l1, s, attrs, cap, topology, now);
    }
  }

  lemma DequeuedParts<S>(l: Lobby<S>, s: S)
    requires Inv(l) && LoggedIn(l, s) && l.seats[s].gameID == 0
    ensures var l1 := Dequeue(l, s);
            && l1 == l.(queue := Others(l, s), seats := l.seats[s := IDLE])
            && l1.nextGame !in l.games
  {
    hide RegistryOk, GamesOk, QueueOk, InboxesOk, RemoveRequests;
    NoSuchGame(l);
    assert SeatOk(l, s);
  }

  lemma HostedParts<S>(l: Lobby<S>, s: S, attrs: Attrs, cap: int, topology: int, now: int)
    requires Inv(l) && Free(l, s) && now > 0
    ensures var l' := Host(l, s, attrs, cap, topology, now);
            var gid := l.nextGame;
            && gid in l'.games && l'.games == l.games[gid := l'.games[gid]]
            && l'.games[gid].id == gid && l'.games[gid].host == s && l'.games[gid].members == [s]
            && l'.games[gid].attrs == attrs && l'.games[gid].capacity == cap && l'.games[gid].topology == topology
            && l'.games[gid].slots == map[Pid(l.ids, s) := 0]
            && l'.seats == l.seats[s := Seat(gid, 0, 0)] && l'.queue == l.queue
            && (forall x | x in l.inbox && x != s :: x in l'.inbox && l'.inbox[x] == l.inbox[x])
            && s in l'.inbox && l'.inbox[s] == l.inbox[s] + [GameSetup(gid, Pid(l.ids, s), [(Pid(l.ids, s), 0)])]
  {
    hide RegistryOk, GamesOk, SeatsOk, QueueOk, InboxesOk, NewGame, GameOk, Unqueued, Roster;
    PositivePid(l, s);
    NewGameOne(l.ids, l.nextGame, s, attrs, cap, topology, now);
    var g := NewGame(l.ids, l.nextGame, s, [s], attrs, cap, topology, now);
    LoneRoster(g, l.ids, s);
    NoMoreMail(l.inbox, s);
  }

  lemma LoneRoster<S>(g: Game<S>, ids: map<S, Identity>, s: S)
    requires g.members == [s] && g.slots == map[Pid(ids, s) := 0]
    ensures Roster(g, ids) == [(Pid(ids, s), 0)]
  {
  }

  // ---- settings ------------------------------------------------------------------------------

  /** Everyone in the game, or the sender if the game is unknown, gets the note, and nobody else
      anything. */
  ghost predicate Heard<S>(l: Lobby<S>, l': Lobby<S>, sender: S, gid: int, note: Note)
  {
    && l'.inbox.Keys == l.inbox.Keys
    && forall x | x in l.inbox ::
         l'.inbox[x] == l.inbox[x] + if (if gid in l.games then x in l.games[gid].members else x == sender) then [note] else []
  }

  lemma BroadcastHeard<S>(l: Lobby<S>, l': Lobby<S>, sender: S, gid: int, note: Note)
    requires Inv(l) && l'.inbox == Post(l.inbox, Broadcast(l, sender, gid, note))
    ensures Heard(l, l', sender, gid, note)
  {
    hide Inv;
    if gid in l.games {
      HasMembers(l, gid);
    }
    NoMoreMail(l.inbox, sender);
    var mail := Broadcast(l, sender, gid, note);
    forall x | x in l.inbox
      ensures x in mail <==> if gid in l.games then x in l.games[gid].members else x == sender
      ensures x in mail ==> mail[x] == [note]
    {
    }
    hide Broadcast;
  }

  lemma HasMembers<S>(l: Lobby<S>, gid: int)
    requires Inv(l) && gid in l.games
    ensures l.games[gid].members != []
  {
    hide RegistryOk, GamesOk, SeatsOk, QueueOk, InboxesOk, RosterOk, ReadinessExact;
    SlotsAreTables(l, gid);
  }

  /** setPlayerCapacity sets a registered game's capacity and nothing else, and the game hears of it. */
  lemma SetCapacityEffect<S>(l: Lobby<S>, s: S, gid: int, caps: seq<int>)
    requires Inv(l)
    ensures var l' := SetCapacity(l, s, gid, caps);
            && l' == l.(games := l'.games, inbox := l'.inbox) && Heard(l, l', s, gid, GameCapacity(gid, caps))
            && l'.games == if gid in l.games && caps != [] then l.games[gid := l.games[gid].(capacity := caps[0])] else l.games
  {
    hide Inv, Broadcast, Post, Heard;
    BroadcastHeard(l, SetCapacity(l, s, gid, caps), s, gid, GameCapacity(gid, caps));
  }

  /** setGameAttributes replaces a registered game's attributes by those of the request, and the game
      hears of it. */
  lemma SetGameAttrsEffect<S>(l: Lobby<S>, s: S, gid: int, attrs: Attrs)
    requires Inv(l)
    ensures var l' := SetGameAttrs(l, s, gid, attrs);
            && l' == l.(games := l'.games, inbox := l'.inbox) && Heard(l, l', s, gid, GameAttributes(gid, attrs))
            && l'.games == if gid in l.games then l.games[gid := l.games[gid].(attrs := attrs)] else l.games
  {
    hide Inv, Broadcast, Post, Heard;
    BroadcastHeard(l, SetGameAttrs(l, s, gid, attrs), s, gid, GameAttributes(gid, attrs));
  }

  /** setPlayerAttributes by the player itself or the host: the request's attributes override or
      extend the player's, everything else stays, and the game hears of it. A request about an
      unknown game is echoed to the sender; any other is ignored. */
  lemma SetPlayerAttrsEffect<S>(l: Lobby<S>, s: S, gid: int, pid: int, attrs: Attrs, now: int)
    requires Inv(l) && LoggedIn(l, s)
    ensures var l' := SetPlayerAttrs(l, s, gid, pid, attrs, now);
            var note := PlayerAttributes(gid, pid, attrs);
            if gid !in l.games then l' == l.(inbox := l'.inbox) && Heard(l, l', s, gid, note)
            else if s in l.games[gid].members && pid in Pids(l.ids, l.games[gid].members)
                    && (Pid(l.ids, s) == pid || s == l.games[gid].host) then
              var g, g' := l.games[gid], l'.games[gid];
              && gid in l'.games && l' == l.(games := l.games[gid := g'], inbox := l'.inbox) && Heard(l, l', s, gid, note)
              && pid in g.playerAttrs && pid in g'.playerAttrs && g' == g.(playerAttrs := g.playerAttrs[pid := g'.playerAttrs[pid]])
              && g'.playerAttrs[pid].Keys == g.playerAttrs[pid].Keys + attrs.Keys
              && (forall k | k in g'.playerAttrs[pid] :: g'.playerAttrs[pid][k] == if k in attrs then attrs[k] else g.playerAttrs[pid][k])
            else l' == l
  {
    hide Inv, LoggedIn, AllowedTarget, Broadcast, Post, EnsureMembership, GameOk, Heard, Pids, Pid, SetPlayerAttrs;
    if gid !in l.games {
      UnknownGameAttrs(l, s, gid, pid, attrs, now);
    } else {
      AllowedTargetExact(l, s, gid, pid);
      if AllowedTarget(l, s, gid, pid).Some? {
        var t := AllowedTarget(l, s, gid, pid).value;
        SamePlayer(l, gid, s, t);
        PlayerAttrsGame(l, s, gid, pid, attrs, now);
        BroadcastHeard(l, SetPlayerAttrs(l, s, gid, pid, attrs, now), s, gid, PlayerAttributes(gid, pid, attrs));
        HasAttrs(l, gid, t);
        PidIn(l.ids, l.games[gid].members, t);
      } else {
        IgnoredAttrs(l, s, gid, pid, attrs, now);
      }
    }
  }

  lemma UnknownGameAttrs<S>(l: Lobby<S>, s: S, gid: int, pid: int, attrs: Attrs, now: int)
    requires Inv(l) && gid !in l.games
    ensures var l' := SetPlayerAttrs(l, s, gid, pid, attrs, now);
            l' == l.(inbox := l'.inbox) && Heard(l, l', s, gid, PlayerAttributes(gid, pid, attrs))
  {
    hide Inv, Broadcast, Post, Heard;
    BroadcastHeard(l, SetPlayerAttrs(l, s, gid, pid, attrs, now), s, gid, PlayerAttributes(gid, pid, attrs));
  }

  lemma IgnoredAttrs<S>(l: Lobby<S>, s: S, gid: int, pid: int, attrs: Attrs, now: int)
    requires gid in l.games && AllowedTarget(l, s, gid, pid).None?
    ensures SetPlayerAttrs(l, s, gid, pid, attrs, now) == l
  {
    hide AllowedTarget, Broadcast, Post;
  }

  lemma SamePlayer<S>(l: Lobby<S>, gid: int, s: S, t: S)
    requires Inv(l) && gid in l.games && s in l.games[gid].members && t in l.games[gid].members
    ensures Pid(l.ids, s) == Pid(l.ids, t) <==> s == t
  {
    hide Inv, Pid;
    MembersDiffer(l, gid, s, t);
  }

  lemma HasAttrs<S>(l: Lobby<S>, gid: int, t: S)
    requires Inv(l) && gid in l.games && t in l.games[gid].members
    ensures Pid(l.ids, t) in l.games[gid].playerAttrs
  {
    hide RegistryOk, SeatsOk, QueueOk, InboxesOk, Pids;
    SlotsAreTables(l, gid);
    PidIn(l.ids, l.games[gid].members, t);
  }
}
