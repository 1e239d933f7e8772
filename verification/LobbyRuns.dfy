/** Runs of the lobby, and what holds in every state and over every step of one. */
module LobbyRuns {
  import IntSets
  import opened LobbyModel
  import opened LobbyClient
  import opened LobbyInvariant
  import opened LobbyGames
  import opened LobbyInboxes
  import opened LobbyFrames
  import opened LobbyQueueSteps
  import opened LobbyJoinSteps
  import opened LobbyOpenSteps
  import opened LobbyLeaveSteps
  import opened LobbyRoomSteps
  import opened LobbySessionSteps
  import opened LobbyHistory
  import opened LobbyOutcomes

  // ---- the invariant -----------------------------------------------------------------------

  lemma StartsWell<S>()
    ensures Inv(New<S>())
  {
  }

  lemma NextKeeps<S>(l: Lobby<S>, e: Event<S>)
    requires Inv(l) && Enabled(l, e)
    ensures Inv(Next(l, e))
  {
    hide RegistryOk, GamesOk, SeatsOk, QueueOk, InboxesOk;
    hide Connect, Login, QueueMatch, Cancel, ResetDedicated, Finalize, SetCapacity, SetGameAttrs, SetPlayerAttrs, RemovePlayer, UpdateMesh, Disconnect;
    match e
    case EConnect(s) => ConnectKeeps(l, s);
    case ELogin(s, requested, name) => LoginKeeps(l, s, requested, name);
    case EQueueMatch(s, attrs, cap, topology, now) => QueueMatchKeeps(l, s, attrs, cap, topology, now);
    case ECancel(s, msid) => CancelKeeps(l, s, msid);
    case EResetDedicated(s, attrs, cap, topology, now) => ResetDedicatedKeeps(l, s, attrs, cap, topology, now);
    case EFinalize(s, gid) => FinalizeKeeps(l, s, gid);
    case ESetCapacity(s, gid, caps) => SetCapacityKeeps(l, s, gid, caps);
    case ESetGameAttrs(s, gid, attrs) => SetGameAttrsKeeps(l, s, gid, attrs);
    case ESetPlayerAttrs(s, gid, pid, attrs, now) => SetPlayerAttrsKeeps(l, s, gid, pid, attrs, now);
    case ERemovePlayer(s, gid, pid) => RemovePlayerKeeps(l, s, gid, pid);
    case EUpdateMesh(s, gid, targets, now) => UpdateMeshKeeps(l, s, gid, targets, now);
    case EDisconnect(s) => DisconnectKeeps(l, s);
  }

  /** The states of a server that starts empty and takes one enabled event after another. */
  ghost predicate IsRun<S>(trace: seq<Lobby<S>>, events: seq<Event<S>>)
  {
    && |trace| == |events| + 1 && trace[0] == New<S>()
    && forall i | 0 <= i < |events| ::
         trace[i].seats.Keys == trace[i].ids.Keys && Enabled(trace[i], events[i]) && trace[i + 1] == Next(trace[i], events[i])
  }

  lemma {:induction false} RunsKeepInv<S>(trace: seq<Lobby<S>>, events: seq<Event<S>>, i: nat)
    requires IsRun(trace, events) && i < |trace|
    ensures Inv(trace[i])
    decreases i
  {
    hide Inv, Next, Enabled;
    if i == 0 {
      StartsWell<S>();
    } else {
      RunsKeepInv(trace, events, i - 1);
      NextKeeps(trace[i - 1], events[i - 1]);
    }
  }

  // ---- replicas ----------------------------------------------------------------------------

  /** Replica agreement: whatever happened, folding everything a member was ever sent gives its
      game's persona-to-slot table, and everyone else believes itself in no game. Nothing in the
      conversation was a message the client could not take. */
  lemma ReplicasAgree<S>(trace: seq<Lobby<S>>, events: seq<Event<S>>, i: nat, s: S)
    requires IsRun(trace, events) && i < |trace| && s in trace[i].ids
    ensures var l := trace[i];
            s in l.inbox && s in l.seats
            && var v := After(Pid(l.ids, s), START, l.inbox[s]);
            && Legal(Pid(l.ids, s), START, l.inbox[s])
            && (forall gid | gid in l.games && s in l.games[gid].members :: v.gid == gid && v.roster == l.games[gid].slots)
            && ((forall gid | gid in l.games :: s !in l.games[gid].members) ==> v.gid == 0)
  {
    RunsKeepInv(trace, events, i);
    var l := trace[i];
    hide IsRun, RegistryOk, GamesOk, SeatsOk, QueueOk, InboxesOk, GameOk, Legal, After;
    InvInbox(l, s);
    forall gid | gid in l.games && s in l.games[gid].members
      ensures l.seats[s].gameID == gid
    {
      MemberSeat(l, gid, s);
    }
    if l.seats[s].gameID != 0 {
      SeatedIn(l, s);
    }
  }

  lemma InvInbox<S>(l: Lobby<S>, s: S)
    requires Inv(l) && s in l.ids
    ensures InboxOk(l, s)
  {
    hide RegistryOk, GamesOk, SeatsOk, QueueOk, InboxOk;
  }

  // ---- the session state machine -----------------------------------------------------------

  ghost predicate InNoGame<S>(l: Lobby<S>, s: S)
  {
    forall gid | gid in l.games :: s !in l.games[gid].members
  }

  ghost predicate IsIdle<S>(l: Lobby<S>, s: S)
    requires s in l.seats
  {
    l.seats[s] == IDLE && Unqueued(l, s) && InNoGame(l, s)
  }

  ghost predicate IsQueuedAt<S>(l: Lobby<S>, s: S, i: nat)
    requires s in l.seats
  {
    && i < |l.queue| && l.queue[i].session == s && (forall k | 0 <= k < |l.queue| && k != i :: l.queue[k].session != s)
    && l.seats[s] == Seat(0, 0, l.queue[i].msid) && l.queue[i].msid > 0
    && InNoGame(l, s)
  }

  ghost predicate IsPlaying<S>(l: Lobby<S>, s: S)
    requires s in l.seats
  {
    var seat := l.seats[s];
    && seat.gameID != 0 && seat.queuedMatch == 0 && (seat.pending == 0 || seat.pending == seat.gameID)
    && seat.gameID in l.games
    && (forall gid | gid in l.games :: s in l.games[gid].members <==> gid == seat.gameID)
    && Unqueued(l, s)
  }

  /** A connection is idle, queued exactly once, or in exactly one registered game. */
  lemma OneStateEach<S>(trace: seq<Lobby<S>>, events: seq<Event<S>>, i: nat, s: S)
    requires IsRun(trace, events) && i < |trace| && s in trace[i].ids
    ensures s in trace[i].seats
    ensures IsIdle(trace[i], s) || (exists k: nat :: k < |trace[i].queue| && IsQueuedAt(trace[i], s, k)) || IsPlaying(trace[i], s)
  {
    RunsKeepInv(trace, events, i);
    hide IsRun, Inv;
    StateOf(trace[i], s);
  }

  lemma StateOf<S>(l: Lobby<S>, s: S)
    requires Inv(l) && s in l.ids
    ensures s in l.seats
    ensures IsIdle(l, s) || (exists k: nat :: k < |l.queue| && IsQueuedAt(l, s, k)) || IsPlaying(l, s)
  {
    hide RegistryOk, GamesOk, InboxesOk, GameOk, CompatibleMatch;
    assert SeatOk(l, s);
    NoGameZero(l);
    if l.seats[s].queuedMatch != 0 {
      var k := RequestOf(l, s);
      assert IsQueuedAt(l, s, k);
    }
  }

  // ---- games -------------------------------------------------------------------------------

  /** In every state the per-player tables of a game have exactly its members' personas as keys,
      the mesh stays inside the roster, the host comes first and holds slot 0, and the readiness
      cache is exact for the players in it. Publishing a setup changes neither slots nor states. */
  lemma GamesAreConsistent<S>(trace: seq<Lobby<S>>, events: seq<Event<S>>, i: nat, gid: int, now: int)
    requires IsRun(trace, events) && i < |trace| && gid in trace[i].games
    ensures var l := trace[i];
            var g := l.games[gid];
            && g.id == gid && MembersDistinct(l.ids, g.members) && TablesMatch(g, l.ids) && MeshInside(g)
            && HostFirst(g, l.ids) && ReadinessExact(g)
            && EnsureMembership(g, l.ids, now) == g
  {
    RunsKeepInv(trace, events, i);
    hide IsRun;
    InvGames(trace[i], gid);
    GameConsistent(trace[i].games[gid], trace[i].ids, now);
  }

  lemma GameConsistent<S>(g: Game<S>, ids: map<S, Identity>, now: int)
    requires GameOk(g, ids)
    ensures MembersDistinct(ids, g.members) && TablesMatch(g, ids) && MeshInside(g) && HostFirst(g, ids) && ReadinessExact(g)
    ensures EnsureMembership(g, ids, now) == g
  {
    EnsureIsIdle(g, ids, now, 0);
  }

  /** The readiness cache covers the whole roster again after a report that set an edge, and after
      a departure the game survives. */
  lemma ReportRefreshes<S>(l: Lobby<S>, s: S, gid: int, targets: seq<Target>, now: int)
    requires Inv(l) && gid in l.games && s in l.games[gid].members
    ensures var l' := UpdateMesh(l, s, gid, targets, now);
            && gid in l'.games
            && (MeshReport(l.games[gid], l.ids, s, targets).1 ==>
                  l'.games[gid].meshReady.Keys == Pids(l.ids, l'.games[gid].members) && ReadinessExact(l'.games[gid]))
  {
    hide RegistryOk, GamesOk, SeatsOk, QueueOk, InboxesOk, GameOk, UpdateMesh, MeshReport, Pids, Pid, ReadinessExact;
    var g := l.games[gid];
    ReportedGames(l, s, gid, targets, now);
    SlotsAreTables(l, gid);
    MeshReportKeeps(g, l.ids, s, targets);
    ExactOf(MeshReport(g, l.ids, s, targets).0, l.ids);
  }

  lemma ReportedGames<S>(l: Lobby<S>, s: S, gid: int, targets: seq<Target>, now: int)
    requires Inv(l) && gid in l.games && s in l.games[gid].members
    ensures UpdateMesh(l, s, gid, targets, now).games == l.games[gid := MeshReport(l.games[gid], l.ids, s, targets).0]
  {
    hide RegistryOk, GamesOk, SeatsOk, QueueOk, InboxesOk, GameOk, Complete, MeshReport, EnsureMembership, MemberFor, Pid, Pids;
    var g := l.games[gid];
    SlotsAreTables(l, gid);
    Distinct(g, l.ids);
    MemberForExact(l.ids, g.members, Pid(l.ids, s));
    Idle(g, l.ids, now);
    CompleteGames(l.(games := l.games[gid := MeshReport(g, l.ids, s, targets).0]), gid);
  }

  lemma CompleteGames<S>(l: Lobby<S>, gid: int)
    requires gid in l.games
    ensures Complete(l, gid).games == l.games
  {
  }

  lemma ExactOf<S>(g: Game<S>, ids: map<S, Identity>)
    requires GameOk(g, ids)
    ensures ReadinessExact(g)
  {
  }

  lemma DepartureRefreshes<S>(l: Lobby<S>, t: S, gid: int)
    requires LeaveReady(l, t, gid) && t != l.games[gid].host
    ensures var l' := Leave(l, t, gid);
            && gid in l'.games && l'.games[gid].members == Without(l.games[gid].members, t)
            && l'.games[gid].meshReady.Keys == Pids(l.ids, l'.games[gid].members) && ReadinessExact(l'.games[gid])
  {
    hide Inv, GameOk, Leave, Pid, Pids, Without, Refresh, RemoveMember, LeaveMail;
    LeaveShape(l, t, gid);
    InvGames(l, gid);
    RemoveKeeps(l.games[gid], l.ids, t);
    ExactOf(Refresh(RemoveMember(l.games[gid], l.ids, t), l.ids), l.ids);
  }

  // ---- every step ----------------------------------------------------------------------------

  /** Ids are not reused, accounts not forgotten, slots not changed under a staying member, and
      games not overfilled, by any step. */
  lemma NextEvolves<S>(l: Lobby<S>, e: Event<S>)
    requires Inv(l) && Enabled(l, e)
    ensures var l' := Next(l, e);
            && History(l, l') && GamesEvolve(Resized(l, e), l'.games)
            && (!e.EUpdateMesh? ==> Quiet(l.inbox, l'.inbox))
            && (!e.EQueueMatch? ==> NoAdmission(l.seats, l'.seats))
  {
    hide RegistryOk, GamesOk, SeatsOk, QueueOk, InboxesOk, History, GamesEvolve, Quiet, NoAdmission;
    hide Connect, Login, QueueMatch, Cancel, ResetDedicated, Finalize, SetCapacity, SetGameAttrs, SetPlayerAttrs, RemovePlayer, UpdateMesh, Disconnect;
    SameUsual(l, l.inbox);
    match e
    case EConnect(s) => ConnectUsual(l, s);
    case ELogin(s, requested, name) => LoginUsual(l, s, requested, name);
    case EQueueMatch(s, attrs, cap, topology, now) => QueueMatchUsual(l, s, attrs, cap, topology, now);
    case ECancel(s, msid) => CancelUsual(l, s, msid);
    case EResetDedicated(s, attrs, cap, topology, now) => ResetDedicatedUsual(l, s, attrs, cap, topology, now);
    case EFinalize(s, gid) => FinalizeUsual(l, s, gid);
    case ESetCapacity(s, gid, caps) => SetCapacityUsual(l, s, gid, caps);
    case ESetGameAttrs(s, gid, attrs) => SetGameAttrsUsual(l, s, gid, attrs);
    case ESetPlayerAttrs(s, gid, pid, attrs, now) => SetPlayerAttrsUsual(l, s, gid, pid, attrs, now);
    case ERemovePlayer(s, gid, pid) => RemovePlayerUsual(l, s, gid, pid);
    case EUpdateMesh(s, gid, targets, now) => UpdateMeshHistory(l, s, gid, targets, now);
    case EDisconnect(s) => DisconnectUsual(l, s);
  }

  /** Over any stretch of a run: an id once passed by its counter never comes back, and a known
      user keeps its account and persona. */
  lemma {:induction false} RunHistory<S>(trace: seq<Lobby<S>>, events: seq<Event<S>>, i: nat, j: nat)
    requires IsRun(trace, events) && i <= j < |trace|
    ensures History(trace[i], trace[j])
    decreases j
  {
    hide Inv, History, GamesEvolve, Quiet, NoAdmission, Next, Enabled;
    if i == j {
      HistoryReflexive(trace[i]);
    } else {
      RunHistory(trace, events, i, j - 1);
      RunsKeepInv(trace, events, j - 1);
      NextEvolves(trace[j - 1], events[j - 1]);
      HistoryTransitive(trace[i], trace[j - 1], trace[j]);
    }
  }

  lemma HistoryReflexive<S>(l: Lobby<S>)
    ensures History(l, l)
  {
  }

  /** Session, game and match ids that are out of use stay out of use for the rest of the run. */
  lemma IdsNeverReused<S>(trace: seq<Lobby<S>>, events: seq<Event<S>>, i: nat, j: nat, id: int)
    requires IsRun(trace, events) && i <= j < |trace|
    ensures id < trace[i].nextSession && id !in trace[i].sessions ==> id !in trace[j].sessions
    ensures id < trace[i].nextGame && id !in trace[i].games ==> id !in trace[j].games
    ensures id < trace[i].nextMatch && (forall r | r in trace[i].queue :: r.msid != id) ==> forall r | r in trace[j].queue :: r.msid != id
  {
    RunHistory(trace, events, i, j);
    hide IsRun;
  }

  /** sessions and activePersonas agree with the connections and are injective, every persona ever
      known is below the allocator, so the allocator's first candidate is always fresh. */
  lemma RegistryIsExact<S>(trace: seq<Lobby<S>>, events: seq<Event<S>>, i: nat)
    requires IsRun(trace, events) && i < |trace|
    ensures var l := trace[i];
            && (forall k, s | k in l.sessions && s in l.ids :: l.sessions[k] == s <==> l.ids[s].sessionID == k)
            && (forall p, s | p in l.active && s in l.ids :: l.active[p] == s <==> l.ids[s].personaID == p)
            && (forall s | s in l.ids && l.ids[s].personaID != 0 :: l.ids[s].personaID in l.active && l.ids[s].sessionID in l.sessions)
            && (forall a, b | a in l.ids && b in l.ids && a != b && l.ids[a].personaID != 0 ::
                  l.ids[a].personaID != l.ids[b].personaID && l.ids[a].sessionID != l.ids[b].sessionID)
            && (forall p | p in l.users :: p < l.nextUser)
            && FreshPersona(l, l.nextUser) == l.nextUser
  {
    RunsKeepInv(trace, events, i);
    hide IsRun;
    NextUserIsFresh(trace[i]);
    RegistryFacts(trace[i]);
  }

  lemma RegistryFacts<S>(l: Lobby<S>)
    requires RegistryOk(l)
    ensures forall k, s | k in l.sessions && s in l.ids :: l.sessions[k] == s <==> l.ids[s].sessionID == k
    ensures forall p, s | p in l.active && s in l.ids :: l.active[p] == s <==> l.ids[s].personaID == p
    ensures forall s | s in l.ids && l.ids[s].personaID != 0 :: l.ids[s].personaID in l.active && l.ids[s].sessionID in l.sessions
    ensures forall a, b | a in l.ids && b in l.ids && a != b && l.ids[a].personaID != 0 ::
              l.ids[a].personaID != l.ids[b].personaID && l.ids[a].sessionID != l.ids[b].sessionID
  {
    forall s | s in l.ids
      ensures IdentityOk(l, s)
    {
    }
  }

  /** Logging in again changes nothing; a first login takes the requested persona exactly when it
      is positive and nobody active holds it, and otherwise one no user ever had. */
  lemma LoginIdentity<S>(l: Lobby<S>, s: S, requested: int, name: string)
    requires Inv(l) && s in l.ids
    ensures var me := Login(l, s, requested, name).ids[s];
            if l.ids[s].personaID != 0 then me == l.ids[s]
            else
              && (me.personaID == requested <==> (requested > 0 && requested !in l.active) || requested == l.nextUser)
              && (me.personaID != requested ==> me.personaID !in l.users && me.personaID !in l.active)
              && (me.personaID in l.users ==> me.accountID == l.users[me.personaID].accountID)
              && me.sessionID !in l.sessions && me.sessionID == l.nextSession
  {
    hide GamesOk, SeatsOk, QueueOk, InboxesOk, Post, UserNotes, PersonaName;
    NextUserIsFresh(l);
    ActiveBelow(l);
  }

  lemma ActiveBelow<S>(l: Lobby<S>)
    requires RegistryOk(l)
    ensures forall p | p in l.active :: p < l.nextUser
    ensures forall k | k in l.sessions :: k < l.nextSession
  {
    forall p | p in l.active
      ensures p < l.nextUser
    {
      assert IdentityOk(l, l.active[p]);
    }
    forall k | k in l.sessions
      ensures k < l.nextSession
    {
      assert IdentityOk(l, l.sessions[k]);
    }
  }

  // ---- capacity ------------------------------------------------------------------------------

  /** The places of a game; one without capacity still has its creator. */
  function Room(capacity: int): int
  {
    if capacity >= 1 then capacity else 1
  }

  /** The roster fits the capacity and occupies its slots. */
  ghost predicate Fits<S>(g: Game<S>)
  {
    |g.members| <= Room(g.capacity) && forall p | p in g.slots :: 0 <= g.slots[p] < Room(g.capacity)
  }

  /** No slot in use would be at or above the capacity. */
  predicate SlotsBelow<S>(g: Game<S>, capacity: int)
  {
    forall p | p in g.slots :: g.slots[p] < Room(capacity)
  }

  ghost predicate AllFit<S>(l: Lobby<S>)
  {
    forall gid | gid in l.games :: Fits(l.games[gid])
  }

  /** The event, if it sets a capacity, leaves every slot in use below it. */
  predicate SafeCapacity<S>(l: Lobby<S>, e: Event<S>)
  {
    e.ESetCapacity? && e.gid in l.games && e.caps != [] ==> SlotsBelow(l.games[e.gid], e.caps[0])
  }

  /** The event does not lower a positive capacity. */
  predicate KeepsCapacity<S>(l: Lobby<S>, e: Event<S>)
  {
    e.ESetCapacity? && e.gid in l.games && e.caps != [] ==>
      l.games[e.gid].capacity >= 1 ==> e.caps[0] >= l.games[e.gid].capacity
  }

  lemma {:induction false} DifferentBelow(m: map<int, int>, n: nat)
    requires forall p | p in m :: 0 <= m[p] < n
    requires forall p, q | p in m && q in m && p != q :: m[p] != m[q]
    ensures |m.Keys| <= n
    decreases n
  {
    if m.Keys != {} {
      var any := IntSets.Pick(m.Keys);
      assert 0 <= m[any] < n;
      if n - 1 in m.Values {
        var k := IntSets.KeyOf(m, n - 1);
        var rest := m - {k};
        assert rest.Keys == m.Keys - {k};
        DifferentBelow(rest, n - 1);
      } else {
        forall p | p in m
          ensures m[p] < n - 1
        {
          assert m[p] in m.Values;
        }
        DifferentBelow(m, n - 1);
      }
    }
  }

  lemma {:induction false} PidsExact<S>(ids: map<S, Identity>, members: seq<S>)
    requires MembersDistinct(ids, members)
    ensures |Pids(ids, members)| == |members|
    decreases |members|
  {
    if members != [] {
      TailDistinct(ids, members);
      PidsExact(ids, members[1..]);
      hide MembersDistinct, Pid;
      if Pid(ids, members[0]) in Pids(ids, members[1..]) {
        PidWitness(ids, members[1..], Pid(ids, members[0]));
      }
    }
  }

  /** In a game in order the slots decide: different members have different ones. */
  lemma FitsBySlots<S>(g: Game<S>, ids: map<S, Identity>)
    requires GameOk(g, ids)
    ensures Fits(g) <==> SlotsBelow(g, g.capacity)
  {
    PidsExact(ids, g.members);
    hide Pids;
    if SlotsBelow(g, g.capacity) {
      DifferentBelow(g.slots, Room(g.capacity));
    }
  }

  /** A step leaves every game fitting exactly when it does not set a capacity at or below a slot in
      use: the caller can tell from the game before the call. */
  lemma FitsExactly<S>(l: Lobby<S>, e: Event<S>)
    requires Inv(l) && Enabled(l, e) && AllFit(l)
    ensures AllFit(Next(l, e)) <==> SafeCapacity(l, e)
  {
    hide RegistryOk, GamesOk, SeatsOk, QueueOk, InboxesOk, Enabled, Next, Fits, SlotsBelow, GameOk, SetCapacity;
    if e.ESetCapacity? && e.gid in l.games && e.caps != [] {
      var g := l.games[e.gid].(capacity := e.caps[0]);
      InvGames(l, e.gid);
      CapacityIsFree(l.games[e.gid], l.ids, e.caps[0]);
      FitsBySlots(g, l.ids);
      EnabledLoggedIn(l, e);
      NextIsSetCapacity(l, e.s, e.gid, e.caps);
      CapacityIsSet(l, e.s, e.gid, e.caps);
      SameSlots(l.games[e.gid], e.caps[0]);
      assert Next(l, e).games == l.games[e.gid := g];
      AllFitBut(l, Next(l, e), e.gid, g);
    } else {
      NextFits(l, e);
    }
  }

  lemma AllFitBut<S>(l: Lobby<S>, l': Lobby<S>, gid: int, g: Game<S>)
    requires AllFit(l) && l'.games == l.games[gid := g]
    ensures AllFit(l') <==> Fits(g)
  {
    hide Fits;
    assert l'.games[gid] == g;
  }

  lemma SameSlots<S>(g: Game<S>, capacity: int)
    ensures SlotsBelow(g.(capacity := capacity), capacity) == SlotsBelow(g, capacity)
  {
  }

  lemma EnabledLoggedIn<S>(l: Lobby<S>, e: Event<S>)
    requires Enabled(l, e) && e.ESetCapacity?
    ensures LoggedIn(l, e.s)
  {
  }

  lemma NextFits<S>(l: Lobby<S>, e: Event<S>)
    requires Inv(l) && Enabled(l, e) && AllFit(l) && Resized(l, e) == l.games
    ensures AllFit(Next(l, e))
  {
    hide RegistryOk, GamesOk, SeatsOk, QueueOk, InboxesOk, Enabled, History, Quiet, NoAdmission, Next, Evolves, Fits, OpensWell, Resized;
    NextEvolves(l, e);
    var l' := Next(l, e);
    forall gid | gid in l'.games
      ensures Fits(l'.games[gid])
    {
      if gid in l.games {
        EvolvesFits(l.games[gid], l'.games[gid]);
      } else {
        OpensFits(l'.games[gid]);
      }
    }
  }

  lemma EvolvesFits<S>(g: Game<S>, g': Game<S>)
    requires Fits(g) && Evolves(g, g')
    ensures Fits(g')
  {
  }

  lemma OpensFits<S>(g: Game<S>)
    requires OpensWell(g)
    ensures Fits(g)
  {
  }

  /** Over a run every roster fits its game all the time, slots included, exactly when every
      capacity that is set is above the slots in use. */
  lemma RunsFitExactly<S>(trace: seq<Lobby<S>>, events: seq<Event<S>>)
    requires IsRun(trace, events)
    ensures (forall i | 0 <= i < |trace| :: AllFit(trace[i])) <==> (forall k | 0 <= k < |events| :: SafeCapacity(trace[k], events[k]))
  {
    if forall i | 0 <= i < |trace| :: AllFit(trace[i]) {
      forall k | 0 <= k < |events|
        ensures SafeCapacity(trace[k], events[k])
      {
        RunsKeepInv(trace, events, k);
        hide Inv, AllFit, Next, Enabled, SafeCapacity;
        FitsExactly(trace[k], events[k]);
        assert AllFit(trace[k + 1]);
      }
    }
    if forall k | 0 <= k < |events| :: SafeCapacity(trace[k], events[k]) {
      forall i | 0 <= i < |trace|
        ensures AllFit(trace[i])
      {
        SafeRunsFit(trace, events, i);
      }
    }
  }

  lemma {:induction false} SafeRunsFit<S>(trace: seq<Lobby<S>>, events: seq<Event<S>>, i: nat)
    requires IsRun(trace, events) && i < |trace|
    requires forall k | 0 <= k < |events| :: SafeCapacity(trace[k], events[k])
    ensures AllFit(trace[i])
    decreases i
  {
    hide Inv, AllFit, Next, Enabled, SafeCapacity;
    if i > 0 {
      SafeRunsFit(trace, events, i - 1);
      RunsKeepInv(trace, events, i - 1);
      FitsExactly(trace[i - 1], events[i - 1]);
    } else {
      NothingFits<S>();
    }
  }

  /** In particular in a run that never lowers a positive capacity. */
  lemma {:induction false} RunsFit<S>(trace: seq<Lobby<S>>, events: seq<Event<S>>, i: nat)
    requires IsRun(trace, events) && i < |trace|
    requires forall k | 0 <= k < |events| :: KeepsCapacity(trace[k], events[k])
    ensures AllFit(trace[i])
    decreases i
  {
    hide Inv, AllFit, Next, Enabled, KeepsCapacity;
    if i > 0 {
      RunsFit(trace, events, i - 1);
      RunsKeepInv(trace, events, i - 1);
      KeptIsSafe(trace[i - 1], events[i - 1]);
      FitsExactly(trace[i - 1], events[i - 1]);
    } else {
      NothingFits<S>();
    }
  }

  lemma KeptIsSafe<S>(l: Lobby<S>, e: Event<S>)
    requires AllFit(l) && KeepsCapacity(l, e)
    ensures SafeCapacity(l, e)
  {
  }

  lemma NothingFits<S>()
    ensures AllFit(New<S>())
  {
  }

  lemma NextIsSetCapacity<S>(l: Lobby<S>, s: S, gid: int, caps: seq<int>)
    requires LoggedIn(l, s) && l.seats.Keys == l.ids.Keys
    ensures Next(l, ESetCapacity(s, gid, caps)) == SetCapacity(l, s, gid, caps)
  {
    hide SetCapacity, Connect, Login, QueueMatch, Cancel, ResetDedicated, Finalize, SetGameAttrs, SetPlayerAttrs, RemovePlayer, UpdateMesh, Disconnect;
  }

  lemma CapacityIsSet<S>(l: Lobby<S>, s: S, gid: int, caps: seq<int>)
    requires gid in l.games && caps != []
    ensures SetCapacity(l, s, gid, caps).games == l.games[gid := l.games[gid].(capacity := caps[0])]
  {
    hide Post, Broadcast;
  }

  // ---- completions ---------------------------------------------------------------------------

  /** Join completion safety: a completion anybody is sent in a step comes from a mesh report, and
      is of a member whose admission was pending, no longer is, and who is linked both ways with
      every other current member. */
  lemma CompletionsAreEarned<S>(l: Lobby<S>, e: Event<S>, x: S, k: nat)
    requires Inv(l) && Enabled(l, e)
    requires var l' := Next(l, e); x in l.inbox && x in l'.inbox && |l.inbox[x]| <= k < |l'.inbox[x]| && l'.inbox[x][k].PlayerJoined?
    ensures var l' := Next(l, e);
            && e.EUpdateMesh? && l'.inbox[x][k].gid == e.gid
            && exists m :: m in l.seats && Finishes(l, l', e.gid, m, l'.inbox[x][k].pid)
  {
    NextEvolves(l, e);
    if e.EUpdateMesh? {
      UpdateMeshCompletes(l, e.s, e.gid, e.targets, e.now);
    }
    hide Inv, Enabled, History, GamesEvolve, NoAdmission, Finishes, UpdateMesh;
    if !e.EUpdateMesh? {
      hide Next;
      QuietOf(l.inbox, Next(l, e).inbox, x, k);
    }
  }

  lemma QuietOf<S>(inbox: map<S, seq<Note>>, inbox': map<S, seq<Note>>, x: S, k: nat)
    requires Quiet(inbox, inbox') && x in inbox && x in inbox' && |inbox[x]| <= k < |inbox'[x]|
    ensures !inbox'[x][k].PlayerJoined?
  {
  }

  /** Something that opens a join in a client's view. */
  predicate Introduces(n: Note, p: int)
  {
    n.GameSetup? || (n.PlayerJoining? && n.pid == p)
  }

  /** In a conversation a client can take, two completions of one player are separated by that
      player's joining anew or by a setup that puts the client itself back in a lobby. */
  lemma {:induction false} OneCompletionEach(self: int, v: View, notes: seq<Note>, gid: int, p: int, i: nat, j: nat)
    requires Legal(self, v, notes) && i < j < |notes|
    requires notes[i] == PlayerJoined(gid, p) && notes[j] == PlayerJoined(gid, p)
    ensures exists k | i < k < j :: Introduces(notes[k], p)
    decreases |notes|
  {
    var v' := Apply(self, v, notes[0]);
    var rest := notes[1..];
    if i > 0 {
      OneCompletionEach(self, v', rest, gid, p, i - 1, j - 1);
      var k :| i - 1 < k < j - 1 && Introduces(rest[k], p);
      assert Introduces(notes[k + 1], p);
    } else {
      Reintroduced(self, v', rest, gid, p, j - 1);
      var k :| 0 <= k < j - 1 && Introduces(rest[k], p);
      assert Introduces(notes[k + 1], p);
    }
  }

  lemma {:induction false} Reintroduced(self: int, v: View, notes: seq<Note>, gid: int, p: int, j: nat)
    requires Legal(self, v, notes) && j < |notes| && notes[j] == PlayerJoined(gid, p) && p !in v.joining
    ensures exists k | 0 <= k < j :: Introduces(notes[k], p)
    decreases |notes|
  {
    if !Introduces(notes[0], p) {
      var rest := notes[1..];
      Reintroduced(self, Apply(self, v, notes[0]), rest, gid, p, j - 1);
      var k :| 0 <= k < j - 1 && Introduces(rest[k], p);
      assert Introduces(notes[k + 1], p);
    }
  }

  // ---- one completion an admission -----------------------------------------------------------

  /** Only connecting, logging in and disconnecting touch identities. */
  lemma SameIdentities<S>(l: Lobby<S>, e: Event<S>)
    requires Enabled(l, e) && l.seats.Keys == l.ids.Keys && !e.EConnect? && !e.ELogin? && !e.EDisconnect?
    ensures Next(l, e).ids == l.ids
  {
    hide PlaceRequest, Playing, Leave, Complete, MeshReport, EnsureMembership, AllowedTarget, Broadcast, Post, Host, RemoveRequests;
    hide CompatibleMatch, FinalizeTarget, MergeAttrs, MemberFor;
    match e
    case EQueueMatch(s, attrs, cap, topology, now) =>
      PlacedIdentities(Restart(l.(nextMatch := l.nextMatch + 1), s), Request(s, attrs, cap, topology, l.nextMatch), now);
    case EResetDedicated(s, attrs, cap, topology, now) => HostedIdentities(Restart(l, s), s, attrs, cap, topology, now);
    case ERemovePlayer(s, gid, pid) => RemovedIdentities(l, s, gid, pid);
    case EUpdateMesh(s, gid, targets, now) => ReportedIdentities(l, s, gid, targets, now);
    case _ =>
  }

  lemma PlacedIdentities<S>(l: Lobby<S>, r: Request<S>, now: int)
    requires r.session in l.seats
    ensures PlaceRequest(l, r, now).ids == l.ids
  {
    hide ScanGames, NewGame, SetupNote, Post, FirstMatch;
  }

  lemma HostedIdentities<S>(l: Lobby<S>, s: S, attrs: Attrs, cap: int, topology: int, now: int)
    requires s in l.seats
    ensures Host(l, s, attrs, cap, topology, now).ids == l.ids
  {
    hide NewGame, SetupNote, Post;
  }

  lemma RemovedIdentities<S>(l: Lobby<S>, s: S, gid: int, pid: int)
    ensures RemovePlayer(l, s, gid, pid).ids == l.ids
  {
    hide AllowedTarget, RemoveMember, Refresh, RemoveRequests, Post, RemovalMail;
  }

  lemma ReportedIdentities<S>(l: Lobby<S>, s: S, gid: int, targets: seq<Target>, now: int)
    ensures UpdateMesh(l, s, gid, targets, now).ids == l.ids
  {
    hide MeshReport, EnsureMembership, Complete, MemberFor, NoAdmission, Pid;
    if gid in l.games {
      CompletedShape(l.(games := l.games[gid := MeshReport(EnsureMembership(l.games[gid], l.ids, now), l.ids, s, targets).0]), gid);
    }
  }

  /** The session carries the persona, and its admission to the game is pending. */
  ghost predicate Awaits<S>(l: Lobby<S>, m: S, p: int, gid: int)
  {
    m in l.ids && m in l.seats && Pid(l.ids, m) == p && l.seats[m].pending == gid
  }

  /** A session comes to await its admission only by its matchmaking. */
  lemma AwaitsByMatching<S>(l: Lobby<S>, e: Event<S>, m: S, p: int, gid: int)
    requires Inv(l) && Enabled(l, e) && p != 0 && gid != 0
    requires !Awaits(l, m, p, gid) && Awaits(Next(l, e), m, p, gid)
    ensures e.EQueueMatch? && m in l.seats && l.seats[m].pending != gid
  {
    hide RegistryOk, GamesOk, SeatsOk, QueueOk, InboxesOk, History, GamesEvolve, Quiet;
    hide QueueMatch, Cancel, ResetDedicated, Finalize, SetCapacity, SetGameAttrs, SetPlayerAttrs, RemovePlayer, UpdateMesh;
    NextEvolves(l, e);
    if e.EConnect? {
      hide Login, Disconnect;
    } else if e.ELogin? {
      hide Connect, Disconnect;
      LoginAwaits(l, e.s, e.requested, e.name, m, p, gid);
    } else if e.EDisconnect? {
      hide Connect, Login, LeftoverGame;
      DisconnectIdentities(l, e.s);
      hide Disconnect;
    } else {
      hide Connect, Login, Disconnect;
      SameIdentities(l, e);
    }
  }

  lemma DisconnectIdentities<S>(l: Lobby<S>, s: S)
    requires Inv(l) && s in l.ids
    ensures Disconnect(l, s).ids == l.ids - {s}
  {
    hide Inv, Disconnect, RemoveRequests;
    DisconnectEffect(l, s);
  }

  /** Logging in changes only the newcomer's identity, and it awaits nothing. */
  lemma LoginAwaits<S>(l: Lobby<S>, s: S, requested: int, name: string, m: S, p: int, gid: int)
    requires Inv(l) && s in l.ids && p != 0 && gid != 0 && Awaits(Login(l, s, requested, name), m, p, gid)
    ensures Awaits(l, m, p, gid)
  {
    hide RegistryOk, GamesOk, SeatsOk, QueueOk, InboxesOk, FreshPersona, Post, UserNotes;
    if m == s && l.ids[s].personaID == 0 {
      NamelessAwaitsNothing(l, s);
    }
  }

  lemma NamelessAwaitsNothing<S>(l: Lobby<S>, s: S)
    requires KeysOk(l) && SeatsOk(l) && s in l.ids && l.ids[s].personaID == 0
    ensures l.seats[s] == IDLE
  {
    assert SeatOk(l, s);
  }

  lemma {:induction false} AdmissionBetween<S>(trace: seq<Lobby<S>>, events: seq<Event<S>>, gid: int, m: S, p: int, i: nat, j: nat)
    requires IsRun(trace, events) && i <= j < |trace| && p != 0 && gid != 0
    requires !Awaits(trace[i], m, p, gid) && Awaits(trace[j], m, p, gid)
    ensures exists k | i <= k < j :: Admits(trace, events, k, m, gid)
    decreases j
  {
    hide Inv, Next, Enabled, Awaits;
    RunsKeepInv(trace, events, j - 1);
    if Awaits(trace[j - 1], m, p, gid) {
      AdmissionBetween(trace, events, gid, m, p, i, j - 1);
      var k :| i <= k < j - 1 && Admits(trace, events, k, m, gid);
      assert i <= k < j && Admits(trace, events, k, m, gid);
    } else {
      AwaitsByMatching(trace[j - 1], events[j - 1], m, p, gid);
      AwaitsMeans(trace[j], m, p, gid);
      assert i <= j - 1 < j && Admits(trace, events, j - 1, m, gid);
    }
  }

  lemma AwaitsMeans<S>(l: Lobby<S>, m: S, p: int, gid: int)
    requires Awaits(l, m, p, gid)
    ensures m in l.seats && l.seats[m].pending == gid
  {
  }

  /** Step `k` is a matchmaking request that makes the session's admission to the game pending. */
  ghost predicate Admits<S>(trace: seq<Lobby<S>>, events: seq<Event<S>>, k: nat, m: S, gid: int)
  {
    && k < |events| && k + 1 < |trace| && events[k].EQueueMatch?
    && m in trace[k].seats && trace[k].seats[m].pending != gid
    && m in trace[k + 1].seats && trace[k + 1].seats[m].pending == gid
  }

  /** Each matchmaking admission completes at most once: two completions of a session for a game are
      separated by a matchmaking step that admits the session to the game anew. So are two
      completions of one persona, whatever sessions carry it. */
  lemma AdmissionsCompleteOnce<S>(trace: seq<Lobby<S>>, events: seq<Event<S>>, gid: int, m: S, m': S, p: int, i: nat, j: nat)
    requires IsRun(trace, events) && i < j < |events|
    requires Finishes(trace[i], trace[i + 1], gid, m, p) && Finishes(trace[j], trace[j + 1], gid, m', p)
    ensures exists k | i < k < j :: Admits(trace, events, k, m', gid)
  {
    RunsKeepInv(trace, events, i + 1);
    RunsKeepInv(trace, events, j);
    RunsKeepInv(trace, events, j + 1);
    hide Inv, Next, Enabled;
    FinishedAwaitsNot(trace[i], trace[i + 1], gid, m, m', p);
    NextKeepsPersona(trace[j], events[j], gid, m', p);
    AdmissionBetween(trace, events, gid, m', p, i + 1, j);
  }

  /** Step `i` sends `x` a completion, as entry `a` of its conversation. */
  ghost predicate Told<S>(trace: seq<Lobby<S>>, i: nat, x: S, a: nat, gid: int, p: int)
  {
    && i + 1 < |trace| && x in trace[i].inbox && x in trace[i + 1].inbox
    && |trace[i].inbox[x]| <= a < |trace[i + 1].inbox[x]| && trace[i + 1].inbox[x][a] == PlayerJoined(gid, p)
  }

  /** Whoever is told, and however often: two different completions of a persona for a game come
      from different steps, and between them the session that completes later was admitted by a
      matchmaking step of its own. */
  lemma CompletionsAreSingle<S>(trace: seq<Lobby<S>>, events: seq<Event<S>>, i: nat, x: S, a: nat, j: nat, y: S, b: nat, gid: int, p: int)
    requires IsRun(trace, events) && Told(trace, i, x, a, gid, p) && Told(trace, j, y, b, gid, p)
    requires i < j || (i == j && x == y && a < b)
    ensures i < j
    ensures exists m :: m in trace[j].seats && Finishes(trace[j], trace[j + 1], gid, m, p)
                        && exists k | i < k < j :: Admits(trace, events, k, m, gid)
  {
    RunsKeepInv(trace, events, i);
    RunsKeepInv(trace, events, j);
    hide Inv, Next, Enabled, Finishes, Admits;
    CompletionsAreEarned(trace[i], events[i], x, a);
    CompletionsAreEarned(trace[j], events[j], y, b);
    if i == j {
      OncePerStep(trace[i], events[i], x, a, b);
    }
    var m :| m in trace[i].seats && Finishes(trace[i], trace[i + 1], gid, m, p);
    var m' :| m' in trace[j].seats && Finishes(trace[j], trace[j + 1], gid, m', p);
    AdmissionsCompleteOnce(trace, events, gid, m, m', p, i, j);
  }

  /** One step tells a client of a player's completion at most once. */
  lemma OncePerStep<S>(l: Lobby<S>, e: Event<S>, x: S, a: nat, b: nat)
    requires Inv(l) && Enabled(l, e)
    requires var l' := Next(l, e);
             && x in l.inbox && x in l'.inbox && |l.inbox[x]| <= a < b < |l'.inbox[x]|
             && l'.inbox[x][a].PlayerJoined? && l'.inbox[x][b].PlayerJoined?
    ensures Next(l, e).inbox[x][a].pid != Next(l, e).inbox[x][b].pid
  {
    CompletionsAreEarned(l, e, x, a);
    UpdateMeshCompletes(l, e.s, e.gid, e.targets, e.now);
    hide Inv, Enabled, Finishes, UpdateMesh;
  }

  /** After a completion nobody with the persona awaits admission to the game. */
  lemma FinishedAwaitsNot<S>(l: Lobby<S>, l': Lobby<S>, gid: int, m: S, m': S, p: int)
    requires Inv(l') && Finishes(l, l', gid, m, p)
    ensures p != 0 && gid != 0 && !Awaits(l', m', p, gid)
  {
    hide RegistryOk, GamesOk, SeatsOk, QueueOk, InboxesOk, Linked, Pids;
    MemberSeat(l', gid, m);
    if m' in l'.ids && Pid(l'.ids, m') == p {
      SamePersona(l', m, m');
    }
  }

  /** A session that completes awaited its admission, under the same persona. */
  lemma NextKeepsPersona<S>(l: Lobby<S>, e: Event<S>, gid: int, m: S, p: int)
    requires Inv(l) && Enabled(l, e) && Finishes(l, Next(l, e), gid, m, p)
    ensures Awaits(l, m, p, gid)
  {
    hide RegistryOk, GamesOk, QueueOk, InboxesOk, Linked, Pids;
    hide Connect, QueueMatch, Cancel, ResetDedicated, Finalize, SetCapacity, SetGameAttrs, SetPlayerAttrs, RemovePlayer, UpdateMesh;
    NextKeeps(l, e);
    MemberSeat(Next(l, e), gid, m);
    assert SeatOk(l, m);
    if e.EConnect? {
      hide Login, Disconnect;
      ConnectedPid(l, e.s, m);
    } else if e.ELogin? {
      hide Disconnect;
      LoginPersona(l, e.s, e.requested, e.name, m);
    } else if e.EDisconnect? {
      hide Login, LeftoverGame;
      DisconnectIdentities(l, e.s);
      hide Disconnect;
    } else {
      hide Login, Disconnect;
      SameIdentities(l, e);
    }
  }

  lemma ConnectedPid<S>(l: Lobby<S>, s: S, m: S)
    requires s !in l.ids && m in l.ids
    ensures Pid(Connect(l, s).ids, m) == Pid(l.ids, m)
  {
  }

  lemma LoginPersona<S>(l: Lobby<S>, s: S, requested: int, name: string, m: S)
    requires s in l.ids && m in l.ids && l.ids[m].personaID != 0
    ensures Pid(Login(l, s, requested, name).ids, m) == Pid(l.ids, m)
  {
    hide FreshPersona, Post, UserNotes;
  }

  // ---- the queue -----------------------------------------------------------------------------

  lemma MatchSymmetric<S>(a: Request<S>, b: Request<S>)
    ensures CompatibleMatch(a, b) <==> CompatibleMatch(b, a)
  {
  }

  /** Compatibility is an equivalence on requests for two players or more, and holds for no others. */
  lemma MatchEquivalence<S>(a: Request<S>, b: Request<S>, c: Request<S>)
    ensures CompatibleMatch(a, a) <==> a.cap >= 2
    ensures CompatibleMatch(a, b) ==> a.cap >= 2 && CompatibleMatch(b, a)
    ensures CompatibleMatch(a, b) && CompatibleMatch(b, c) ==> CompatibleMatch(a, c)
  {
    MatchSymmetric(a, b);
  }

  /** The queue is in strictly increasing match ids and holds no two requests that could be paired,
      in either order. */
  lemma QueueIsAntichain<S>(trace: seq<Lobby<S>>, events: seq<Event<S>>, t: nat, i: nat, j: nat)
    requires IsRun(trace, events) && t < |trace| && i < |trace[t].queue| && j < |trace[t].queue| && i != j
    ensures var q := trace[t].queue;
            && (q[i].msid < q[j].msid <==> i < j) && q[i].session != q[j].session
            && !CompatibleMatch(q[i], q[j])
  {
    RunsKeepInv(trace, events, t);
    hide IsRun, RegistryOk, GamesOk, SeatsOk, InboxesOk, CompatibleMatch;
    MatchSymmetric(trace[t].queue[i], trace[t].queue[j]);
  }
}
