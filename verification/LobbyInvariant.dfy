/** What every reachable lobby satisfies. */
module LobbyInvariant {
  import opened LobbyModel
  import opened LobbyClient

  /** The personas of a roster. */
  function Pids<S>(ids: map<S, Identity>, members: seq<S>): set<int>
  {
    set i | 0 <= i < |members| :: Pid(ids, members[i])
  }

  // ---- one game ----------------------------------------------------------------------------

  /** Members are logged-in sessions with different personas. */
  ghost predicate MembersDistinct<S>(ids: map<S, Identity>, members: seq<S>)
  {
    && (forall i | 0 <= i < |members| :: members[i] in ids && Pid(ids, members[i]) > 0)
    && (forall i, j | 0 <= i < j < |members| :: Pid(ids, members[i]) != Pid(ids, members[j]))
  }

  /** Every per-player table has exactly the roster's personas as keys; slots are distinct. */
  ghost predicate TablesMatch<S>(g: Game<S>, ids: map<S, Identity>)
  {
    && g.slots.Keys == Pids(ids, g.members)
    && g.joinedAt.Keys == g.slots.Keys
    && g.playerAttrs.Keys == g.slots.Keys
    && g.playerStates.Keys == g.slots.Keys
    && (forall p | p in g.joinedAt :: g.joinedAt[p] != 0)
    && (forall p | p in g.slots :: g.slots[p] >= 0)
    && (forall p, q | p in g.slots && q in g.slots && p != q :: g.slots[p] != g.slots[q])
  }

  /** Edges run between different members. */
  ghost predicate MeshInside<S>(g: Game<S>)
  {
    && g.mesh.Keys <= g.slots.Keys
    && (forall p | p in g.mesh :: g.mesh[p].Keys <= g.slots.Keys - {p})
    && g.meshReady.Keys <= g.slots.Keys
  }

  /** The readiness cache is exact for the players it knows: one is ready when it is linked both
      ways with every other. Players who joined since are in nobody's entry. */
  ghost predicate ReadinessExact<S>(g: Game<S>)
  {
    forall p | p in g.meshReady ::
      g.meshReady[p] <==> forall q | q in g.meshReady && q != p :: Linked(g.mesh, p, q)
  }

  /** The host was first in and holds slot 0, as the setup's HSLT says. */
  ghost predicate HostFirst<S>(g: Game<S>, ids: map<S, Identity>)
  {
    && g.members != [] && g.members[0] == g.host
    && Pid(ids, g.host) in g.slots && g.slots[Pid(ids, g.host)] == 0
  }

  ghost predicate RosterOk<S>(g: Game<S>, ids: map<S, Identity>)
  {
    MembersDistinct(ids, g.members) && TablesMatch(g, ids) && MeshInside(g)
  }

  ghost predicate GameOk<S>(g: Game<S>, ids: map<S, Identity>)
  {
    RosterOk(g, ids) && HostFirst(g, ids) && ReadinessExact(g)
  }

  // ---- the server --------------------------------------------------------------------------

  ghost predicate KeysOk<S>(l: Lobby<S>)
  {
    l.seats.Keys == l.ids.Keys && l.inbox.Keys == l.ids.Keys
  }

  /** A session has a persona exactly when it has a session id, and then the registries know it. */
  ghost predicate IdentityOk<S>(l: Lobby<S>, s: S)
    requires s in l.ids
  {
    var me := l.ids[s];
    if me.personaID == 0 then me.sessionID == 0 && me.accountID == 0
    else
      && me.personaID in l.users && l.users[me.personaID].accountID == me.accountID
      && me.personaID in l.active && l.active[me.personaID] == s
      && 0 < me.sessionID < l.nextSession && me.sessionID in l.sessions && l.sessions[me.sessionID] == s
  }

  /** sessions and activePersonas point at live sessions that carry the key, so two live sessions
      never share a persona or a session id; every persona ever known is below the allocator. */
  ghost predicate RegistryOk<S>(l: Lobby<S>)
  {
    && l.nextUser >= 1 && l.nextSession >= 1
    && (forall s | s in l.ids :: IdentityOk(l, s))
    && (forall k | k in l.sessions :: l.sessions[k] in l.ids && l.ids[l.sessions[k]].sessionID == k && k != 0)
    && (forall p | p in l.active :: l.active[p] in l.ids && l.ids[l.active[p]].personaID == p && p != 0)
    && (forall p | p in l.users :: 0 < p < l.nextUser && l.users[p].personaID == p && l.users[p].accountID == p)
  }

  ghost predicate GamesOk<S>(l: Lobby<S>)
  {
    && l.nextGame >= 1
    && (forall gid | gid in l.games :: 0 < gid < l.nextGame && l.games[gid].id == gid && GameOk(l.games[gid], l.ids))
  }

  /** Idle, queued, or in one game. */
  ghost predicate SeatOk<S>(l: Lobby<S>, s: S)
    requires s in l.seats
  {
    var seat := l.seats[s];
    && (Pid(l.ids, s) == 0 ==> seat == IDLE)
    && (seat.gameID != 0 ==> seat.gameID in l.games && s in l.games[seat.gameID].members && seat.queuedMatch == 0)
    && (seat.pending == 0 || seat.pending == seat.gameID)
    && (seat.queuedMatch != 0 ==> exists i :: 0 <= i < |l.queue| && l.queue[i].session == s && l.queue[i].msid == seat.queuedMatch)
  }

  /** Each session's seat is consistent, and members of a game sit in it. */
  ghost predicate SeatsOk<S>(l: Lobby<S>)
  {
    && (forall s | s in l.seats :: SeatOk(l, s))
    && (forall gid, m | gid in l.games && m in l.games[gid].members :: m in l.seats && l.seats[m].gameID == gid)
  }

  /** The queue is in request order, belongs to logged-in sessions outside any game, knows each of
      them once, and holds no two requests that could be paired. */
  ghost predicate QueueOk<S>(l: Lobby<S>)
  {
    && l.nextMatch >= 1
    && (forall i | 0 <= i < |l.queue| ::
          && 0 < l.queue[i].msid < l.nextMatch
          && l.queue[i].session in l.seats
          && l.seats[l.queue[i].session].queuedMatch == l.queue[i].msid)
    && (forall i, j | 0 <= i < j < |l.queue| ::
          && l.queue[i].msid < l.queue[j].msid
          && !CompatibleMatch(l.queue[i], l.queue[j]))
  }

  /** What the client saw is a legal conversation, and leaves it with the server's own view: the
      game it is in, that game's slots, and every pending admission still open. */
  ghost predicate InboxOk<S>(l: Lobby<S>, s: S)
    requires s in l.inbox && s in l.seats
  {
    var self := Pid(l.ids, s);
    var view := After(self, START, l.inbox[s]);
    && (self == 0 ==> l.inbox[s] == [])
    && Legal(self, START, l.inbox[s])
    && view.gid == l.seats[s].gameID
    && (self != 0 ==> self in view.known)
    && (view.gid in l.games ==> InTune(view, l.games[view.gid], l.ids, l.seats))
  }

  /** A client's view agrees with the game. */
  ghost predicate InTune<S>(view: View, g: Game<S>, ids: map<S, Identity>, seats: map<S, Seat>)
  {
    && view.roster == g.slots
    && forall m | m in g.members && m in seats && seats[m].pending == g.id :: Pid(ids, m) in view.joining
  }

  ghost predicate InboxesOk<S>(l: Lobby<S>)
    requires KeysOk(l)
  {
    forall s | s in l.inbox :: InboxOk(l, s)
  }

  ghost predicate Inv<S>(l: Lobby<S>)
  {
    KeysOk(l) && RegistryOk(l) && GamesOk(l) && SeatsOk(l) && QueueOk(l) && InboxesOk(l)
  }
}
