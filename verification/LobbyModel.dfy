/** The lobby as a value: what the server's mutex protects, and what each client has been sent.
    `S` is the identity of a connection. LobbyServer computes these functions in place. */
module LobbyModel {
  import opened Options
  import opened IntSets

  type Attrs = map<string, string>

  /** The notifications that carry lobby state. `roster` lists PROS: a persona and its slot (SID)
      for each member, in order; `host` is PHST.HPID. */
  datatype Note =
    | UserAdded(pid: int)
    | ExtendedData(uid: int)
    | GameSetup(gid: int, host: int, roster: seq<(int, int)>)
    | PlayerJoining(gid: int, pid: int, sid: int)
    | PlayerJoined(gid: int, pid: int)
    | PlayerRemoved(gid: int, pid: int)
    | GameRemoved(gid: int)
    | PlatformHost(gid: int)
    | GameCapacity(gid: int, caps: seq<int>)
    | GameAttributes(gid: int, attrs: Attrs)
    | PlayerAttributes(gid: int, pid: int, attrs: Attrs)

  datatype User = User(accountID: int, personaID: int, name: string)

  /** Who a connection is; all zero until silentLogin. */
  datatype Identity = Identity(accountID: int, personaID: int, sessionID: int, name: string)

  /** Where a connection is: Session.GameID, PendingMatchmakingGame and QueuedMatchID. */
  datatype Seat = Seat(gameID: int, pending: int, queuedMatch: int)

  const IDLE := Seat(0, 0, 0)

  datatype Request<S> = Request(session: S, attrs: Attrs, cap: int, topology: int, msid: int)

  datatype Game<S> = Game(
    id: int, host: S, members: seq<S>, attrs: Attrs, capacity: int, topology: int,
    slots: map<int, int>, joinedAt: map<int, int>, playerAttrs: map<int, Attrs>,
    playerStates: map<int, int>, mesh: map<int, map<int, int>>, meshReady: map<int, bool>)

  /** One entry of updateMeshConnection's TARG list; entries that are not structs are skipped. */
  datatype Target = Target(pid: int, status: int) | NotAStruct

  datatype Lobby<S> = Lobby(
    ids: map<S, Identity>, seats: map<S, Seat>, inbox: map<S, seq<Note>>,
    users: map<int, User>, sessions: map<int, S>, active: map<int, S>,
    games: map<int, Game<S>>, queue: seq<Request<S>>,
    nextUser: int, nextSession: int, nextGame: int, nextMatch: int)

  function New<S>(): Lobby<S>
  {
    Lobby(map[], map[], map[], map[], map[], map[], map[], [], 1, 1, 1, 1)
  }

  // ---- sessions ----------------------------------------------------------------------------

  /** canonicalPlayerID */
  function Pid<S>(ids: map<S, Identity>, s: S): int
  {
    if s in ids then ids[s].personaID else 0
  }

  /** userSessionID */
  function Uid<S>(ids: map<S, Identity>, s: S): int
  {
    if s in ids && ids[s].sessionID != 0 then ids[s].sessionID else Pid(ids, s)
  }

  function Decimal(n: nat): string
  {
    var digit := ['0', '1', '2', '3', '4', '5', '6', '7', '8', '9'][n % 10];
    if n < 10 then [digit] else Decimal(n / 10) + [digit]
  }

  function PersonaName(pid: int): string
  {
    if pid <= 1 then "Player" else "Player" + Decimal(pid)
  }

  /** userNotificationsFor */
  function UserNotes<S>(ids: map<S, Identity>, s: S): seq<Note>
  {
    [UserAdded(Pid(ids, s)), ExtendedData(Uid(ids, s))]
  }

  /** The notifications about every member but one, in roster order. */
  function UserNotesExcept<S(==)>(ids: map<S, Identity>, members: seq<S>, except: S): seq<Note>
  {
    if members == [] then []
    else (if members[0] == except then [] else UserNotes(ids, members[0])) + UserNotesExcept(ids, members[1..], except)
  }

  /** Each recipient's inbox grows by its share of `mail`. */
  function Post<S>(inbox: map<S, seq<Note>>, mail: map<S, seq<Note>>): map<S, seq<Note>>
  {
    map s | s in inbox :: inbox[s] + if s in mail then mail[s] else []
  }

  // ---- games -------------------------------------------------------------------------------

  /** sessionForPlayerID: the first member with the persona. */
  function MemberFor<S>(ids: map<S, Identity>, members: seq<S>, pid: int): Option<S>
  {
    if members == [] then None
    else if Pid(ids, members[0]) == pid then Some(members[0])
    else MemberFor(ids, members[1..], pid)
  }

  /** ensureMembershipState from member `i` on. */
  function EnsureFrom<S>(g: Game<S>, ids: map<S, Identity>, now: int, i: nat): Game<S>
    requires i <= |g.members|
    decreases |g.members| - i
  {
    if i == |g.members| then g
    else
      var p := Pid(ids, g.members[i]);
      var g' := g.(slots := if p in g.slots then g.slots else g.slots[p := i],
                   joinedAt := if p in g.joinedAt && g.joinedAt[p] != 0 then g.joinedAt else g.joinedAt[p := now],
                   playerStates := if p in g.playerStates then g.playerStates else g.playerStates[p := 4]);
      EnsureFrom(g', ids, now, i + 1)
  }

  function EnsureMembership<S>(g: Game<S>, ids: map<S, Identity>, now: int): Game<S>
  {
    EnsureFrom(g, ids, now, 0)
  }

  /** The least slot from `slot` up that is not in use. */
  function LeastUnused(used: set<int>, slot: nat): (free: nat)
    ensures free >= slot && free !in used && forall k | slot <= k < free :: k in used
    decreases |set k | k in used && k >= slot|
  {
    if slot !in used then slot
    else
      assert (set k | k in used && k >= slot) == (set k | k in used && k >= slot + 1) + {slot};
      LeastUnused(used, slot + 1)
  }

  /** The member that is the session, or shares its persona. */
  function Duplicate<S(==)>(ids: map<S, Identity>, members: seq<S>, s: S): Option<S>
  {
    if members == [] then None
    else if members[0] == s || Pid(ids, members[0]) == Pid(ids, s) then Some(members[0])
    else Duplicate(ids, members[1..], s)
  }

  datatype Added<S> = Added(game: Game<S>, slot: int, added: bool)

  /** addMember */
  function AddMember<S(==)>(g0: Game<S>, ids: map<S, Identity>, s: S, now: int): Added<S>
  {
    var g := EnsureMembership(g0, ids, now);
    match Duplicate(ids, g.members, s)
    case Some(m) => Added(g, if Pid(ids, m) in g.slots then g.slots[Pid(ids, m)] else 0, false)
    case None =>
      if g.capacity > 0 && |g.members| >= g.capacity then Added(g, -1, false)
      else
        var p, slot := Pid(ids, s), LeastUnused(g.slots.Values, 0);
        Added(g.(members := g.members + [s], slots := g.slots[p := slot], joinedAt := g.joinedAt[p := now],
                 playerAttrs := g.playerAttrs[p := map[]], playerStates := g.playerStates[p := 4]),
              slot, true)
  }

  function AddMembers<S(==)>(g: Game<S>, ids: map<S, Identity>, members: seq<S>, now: int): Game<S>
    decreases |members|
  {
    if members == [] then g else AddMembers(AddMember(g, ids, members[0], now).game, ids, members[1..], now)
  }

  function EmptyGame<S>(id: int, host: S, attrs: Attrs, capacity: int, topology: int): Game<S>
  {
    Game(id, host, [], attrs, capacity, topology, map[], map[], map[], map[], map[], map[])
  }

  function NewGame<S(==)>(ids: map<S, Identity>, id: int, host: S, members: seq<S>, attrs: Attrs,
                          capacity: int, topology: int, now: int): Game<S>
  {
    AddMembers(EmptyGame(id, host, attrs, capacity, topology), ids, members, now)
  }

  function Without<S(==)>(members: seq<S>, s: S): seq<S>
  {
    if members == [] then []
    else if members[0] == s then members[1..]
    else [members[0]] + Without(members[1..], s)
  }

  /** removeMember: roster, tables and both directions of the mesh. */
  function RemoveMember<S(==)>(g: Game<S>, ids: map<S, Identity>, s: S): Game<S>
  {
    if s !in g.members then g
    else
      var p := Pid(ids, s);
      g.(members := Without(g.members, s),
         slots := g.slots - {p}, joinedAt := g.joinedAt - {p}, playerAttrs := g.playerAttrs - {p},
         playerStates := g.playerStates - {p},
         mesh := map q | q in g.mesh && q != p :: g.mesh[q] - {p},
         meshReady := g.meshReady - {p})
  }

  /** The reported status of a directed edge; 0 where nothing was reported. */
  function Edge(mesh: map<int, map<int, int>>, p: int, q: int): int
  {
    if p in mesh && q in mesh[p] then mesh[p][q] else 0
  }

  predicate Linked(mesh: map<int, map<int, int>>, p: int, q: int)
  {
    Edge(mesh, p, q) == 2 && Edge(mesh, q, p) == 2
  }

  /** meshReadyForPlayer */
  predicate ReadyFor<S(==)>(g: Game<S>, ids: map<S, Identity>, s: S)
  {
    forall i | 0 <= i < |g.members| && g.members[i] != s :: Linked(g.mesh, Pid(ids, s), Pid(ids, g.members[i]))
  }

  /** refreshMeshReadiness from member `i` on, over the cache built so far. */
  function RefreshFrom<S(==)>(g: Game<S>, ids: map<S, Identity>, ready: map<int, bool>, i: nat): map<int, bool>
    requires i <= |g.members|
    decreases |g.members| - i
  {
    if i == |g.members| then ready
    else RefreshFrom(g, ids, ready[Pid(ids, g.members[i]) := ReadyFor(g, ids, g.members[i])], i + 1)
  }

  function Refresh<S(==)>(g: Game<S>, ids: map<S, Identity>): Game<S>
  {
    g.(meshReady := RefreshFrom(g, ids, g.meshReady, 0))
  }

  const MATCH_KEYS: seq<string> := ["playlist", "cartier", "event", "visibility"]

  /** isCompatibleGame */
  predicate CompatibleGame<S(==)>(g: Game<S>, r: Request<S>)
  {
    && g.host != r.session
    && |g.members| < g.capacity
    && !(r.cap > 0 && g.capacity > r.cap)
    && g.topology == r.topology
    && forall i | 0 <= i < |MATCH_KEYS| ::
         MATCH_KEYS[i] in r.attrs ==> MATCH_KEYS[i] in g.attrs && r.attrs[MATCH_KEYS[i]] == g.attrs[MATCH_KEYS[i]]
  }

  predicate SameAttr(a: Attrs, b: Attrs, key: string)
  {
    (key in a <==> key in b) && (key in a && key in b ==> a[key] == b[key])
  }

  /** isCompatibleMatch */
  predicate CompatibleMatch<S>(a: Request<S>, b: Request<S>)
  {
    && a.cap >= 2 && b.cap >= 2 && a.cap == b.cap && a.topology == b.topology
    && forall i | 0 <= i < |MATCH_KEYS| :: SameAttr(a.attrs, b.attrs, MATCH_KEYS[i])
  }

  /** The roster gameSetup publishes. */
  function Roster<S>(g: Game<S>, ids: map<S, Identity>): (roster: seq<(int, int)>)
  {
    seq(|g.members|, i requires 0 <= i < |g.members| =>
      var p := Pid(ids, g.members[i]); (p, if p in g.slots then g.slots[p] else 0))
  }

  function SetupNote<S>(g: Game<S>, ids: map<S, Identity>): Note
  {
    GameSetup(g.id, Pid(ids, g.host), Roster(g, ids))
  }

  // ---- login -------------------------------------------------------------------------------

  predicate PersonaTaken<S>(l: Lobby<S>, p: int)
  {
    p in l.active || (p in l.users && l.users[p].personaID != 0)
  }

  /** The collision loop: the first persona from `p` up that nobody holds or ever held. */
  function FreshPersona<S>(l: Lobby<S>, p: int): (free: int)
    ensures free >= p && !PersonaTaken(l, free) && forall q | p <= q < free :: PersonaTaken(l, q)
    decreases |set q | q in l.active.Keys + l.users.Keys && q >= p|
  {
    if !PersonaTaken(l, p) then p
    else
      var keys := l.active.Keys + l.users.Keys;
      assert (set q | q in keys && q >= p) == (set q | q in keys && q >= p + 1) + {p};
      FreshPersona(l, p + 1)
  }

  /** authenticateSessionNamed */
  function Authenticate<S>(l: Lobby<S>, s: S, requested: int, name: string): Lobby<S>
    requires s in l.ids
  {
    if l.ids[s].personaID != 0 then l
    else
      var p := if requested <= 0 || requested in l.active then FreshPersona(l, l.nextUser) else requested;
      var known := if p in l.users then l.users[p] else User(p, p, PersonaName(p));
      var user := if name == "" then known else known.(name := name);
      l.(ids := l.ids[s := Identity(user.accountID, user.personaID, l.nextSession, user.name)],
         users := l.users[p := user],
         nextUser := if p >= l.nextUser then p + 1 else l.nextUser,
         nextSession := l.nextSession + 1,
         sessions := l.sessions[l.nextSession := s],
         active := l.active[user.personaID := s])
  }

  /** The silentLogin handler: authentication, then the user's own two notifications. */
  function Login<S(==)>(l: Lobby<S>, s: S, requested: int, name: string): Lobby<S>
    requires s in l.ids
  {
    var l' := Authenticate(l, s, requested, name);
    l'.(inbox := Post(l'.inbox, map[s := UserNotes(l'.ids, s)]))
  }

  /** A connection is accepted. */
  function Connect<S>(l: Lobby<S>, s: S): Lobby<S>
  {
    l.(ids := l.ids[s := Identity(0, 0, 0, "")], seats := l.seats[s := IDLE], inbox := l.inbox[s := []])
  }

  // ---- the queue ---------------------------------------------------------------------------

  function RemoveRequests<S(==)>(queue: seq<Request<S>>, s: S): seq<Request<S>>
  {
    if queue == [] then []
    else (if queue[0].session == s then [] else [queue[0]]) + RemoveRequests(queue[1..], s)
  }

  /** removeQueuedSessionLocked */
  function Dequeue<S(==)>(l: Lobby<S>, s: S): Lobby<S>
    requires s in l.seats
  {
    l.(queue := RemoveRequests(l.queue, s), seats := l.seats[s := l.seats[s].(queuedMatch := 0)])
  }

  /** The oldest queued request another session can be paired with. */
  function FirstMatch<S(==)>(queue: seq<Request<S>>, r: Request<S>): (i: nat)
    ensures i <= |queue|
  {
    if queue == [] then 0
    else if queue[0].session != r.session && CompatibleMatch(queue[0], r) then 0
    else 1 + FirstMatch(queue[1..], r)
  }

  /** The session's own queued request with the given id. */
  function FirstOwn<S(==)>(queue: seq<Request<S>>, s: S, msid: int): (i: nat)
    ensures i <= |queue|
  {
    if queue == [] then 0
    else if queue[0].session == s && queue[0].msid == msid then 0
    else 1 + FirstOwn(queue[1..], s, msid)
  }

  /** cancelQueuedMatch */
  function Cancel<S(==)>(l: Lobby<S>, s: S, msid: int): (Lobby<S>, bool)
    requires s in l.seats
  {
    if msid <= 0 || l.seats[s].queuedMatch != msid then (l, false)
    else
      var i := FirstOwn(l.queue, s, msid);
      if i == |l.queue| then (l, false)
      else (l.(queue := l.queue[..i] + l.queue[i + 1..], seats := l.seats[s := l.seats[s].(queuedMatch := 0)]), true)
  }

  // ---- matchmaking -------------------------------------------------------------------------

  /** The session is a registered member of the game its GameID names. */
  predicate Playing<S(==)>(l: Lobby<S>, s: S)
    requires s in l.seats
  {
    var gid := l.seats[s].gameID;
    gid in l.games && MemberFor(l.ids, l.games[gid].members, Pid(l.ids, s)) == Some(s)
  }

  datatype Scan<S> = Scan(games: map<int, Game<S>>, joined: Option<int>)

  /** queueMatch's pass over the registered games in increasing id: the first compatible one that
      takes the session. */
  function ScanGames<S(==)>(games: map<int, Game<S>>, ids: map<S, Identity>, r: Request<S>, now: int, todo: set<int>): Scan<S>
    requires todo <= games.Keys
    decreases |todo|
  {
    if todo == {} then Scan(games, None)
    else
      var gid := Least(todo);
      if !CompatibleGame(games[gid], r) then ScanGames(games, ids, r, now, todo - {gid})
      else
        var a := AddMember(games[gid], ids, r.session, now);
        if a.added then Scan(games[gid := a.game], Some(gid))
        else ScanGames(games[gid := a.game], ids, r, now, todo - {gid})
  }

  /** A session has been added to `game`: its seat, and the mail of notifyMatchedGame. */
  function Join<S(==)>(l: Lobby<S>, s: S, games: map<int, Game<S>>, gid: int): Lobby<S>
    requires gid in games && s in l.seats
  {
    var g := games[gid];
    l.(games := games,
       seats := l.seats[s := Seat(g.id, g.id, 0)],
       inbox := Post(l.inbox, JoiningMail(g, l.ids, s)[s := UserNotesExcept(l.ids, g.members, s) + [SetupNote(g, l.ids)]]))
  }

  /** What the other members hear of a newcomer: who it is, then that it is joining. */
  function JoiningMail<S(==)>(g: Game<S>, ids: map<S, Identity>, s: S): map<S, seq<Note>>
  {
    var p := Pid(ids, s);
    map m | m in g.members && m != s ::
      UserNotes(ids, s) + [PlayerJoining(g.id, p, if p in g.slots then g.slots[p] else 0)]
  }

  /** Two queued sessions open a game; the older request's owner hosts it. */
  function Pair<S(==)>(l: Lobby<S>, i: nat, r: Request<S>, now: int): Lobby<S>
    requires i < |l.queue|
  {
    var h := l.queue[i];
    var gid := l.nextGame;
    var g := NewGame(l.ids, gid, h.session, [h.session, r.session], h.attrs, h.cap, h.topology, now);
    l.(queue := l.queue[..i] + l.queue[i + 1..],
       nextGame := gid + 1,
       games := l.games[gid := g],
       seats := SeatAll(l.seats, g.members, Seat(gid, gid, 0)),
       inbox := Post(l.inbox, map[h.session := UserNotes(l.ids, r.session) + [SetupNote(g, l.ids)],
                                  r.session := UserNotes(l.ids, h.session) + [SetupNote(g, l.ids)]]))
  }

  function SeatAll<S(==)>(seats: map<S, Seat>, members: seq<S>, seat: Seat): map<S, Seat>
  {
    map s | s in seats :: if s in members then seat else seats[s]
  }

  function Enqueue<S>(l: Lobby<S>, r: Request<S>): Lobby<S>
    requires r.session in l.seats
  {
    l.(queue := l.queue + [r], seats := l.seats[r.session := l.seats[r.session].(queuedMatch := r.msid)])
  }

  /** The match id is spent; a stale GameID and any earlier request of the session are dropped. */
  function Restart<S(==)>(l: Lobby<S>, s: S): Lobby<S>
    requires s in l.seats
  {
    Dequeue(l.(seats := l.seats[s := l.seats[s].(gameID := 0)]), s)
  }

  /** queueMatch; the match id it returns is the one `l` would hand out next. */
  function QueueMatch<S(==)>(l: Lobby<S>, s: S, attrs: Attrs, cap: int, topology: int, now: int): Lobby<S>
    requires s in l.seats
  {
    var l1 := l.(nextMatch := l.nextMatch + 1);
    if Playing(l1, s) && l.seats[s].gameID != 0 then l1
    else PlaceRequest(Restart(l1, s), Request(s, attrs, cap, topology, l.nextMatch), now)
  }

  function PlaceRequest<S(==)>(l: Lobby<S>, r: Request<S>, now: int): Lobby<S>
    requires r.session in l.seats
  {
    var scan := ScanGames(l.games, l.ids, r, now, l.games.Keys);
    match scan.joined
    case Some(gid) => if gid in scan.games then Join(l, r.session, scan.games, gid) else l
    case None =>
      var l' := l.(games := scan.games);
      var i := FirstMatch(l'.queue, r);
      if i < |l'.queue| then Pair(l', i, r, now) else Enqueue(l', r)
  }

  // ---- GameManager handlers ----------------------------------------------------------------

  /** resetDedicatedServer: the caller hosts a new game of its own. */
  function ResetDedicated<S(==)>(l: Lobby<S>, s: S, attrs: Attrs, cap: int, topology: int, now: int): Lobby<S>
    requires s in l.seats
  {
    if Playing(l, s) then l else Host(Restart(l, s), s, attrs, cap, topology, now)
  }

  function Host<S(==)>(l: Lobby<S>, s: S, attrs: Attrs, cap: int, topology: int, now: int): Lobby<S>
    requires s in l.seats
  {
    var gid := l.nextGame;
    var g := NewGame(l.ids, gid, s, [s], attrs, cap, topology, now);
    l.(nextGame := gid + 1,
       games := l.games[gid := g],
       seats := l.seats[s := l.seats[s].(gameID := gid)],
       inbox := Post(l.inbox, map[s := [SetupNote(g, l.ids)]]))
  }

  /** finalizeGameCreation */
  function Finalize<S(==)>(l: Lobby<S>, s: S, gid: int): Lobby<S>
    requires s in l.seats
  {
    var seat := l.seats[s];
    var target := FinalizeTarget(seat, gid);
    if target == 0 then l
    else l.(seats := l.seats[s := seat.(pending := 0)], inbox := Post(l.inbox, map[s := [PlatformHost(target)]]))
  }

  /** The game named, or else the pending one, or else the current one. */
  function FinalizeTarget(seat: Seat, gid: int): int
  {
    if gid != 0 then gid else if seat.pending != 0 then seat.pending else seat.gameID
  }

  /** broadcast: to the members of the game, or to the sender when there are none. */
  function Broadcast<S(==)>(l: Lobby<S>, sender: S, gid: int, note: Note): map<S, seq<Note>>
  {
    ToEach(if gid in l.games && l.games[gid].members != [] then l.games[gid].members else [sender], [note])
  }

  /** setPlayerCapacity */
  function SetCapacity<S(==)>(l: Lobby<S>, s: S, gid: int, caps: seq<int>): Lobby<S>
  {
    var games := if gid in l.games && caps != [] then l.games[gid := l.games[gid].(capacity := caps[0])] else l.games;
    l.(games := games, inbox := Post(l.inbox, Broadcast(l, s, gid, GameCapacity(gid, caps))))
  }

  /** setGameAttributes */
  function SetGameAttrs<S(==)>(l: Lobby<S>, s: S, gid: int, attrs: Attrs): Lobby<S>
  {
    var games := if gid in l.games then l.games[gid := l.games[gid].(attrs := attrs)] else l.games;
    l.(games := games, inbox := Post(l.inbox, Broadcast(l, s, gid, GameAttributes(gid, attrs))))
  }

  /** broadcastPlayerAttributes: a member's attributes are merged in, by itself or by the host. */
  function SetPlayerAttrs<S(==)>(l: Lobby<S>, s: S, gid: int, pid: int, attrs: Attrs, now: int): Lobby<S>
  {
    var mail := Broadcast(l, s, gid, PlayerAttributes(gid, pid, attrs));
    if gid !in l.games then l.(inbox := Post(l.inbox, mail))
    else
      match AllowedTarget(l, s, gid, pid)
      case None => l
      case Some(t) =>
        var g := MergeAttrs(EnsureMembership(l.games[gid], l.ids, now), Pid(l.ids, t), attrs);
        l.(games := l.games[gid := g], inbox := Post(l.inbox, mail))
  }

  function MergeAttrs<S>(g: Game<S>, p: int, attrs: Attrs): Game<S>
  {
    g.(playerAttrs := g.playerAttrs[p := (if p in g.playerAttrs then g.playerAttrs[p] else map[]) + attrs])
  }

  /** The member a removal or an attribute change is about: the caller itself, or anyone if the
      caller is the host. */
  function AllowedTarget<S(==)>(l: Lobby<S>, s: S, gid: int, pid: int): Option<S>
    requires gid in l.games
  {
    var g := l.games[gid];
    var candidate := MemberFor(l.ids, g.members, pid);
    if MemberFor(l.ids, g.members, Pid(l.ids, s)).Some? && candidate.Some? && (candidate.value == s || s == g.host)
    then candidate else None
  }

  /** A member leaves a game. The host takes the game with it and frees every survivor; after
      anyone else the readiness cache is rebuilt. Every member, the leaver included, is told. */
  function Leave<S(==)>(l: Lobby<S>, t: S, gid: int): Lobby<S>
    requires gid in l.games && t in l.seats
  {
    var g := l.games[gid];
    var g' := RemoveMember(g, l.ids, t);
    var mail := RemovalMail(g.members, PlayerRemoved(gid, Pid(l.ids, t)), t, t == g.host, gid);
    if t == g.host then
      l.(games := l.games - {gid},
         seats := map s | s in l.seats :: if s in g.members then IDLE else l.seats[s],
         inbox := Post(l.inbox, mail))
    else
      l.(games := l.games[gid := Refresh(g', l.ids)], seats := l.seats[t := IDLE], inbox := Post(l.inbox, mail))
  }

  /** Every member hears of the removal, and everyone but the leaver of the game's end. */
  function RemovalMail<S(==)>(members: seq<S>, removed: Note, t: S, gone: bool, gid: int): map<S, seq<Note>>
  {
    map m | m in members :: [removed] + if gone && m != t then [GameRemoved(gid)] else []
  }

  /** removePlayer */
  function RemovePlayer<S(==)>(l: Lobby<S>, s: S, gid: int, pid: int): Lobby<S>
  {
    if gid !in l.games then l.(inbox := Post(l.inbox, map[s := [PlayerRemoved(gid, pid)]]))
    else
      match AllowedTarget(l, s, gid, pid)
      case None => l
      case Some(t) => if t in l.seats then Leave(Dequeue(l, t), t, gid) else l
  }

  // ---- the mesh ----------------------------------------------------------------------------

  /** The reported edges, applied in order; targets that are not other members are skipped. */
  function ApplyTargets<S(==)>(g: Game<S>, ids: map<S, Identity>, s: S, targets: seq<Target>): (Game<S>, bool)
    requires Pid(ids, s) in g.mesh
    decreases |targets|
  {
    if targets == [] then (g, false)
    else
      var t := targets[0];
      var peer := if t.Target? then MemberFor(ids, g.members, t.pid) else None;
      if peer.None? || peer.value == s then ApplyTargets(g, ids, s, targets[1..])
      else
        var p := Pid(ids, s);
        var g' := g.(mesh := g.mesh[p := g.mesh[p][Pid(ids, peer.value) := t.status]]);
        (ApplyTargets(g', ids, s, targets[1..]).0, true)
  }

  /** The members that become ready while their matchmaking admission is pending. */
  function Completed<S>(g: Game<S>, ids: map<S, Identity>, seats: map<S, Seat>, members: seq<S>): seq<S>
  {
    if members == [] then []
    else
      var m := members[0];
      var p := Pid(ids, m);
      (if p in g.meshReady && g.meshReady[p] && m in seats && seats[m].pending == g.id then [m] else [])
      + Completed(g, ids, seats, members[1..])
  }

  function JoinedNotes<S>(gid: int, ids: map<S, Identity>, completed: seq<S>): seq<Note>
  {
    seq(|completed|, i requires 0 <= i < |completed| => PlayerJoined(gid, Pid(ids, completed[i])))
  }

  /** updateMeshConnection */
  function UpdateMesh<S(==)>(l: Lobby<S>, s: S, gid: int, targets: seq<Target>, now: int): Lobby<S>
  {
    if gid !in l.games || MemberFor(l.ids, l.games[gid].members, Pid(l.ids, s)) != Some(s) then l
    else
      var (g, changed) := MeshReport(EnsureMembership(l.games[gid], l.ids, now), l.ids, s, targets);
      var l' := l.(games := l.games[gid := g]);
      if changed then Complete(l', gid) else l'
  }

  /** The caller's row of the mesh after its report; if an edge was set, the cache is rebuilt. */
  function MeshReport<S(==)>(g: Game<S>, ids: map<S, Identity>, s: S, targets: seq<Target>): (Game<S>, bool)
  {
    var p := Pid(ids, s);
    var g1 := if p in g.mesh then g else g.(mesh := g.mesh[p := map[]]);
    var (g2, changed) := ApplyTargets(g1, ids, s, targets);
    (if changed then Refresh(g2, ids) else g2, changed)
  }

  /** Ready members' admissions are completed and announced to the whole roster. */
  function Complete<S(==)>(l: Lobby<S>, gid: int): Lobby<S>
    requires gid in l.games
  {
    var g := l.games[gid];
    var completed := Completed(g, l.ids, l.seats, g.members);
    l.(seats := Admitted(l.seats, completed),
       inbox := Post(l.inbox, ToEach(g.members, JoinedNotes(gid, l.ids, completed))))
  }

  function Admitted<S(==)>(seats: map<S, Seat>, completed: seq<S>): map<S, Seat>
  {
    map s | s in seats :: if s in completed then seats[s].(pending := 0) else seats[s]
  }

  function ToEach<S>(members: seq<S>, notes: seq<Note>): map<S, seq<Note>>
  {
    map m | m in members :: notes
  }

  // ---- disconnection -----------------------------------------------------------------------

  /** The registered game that still lists the session although its GameID names none. */
  function LeftoverGame<S(==)>(l: Lobby<S>, s: S): Option<int>
  {
    var ids := set gid | gid in l.games && MemberFor(l.ids, l.games[gid].members, Pid(l.ids, s)) == Some(s);
    if ids == {} then None else Some(Least(ids))
  }

  /** The session is gone from every table that is not a game's. */
  function Forget<S(==)>(l: Lobby<S>, s: S): Lobby<S>
    requires s in l.ids
  {
    var me := l.ids[s];
    l.(sessions := l.sessions - {me.sessionID},
       active := if me.personaID in l.active && l.active[me.personaID] == s then l.active - {me.personaID} else l.active,
       ids := l.ids - {s}, seats := l.seats - {s}, inbox := l.inbox - {s})
  }

  /** removeSession */
  function Disconnect<S(==)>(l: Lobby<S>, s: S): Lobby<S>
    requires s in l.ids && s in l.seats
  {
    var l' := Dequeue(l, s);
    var gid := if l.seats[s].gameID in l.games then Some(l.seats[s].gameID) else LeftoverGame(l, s);
    Forget(if gid.Some? && gid.value in l'.games then Leave(l', s, gid.value) else l', s)
  }

  // ---- runs --------------------------------------------------------------------------------

  datatype Event<S> =
    | EConnect(s: S)
    | ELogin(s: S, requested: int, name: string)
    | EQueueMatch(s: S, attrs: Attrs, cap: int, topology: int, now: int)
    | ECancel(s: S, msid: int)
    | EResetDedicated(s: S, attrs: Attrs, cap: int, topology: int, now: int)
    | EFinalize(s: S, gid: int)
    | ESetCapacity(s: S, gid: int, caps: seq<int>)
    | ESetGameAttrs(s: S, gid: int, attrs: Attrs)
    | ESetPlayerAttrs(s: S, gid: int, pid: int, attrs: Attrs, now: int)
    | ERemovePlayer(s: S, gid: int, pid: int)
    | EUpdateMesh(s: S, gid: int, targets: seq<Target>, now: int)
    | EDisconnect(s: S)

  /** Connections are new when accepted and live afterwards; GameManager commands come from
      logged-in sessions, as the retail client sends them; clocks are past the epoch. */
  predicate Enabled<S>(l: Lobby<S>, e: Event<S>)
  {
    match e
    case EConnect(s) => s !in l.ids
    case ELogin(s, _, _) => s in l.ids
    case EDisconnect(s) => s in l.ids
    case EQueueMatch(s, _, _, _, now) => LoggedIn(l, s) && now > 0
    case EResetDedicated(s, _, _, _, now) => LoggedIn(l, s) && now > 0
    case EUpdateMesh(s, _, _, now) => LoggedIn(l, s) && now > 0
    case _ => LoggedIn(l, e.s)
  }

  predicate LoggedIn<S>(l: Lobby<S>, s: S)
  {
    s in l.ids && l.ids[s].personaID != 0
  }

  function Next<S(==)>(l: Lobby<S>, e: Event<S>): Lobby<S>
    requires Enabled(l, e) && l.seats.Keys == l.ids.Keys
  {
    match e
    case EConnect(s) => Connect(l, s)
    case ELogin(s, requested, name) => Login(l, s, requested, name)
    case EQueueMatch(s, attrs, cap, topology, now) => QueueMatch(l, s, attrs, cap, topology, now)
    case ECancel(s, msid) => Cancel(l, s, msid).0
    case EResetDedicated(s, attrs, cap, topology, now) => ResetDedicated(l, s, attrs, cap, topology, now)
    case EFinalize(s, gid) => Finalize(l, s, gid)
    case ESetCapacity(s, gid, caps) => SetCapacity(l, s, gid, caps)
    case ESetGameAttrs(s, gid, attrs) => SetGameAttrs(l, s, gid, attrs)
    case ESetPlayerAttrs(s, gid, pid, attrs, now) => SetPlayerAttrs(l, s, gid, pid, attrs, now)
    case ERemovePlayer(s, gid, pid) => RemovePlayer(l, s, gid, pid)
    case EUpdateMesh(s, gid, targets, now) => UpdateMesh(l, s, gid, targets, now)
    case EDisconnect(s) => Disconnect(l, s)
  }
}
