/** What single steps never do: reuse an id, forget an account, move a staying member to another
    slot, overfill a game, or announce a completion early. */
module LobbyHistory {
  import opened Options
  import opened LobbyModel
  import opened LobbyClient
  import opened LobbyInvariant
  import opened LobbyGames
  import opened LobbyInboxes
  import opened LobbyFrames
  import opened LobbyQueueSteps
  import opened LobbyJoinSteps
  import opened LobbyOpenSteps
  import opened LobbyLeaveSteps
  import opened LobbyRoomSteps
  import opened LobbySessionSteps

  // ---- ids ---------------------------------------------------------------------------------

  /** Counters only grow, a known user keeps its account and persona, and whatever is registered
      was registered before or carries an id not handed out before. */
  ghost predicate History<S>(l: Lobby<S>, l': Lobby<S>)
  {
    && l.nextUser <= l'.nextUser && l.nextSession <= l'.nextSession && l.nextGame <= l'.nextGame && l.nextMatch <= l'.nextMatch
    && (forall p | p in l.users ::
          p in l'.users && l'.users[p].accountID == l.users[p].accountID && l'.users[p].personaID == l.users[p].personaID)
    && (forall k | k in l'.sessions :: (k in l.sessions && l'.sessions[k] == l.sessions[k]) || k >= l.nextSession)
    && (forall k | k in l'.games :: (k in l.games && l'.games[k].host == l.games[k].host) || k >= l.nextGame)
    && (forall r | r in l'.queue :: r in l.queue || r.msid >= l.nextMatch)
  }

  lemma HistoryTransitive<S>(a: Lobby<S>, b: Lobby<S>, c: Lobby<S>)
    requires History(a, b) && History(b, c)
    ensures History(a, c)
  {
  }

  // ---- games -------------------------------------------------------------------------------

  /** A roster stays, loses a member, or gains one within its capacity in a slot no higher than its
      former size; nobody who stays changes slots, and the host stays. */
  ghost predicate Evolves<S>(g: Game<S>, g': Game<S>)
  {
    && g'.host == g.host && g'.capacity == g.capacity
    && (forall p | p in g.slots && p in g'.slots :: g'.slots[p] == g.slots[p])
    && (|| (g'.members == g.members && g'.slots == g.slots)
        || (|g'.members| < |g.members| && g'.slots.Keys <= g.slots.Keys)
        || (&& |g'.members| == |g.members| + 1 <= g'.capacity
            && forall p | p in g'.slots && p !in g.slots :: 0 <= g'.slots[p] <= |g.members|))
  }

  /** A game opens within its capacity, or for a lone creator. */
  ghost predicate OpensWell<S>(g: Game<S>)
  {
    && (|g.members| <= g.capacity || |g.members| == 1)
    && forall p | p in g.slots :: 0 <= g.slots[p] < |g.members|
  }

  ghost predicate GamesEvolve<S>(games: map<int, Game<S>>, games': map<int, Game<S>>)
  {
    forall k | k in games' :: if k in games then Evolves(games[k], games'[k]) else OpensWell(games'[k])
  }

  // ---- mail --------------------------------------------------------------------------------

  /** Mail is only appended, and none of it is a completion. */
  ghost predicate Quiet<S>(inbox: map<S, seq<Note>>, inbox': map<S, seq<Note>>)
  {
    forall x | x in inbox && x in inbox' ::
      && inbox[x] <= inbox'[x]
      && forall k | |inbox[x]| <= k < |inbox'[x]| :: !inbox'[x][k].PlayerJoined?
  }

  predicate Muted(mail: seq<Note>)
  {
    forall k | 0 <= k < |mail| :: !mail[k].PlayerJoined?
  }

  lemma PostQuiet<S>(inbox: map<S, seq<Note>>, mail: map<S, seq<Note>>)
    requires forall x | x in mail :: Muted(mail[x])
    ensures Quiet(inbox, Post(inbox, mail))
  {
    var inbox': map<S, seq<Note>> := Post(inbox, mail);
    forall x, k | x in inbox && |inbox[x]| <= k < |inbox'[x]|
      ensures !inbox'[x][k].PlayerJoined?
    {
      assert x in mail && inbox'[x][k] == mail[x][k - |inbox[x]|];
    }
  }

  lemma {:induction false} AnnouncementsMuted<S>(ids: map<S, Identity>, members: seq<S>, except: S)
    ensures Muted(UserNotesExcept(ids, members, except))
    decreases |members|
  {
    if members != [] {
      AnnouncementsMuted(ids, members[1..], except);
    }
  }

  /** No admission becomes pending. */
  ghost predicate NoAdmission<S>(seats: map<S, Seat>, seats': map<S, Seat>)
  {
    forall x | x in seats && x in seats' :: seats'[x].pending == 0 || seats'[x].pending == seats[x].pending
  }

  // ---- step by step ------------------------------------------------------------------------

  /** The common part of all steps but updateMeshConnection, matchmaking included. */
  ghost predicate Usual<S>(l: Lobby<S>, l': Lobby<S>)
  {
    History(l, l') && GamesEvolve(l.games, l'.games) && Quiet(l.inbox, l'.inbox)
  }

  lemma UsualAfter<S>(l: Lobby<S>, l1: Lobby<S>, l2: Lobby<S>)
    requires History(l, l1) && l1.games == l.games && l1.inbox == l.inbox && Usual(l1, l2)
    ensures Usual(l, l2)
  {
    HistoryTransitive(l, l1, l2);
  }

  lemma DequeueUsual<S>(l: Lobby<S>, s: S)
    requires s in l.seats
    ensures Usual(l, Dequeue(l, s)) && NoAdmission(l.seats, Dequeue(l, s).seats)
  {
    hide RemoveRequests;
    RemoveRequestsElements(l.queue, s);
  }

  lemma ConnectUsual<S>(l: Lobby<S>, s: S)
    requires KeysOk(l) && s !in l.ids
    ensures Usual(l, Connect(l, s)) && NoAdmission(l.seats, Connect(l, s).seats)
  {
  }

  lemma LoginUsual<S>(l: Lobby<S>, s: S, requested: int, name: string)
    requires Inv(l) && s in l.ids
    ensures Usual(l, Login(l, s, requested, name)) && NoAdmission(l.seats, Login(l, s, requested, name).seats)
  {
    hide RegistryOk, GamesOk, SeatsOk, QueueOk, InboxesOk, Authenticate, Post, UserNotes, History, Quiet;
    var l1 := Authenticate(l, s, requested, name);
    LoginHistory(l, s, requested, name);
    LoginNotesMuted(l1.ids, s);
    PostQuiet(l1.inbox, map[s := UserNotes(l1.ids, s)]);
    GamesEvolveSelf(l.games);
  }

  lemma LoginHistory<S>(l: Lobby<S>, s: S, requested: int, name: string)
    requires RegistryOk(l) && s in l.ids
    ensures var l' := Login(l, s, requested, name);
            && History(l, l') && l'.games == l.games && l'.seats == l.seats
            && Authenticate(l, s, requested, name).inbox == l.inbox && Authenticate(l, s, requested, name).games == l.games
  {
    hide FreshPersona, Post, PersonaName, UserNotes, IdentityOk;
  }

  lemma LoginNotesMuted<S>(ids: map<S, Identity>, s: S)
    ensures Muted(UserNotes(ids, s))
  {
  }

  lemma ForgetUsual<S>(l: Lobby<S>, s: S)
    requires s in l.ids
    ensures Usual(l, Forget(l, s)) && NoAdmission(l.seats, Forget(l, s).seats)
  {
  }

  lemma LeaveUsual<S>(l: Lobby<S>, t: S, gid: int)
    requires LeaveReady(l, t, gid)
    ensures Usual(l, Leave(l, t, gid)) && NoAdmission(l.seats, Leave(l, t, gid).seats)
  {
    hide Inv, Leave, LeaveMail, Refresh, RemoveMember, GameOk, Pid, Without, Pids;
    LeaveShape(l, t, gid);
    LeaveMailQuiet(l, t, gid);
    InvGames(l, gid);
    var g := l.games[gid];
    if t != g.host {
      RemoveKeeps(g, l.ids, t);
      Distinct(g, l.ids);
      WithoutSpec(l.ids, g.members, t);
    }
  }

  lemma InvGames<S>(l: Lobby<S>, gid: int)
    requires Inv(l) && gid in l.games
    ensures GameOk(l.games[gid], l.ids) && l.games[gid].id == gid && 0 < gid < l.nextGame
  {
    hide GameOk;
  }

  lemma LeaveMailQuiet<S>(l: Lobby<S>, t: S, gid: int)
    requires LeaveReady(l, t, gid)
    ensures Quiet(l.inbox, Leave(l, t, gid).inbox)
  {
    hide RegistryOk, GamesOk, SeatsOk, QueueOk, InboxesOk, Leave, Refresh, RemoveMember;
    LeaveShape(l, t, gid);
  }

  lemma JoinUsual<S>(l: Lobby<S>, r: Request<S>, gid: int, now: int)
    requires Inv(l) && Free(l, r.session) && Compatible(l, r, gid) && now > 0
    ensures var games := JoinedGames(l, r.session, gid, OpenSlot(l, gid), now);
            gid in games && Usual(l, Join(l, r.session, games, gid))
  {
    hide Inv, CompatibleGame, Unqueued, LoggedIn, OpenSlot, GamesEvolve, Join, Joined, Quiet, History;
    var games := JoinedGames(l, r.session, gid, OpenSlot(l, gid), now);
    JoinEvolves(l, r, gid, now);
    JoinQuiet(l, r.session, games, gid);
    JoinHistory(l, r.session, games, gid);
    JoinTakes(l, r.session, games, gid);
  }

  lemma JoinTakes<S>(l: Lobby<S>, s: S, games: map<int, Game<S>>, gid: int)
    requires gid in games && s in l.seats
    ensures Join(l, s, games, gid).games == games
  {
  }

  lemma JoinHistory<S>(l: Lobby<S>, s: S, games: map<int, Game<S>>, gid: int)
    requires gid in games && s in l.seats
    requires forall k | k in games :: k in l.games && games[k].host == l.games[k].host
    ensures History(l, Join(l, s, games, gid))
  {
    hide Post, UserNotes, UserNotesExcept, SetupNote;
  }

  lemma JoinEvolves<S>(l: Lobby<S>, r: Request<S>, gid: int, now: int)
    requires Inv(l) && Free(l, r.session) && Compatible(l, r, gid) && now > 0
    ensures var games := JoinedGames(l, r.session, gid, OpenSlot(l, gid), now);
            GamesEvolve(l.games, games) && forall k | k in games :: k in l.games && games[k].host == l.games[k].host
  {
    hide Inv, CompatibleGame, Unqueued, OpenSlot;
    CompatibleAccepts(l, r, now, gid);
    NotIn(l, r.session, gid);
  }

  lemma NotIn<S>(l: Lobby<S>, s: S, gid: int)
    requires Inv(l) && Free(l, s) && gid in l.games
    ensures Pid(l.ids, s) !in l.games[gid].slots
  {
    hide RegistryOk, GamesOk, SeatsOk, QueueOk, InboxesOk, GameOk, Pids, Pid, Unqueued;
    SlotsAreTables(l, gid);
    FreeIsNoMember(l, s, gid);
  }

  lemma JoinQuiet<S>(l: Lobby<S>, s: S, games: map<int, Game<S>>, gid: int)
    requires gid in games && s in l.seats
    ensures Quiet(l.inbox, Join(l, s, games, gid).inbox)
  {
    var g := games[gid];
    LoginNotesMuted(l.ids, s);
    AnnouncementsMuted(l.ids, g.members, s);
    SetupMuted(g, l.ids);
    hide Post, UserNotes, UserNotesExcept, SetupNote, Pid, Quiet;
    PostQuiet(l.inbox, JoiningMail(g, l.ids, s)[s := UserNotesExcept(l.ids, g.members, s) + [SetupNote(g, l.ids)]]);
  }

  lemma SetupMuted<S>(g: Game<S>, ids: map<S, Identity>)
    ensures !SetupNote(g, ids).PlayerJoined?
  {
  }

  lemma HostUsual<S>(l: Lobby<S>, s: S, attrs: Attrs, cap: int, topology: int, now: int)
    requires Inv(l) && Free(l, s) && now > 0
    ensures Usual(l, Host(l, s, attrs, cap, topology, now)) && NoAdmission(l.seats, Host(l, s, attrs, cap, topology, now).seats)
  {
    hide Inv, NewGame, GameOk, Unqueued, SetupNote;
    InvParts(l, s);
    NewGameOne(l.ids, l.nextGame, s, attrs, cap, topology, now);
    var g := NewGame(l.ids, l.nextGame, s, [s], attrs, cap, topology, now);
    SetupMuted(g, l.ids);
    hide Post;
    PostQuiet(l.inbox, map[s := [SetupNote(g, l.ids)]]);
  }

  lemma InvParts<S>(l: Lobby<S>, s: S)
    requires Inv(l) && LoggedIn(l, s)
    ensures Pid(l.ids, s) > 0 && s in l.seats && l.nextGame !in l.games
  {
    hide GamesOk, SeatsOk, QueueOk, InboxesOk, RegistryOk;
    PositivePid(l, s);
    NoSuchGame(l);
  }

  lemma PairUsual<S>(l: Lobby<S>, i: nat, r: Request<S>, now: int)
    requires PairReady(l, i, r, now)
    ensures Usual(l, Pair(l, i, r, now))
  {
    PairParties(l, i, r, now);
    InvParts(l, r.session);
    hide Inv, PairReady, GamesEvolve, Pair, Quiet, History, LoggedIn, Free, Pid;
    PairEvolves(l, i, r, now);
    PairQuiet(l, i, r, now);
    PairHistory(l, i, r, now);
  }

  lemma PairEvolves<S>(l: Lobby<S>, i: nat, r: Request<S>, now: int)
    requires PairReady(l, i, r, now)
    ensures GamesEvolve(l.games, Pair(l, i, r, now).games)
  {
    hide RegistryOk, GamesOk, SeatsOk, QueueOk, InboxesOk, NewGame, GameOk, Unqueued, SetupNote, UserNotes, Post, Pid, LoggedIn, OpensWell;
    var q := l.queue[i];
    PairParties(l, i, r, now);
    InvParts(l, r.session);
    PairOpensWell(l.ids, l.nextGame, q, r.session, now);
    GamesEvolveSelf(l.games);
  }

  lemma GamesEvolveSelf<S>(games: map<int, Game<S>>)
    ensures GamesEvolve(games, games)
  {
  }

  lemma PairOpensWell<S>(ids: map<S, Identity>, gid: int, q: Request<S>, s: S, now: int)
    requires q.session in ids && Pid(ids, q.session) > 0 && s in ids && Pid(ids, s) > 0 && now != 0
    requires q.session != s && Pid(ids, q.session) != Pid(ids, s) && q.cap >= 2
    ensures OpensWell(NewGame(ids, gid, q.session, [q.session, s], q.attrs, q.cap, q.topology, now))
  {
    hide NewGame, GameOk, Pid;
    NewGameTwo(ids, gid, q.session, s, q.attrs, q.cap, q.topology, now);
  }

  lemma PairQuiet<S>(l: Lobby<S>, i: nat, r: Request<S>, now: int)
    requires i < |l.queue|
    ensures Quiet(l.inbox, Pair(l, i, r, now).inbox)
  {
    var q, s := l.queue[i], r.session;
    var g := NewGame(l.ids, l.nextGame, q.session, [q.session, s], q.attrs, q.cap, q.topology, now);
    SetupMuted(g, l.ids);
    LoginNotesMuted(l.ids, q.session);
    LoginNotesMuted(l.ids, s);
    hide Post, NewGame, SetupNote, UserNotes, Quiet;
    PostQuiet(l.inbox, map[q.session := UserNotes(l.ids, s) + [SetupNote(g, l.ids)], s := UserNotes(l.ids, q.session) + [SetupNote(g, l.ids)]]);
  }

  lemma PairHistory<S>(l: Lobby<S>, i: nat, r: Request<S>, now: int)
    requires i < |l.queue|
    ensures History(l, Pair(l, i, r, now))
  {
    hide Post, NewGame, SetupNote, UserNotes;
  }

  /** The two sessions of a pairing are different logged-in users. */
  lemma PairParties<S>(l: Lobby<S>, i: nat, r: Request<S>, now: int)
    requires PairReady(l, i, r, now)
    ensures var h := l.queue[i].session;
            && h in l.seats && LoggedIn(l, h) && h != r.session
            && Pid(l.ids, h) > 0 && Pid(l.ids, r.session) > 0 && Pid(l.ids, h) != Pid(l.ids, r.session)
  {
    hide RegistryOk, GamesOk, InboxesOk, CompatibleMatch, SeatsOk, QueueOk, Dequeue, Unqueued;
    var h := l.queue[i].session;
    PairDequeues(l, i);
    SameIds(l, h);
    PositivePid(l, h);
    PositivePid(l, r.session);
    DifferentPids(l, h, r.session);
  }

  lemma SameIds<S>(l: Lobby<S>, s: S)
    requires s in l.seats
    ensures Dequeue(l, s).ids == l.ids
  {
  }

  lemma EnqueueUsual<S>(l: Lobby<S>, r: Request<S>)
    requires r.session in l.seats
    ensures GamesEvolve(l.games, Enqueue(l, r).games) && Quiet(l.inbox, Enqueue(l, r).inbox)
  {
  }

  lemma FinalizeUsual<S>(l: Lobby<S>, s: S, gid: int)
    requires s in l.seats
    ensures Usual(l, Finalize(l, s, gid)) && NoAdmission(l.seats, Finalize(l, s, gid).seats)
  {
    FinalizeHistory(l, s, gid);
    hide Post, Quiet, History;
    var seat := l.seats[s];
    var target := FinalizeTarget(seat, gid);
    PostQuiet(l.inbox, map[s := [PlatformHost(target)]]);
    NoMail(l.inbox);
  }

  lemma FinalizeHistory<S>(l: Lobby<S>, s: S, gid: int)
    requires s in l.seats
    ensures History(l, Finalize(l, s, gid))
  {
    hide Post;
  }

  lemma NoMail<S>(inbox: map<S, seq<Note>>)
    ensures Quiet(inbox, inbox)
  {
  }

  /** The games, with the capacity an event sets. */
  function Resized<S>(l: Lobby<S>, e: Event<S>): map<int, Game<S>>
  {
    if e.ESetCapacity? && e.gid in l.games && e.caps != [] then l.games[e.gid := l.games[e.gid].(capacity := e.caps[0])]
    else l.games
  }

  lemma SetCapacityUsual<S>(l: Lobby<S>, s: S, gid: int, caps: seq<int>)
    ensures var l' := SetCapacity(l, s, gid, caps);
            && History(l, l') && GamesEvolve(Resized(l, ESetCapacity(s, gid, caps)), l'.games) && Quiet(l.inbox, l'.inbox)
            && l'.seats == l.seats
  {
    hide Broadcast, Post, Quiet;
    BroadcastMuted(l, s, gid, GameCapacity(gid, caps));
  }

  lemma SetGameAttrsUsual<S>(l: Lobby<S>, s: S, gid: int, attrs: Attrs)
    ensures Usual(l, SetGameAttrs(l, s, gid, attrs)) && SetGameAttrs(l, s, gid, attrs).seats == l.seats
  {
    hide Broadcast, Post, Quiet;
    BroadcastMuted(l, s, gid, GameAttributes(gid, attrs));
  }

  lemma BroadcastMuted<S>(l: Lobby<S>, s: S, gid: int, n: Note)
    requires !n.PlayerJoined?
    ensures Quiet(l.inbox, Post(l.inbox, Broadcast(l, s, gid, n)))
  {
    hide Post;
    PostQuiet(l.inbox, Broadcast(l, s, gid, n));
  }

  // ---- whole handlers ----------------------------------------------------------------------

  lemma DisconnectUsual<S>(l: Lobby<S>, s: S)
    requires Inv(l) && s in l.ids
    ensures Usual(l, Disconnect(l, s)) && NoAdmission(l.seats, Disconnect(l, s).seats)
  {
    hide RegistryOk, GamesOk, SeatsOk, QueueOk, InboxesOk, Forget, Leave, Dequeue, Disconnect, History, GamesEvolve, Quiet, NoAdmission, LeftoverGame;
    DisconnectIs(l, s);
    var l1 := Dequeue(l, s);
    DequeueKeeps(l, s);
    DequeueUsual(l, s);
    DequeueGames(l, s);
    if l.seats[s].gameID != 0 {
      SeatedIn(l, s);
      LeaveUsual(l1, s, l.seats[s].gameID);
      LeaveFrees(l1, s, l.seats[s].gameID);
      ForgetUsual(Leave(l1, s, l.seats[s].gameID), s);
      UsualInbox(l, s);
      UsualForgotten(l, l1, Leave(l1, s, l.seats[s].gameID), s);
    } else {
      ForgetUsual(l1, s);
      UsualInbox(l, s);
      UsualForgotten(l, l1, l1, s);
    }
  }

  lemma UsualInbox<S>(l: Lobby<S>, s: S)
    requires s in l.seats
    ensures Dequeue(l, s).inbox == l.inbox && Dequeue(l, s).games == l.games
  {
    hide RemoveRequests;
  }

  lemma UsualForgotten<S>(l: Lobby<S>, l1: Lobby<S>, l2: Lobby<S>, s: S)
    requires History(l, l1) && l1.games == l.games && l1.inbox == l.inbox && NoAdmission(l.seats, l1.seats)
    requires l1 == l2 || (Usual(l1, l2) && NoAdmission(l1.seats, l2.seats) && l2.seats.Keys == l1.seats.Keys)
    requires s in l2.ids && Usual(l2, Forget(l2, s)) && l1.seats.Keys == l.seats.Keys
    ensures Usual(l, Forget(l2, s)) && NoAdmission(l.seats, Forget(l2, s).seats)
  {
    HistoryTransitive(l, l1, l2);
    HistoryTransitive(l, l2, Forget(l2, s));
  }

  lemma RemovePlayerUsual<S>(l: Lobby<S>, s: S, gid: int, pid: int)
    requires Inv(l) && LoggedIn(l, s)
    ensures Usual(l, RemovePlayer(l, s, gid, pid)) && NoAdmission(l.seats, RemovePlayer(l, s, gid, pid).seats)
  {
    hide RegistryOk, GamesOk, SeatsOk, QueueOk, InboxesOk, GameOk, AllowedTarget, Leave, Dequeue, Post, Pids, Pid, History, GamesEvolve, Quiet, NoAdmission;
    SameUsual(l, l.inbox);
    if gid !in l.games {
      PostQuiet(l.inbox, map[s := [PlayerRemoved(gid, pid)]]);
      SameUsual(l, Post(l.inbox, map[s := [PlayerRemoved(gid, pid)]]));
    } else {
      AllowedTargetExact(l, s, gid, pid);
      var target := AllowedTarget(l, s, gid, pid);
      if target.Some? {
        var t := target.value;
        MemberSeat(l, gid, t);
        DequeueKeeps(l, t);
        DequeueGames(l, t);
        DequeueUsual(l, t);
        UsualInbox(l, t);
        LeaveUsual(Dequeue(l, t), t, gid);
        UsualAfter(l, Dequeue(l, t), Leave(Dequeue(l, t), t, gid));
        NoAdmissionTransitive(l.seats, Dequeue(l, t).seats, Leave(Dequeue(l, t), t, gid).seats);
      }
    }
  }

  lemma SameUsual<S>(l: Lobby<S>, inbox: map<S, seq<Note>>)
    requires Quiet(l.inbox, inbox) || inbox == l.inbox
    ensures Usual(l, l.(inbox := inbox)) && NoAdmission(l.seats, l.seats)
    ensures l.(inbox := l.inbox) == l
  {
  }

  lemma NoAdmissionTransitive<S>(a: map<S, Seat>, b: map<S, Seat>, c: map<S, Seat>)
    requires NoAdmission(a, b) && NoAdmission(b, c) && a.Keys == b.Keys
    ensures NoAdmission(a, c)
  {
  }

  lemma CancelUsual<S>(l: Lobby<S>, s: S, msid: int)
    requires Inv(l) && s in l.seats
    ensures Usual(l, Cancel(l, s, msid).0) && NoAdmission(l.seats, Cancel(l, s, msid).0.seats)
  {
    hide Inv, Cancel, Dequeue, Usual, NoAdmission, Quiet, GamesEvolve, History;
    CancelIsDequeue(l, s, msid);
    DequeueUsual(l, s);
    SameUsual(l, l.inbox);
  }

  lemma ResetDedicatedUsual<S>(l: Lobby<S>, s: S, attrs: Attrs, cap: int, topology: int, now: int)
    requires Inv(l) && LoggedIn(l, s) && now > 0
    ensures s in l.seats
    ensures var l' := ResetDedicated(l, s, attrs, cap, topology, now);
            Usual(l, l') && NoAdmission(l.seats, l'.seats)
  {
    hide RegistryOk, GamesOk, SeatsOk, QueueOk, InboxesOk, Host, Restart, Playing, Free, Dequeue, History, GamesEvolve, Quiet, NoAdmission;
    PlayingExact(l, s);
    SameUsual(l, l.inbox);
    if !Playing(l, s) {
      RestartFrees(l, s);
      DequeueUsual(l, s);
      UsualInbox(l, s);
      var l1 := Dequeue(l, s);
      HostUsual(l1, s, attrs, cap, topology, now);
      UsualAfter(l, l1, Host(l1, s, attrs, cap, topology, now));
      DequeueGames(l, s);
      NoAdmissionTransitive(l.seats, l1.seats, Host(l1, s, attrs, cap, topology, now).seats);
    }
  }

  lemma QueueMatchUsual<S>(l: Lobby<S>, s: S, attrs: Attrs, cap: int, topology: int, now: int)
    requires Inv(l) && LoggedIn(l, s) && now > 0
    ensures s in l.seats && Usual(l, QueueMatch(l, s, attrs, cap, topology, now))
  {
    hide RegistryOk, GamesOk, SeatsOk, QueueOk, InboxesOk, PlaceRequest, Restart, Playing, Free, Dequeue, History, GamesEvolve, Quiet;
    var l1 := l.(nextMatch := l.nextMatch + 1);
    SpendMatchKeeps(l);
    PlayingExact(l1, s);
    SpendHistory(l);
    if l.seats[s].gameID == 0 {
      RestartFrees(l1, s);
      var l2 := Dequeue(l1, s);
      DequeueUsual(l1, s);
      UsualInbox(l1, s);
      HistoryTransitive(l, l1, l2);
      QueueBelow(l, s);
      PlaceRequestUsual(l, l2, Request(s, attrs, cap, topology, l.nextMatch), now);
    }
  }

  lemma SpendHistory<S>(l: Lobby<S>)
    ensures Usual(l, l.(nextMatch := l.nextMatch + 1))
  {
  }

  lemma PlaceRequestUsual<S>(l0: Lobby<S>, l: Lobby<S>, r: Request<S>, now: int)
    requires Inv(l) && Free(l, r.session) && now > 0 && r.msid == l0.nextMatch < l.nextMatch
    requires History(l0, l) && l.games == l0.games && l.inbox == l0.inbox
    ensures Usual(l0, PlaceRequest(l, r, now))
  {
    hide Inv, ScanGames, Join, JoinedGames, Pair, Enqueue, FirstMatch, OpenSlot, CompatibleMatch, CompatibleGame, Unqueued, LoggedIn;
    hide History, GamesEvolve, Quiet;
    ScanSpec(l, r, now, l.games.Keys);
    var scan := ScanGames(l.games, l.ids, r, now, l.games.Keys);
    if scan.joined.Some? {
      var gid := scan.joined.value;
      JoinUsual(l, r, gid, now);
      UsualAfter(l0, l, Join(l, r.session, scan.games, gid));
    } else {
      assert l.(games := scan.games) == l;
      FirstMatchSpec(l.queue, r);
      var i := FirstMatch(l.queue, r);
      if i < |l.queue| {
        MatchedCap(l.queue[i], r);
        PairUsual(l, i, r, now);
        UsualAfter(l0, l, Pair(l, i, r, now));
      } else {
        EnqueueUsual(l, r);
        EnqueueHistory(l0, l, r);
      }
    }
  }

  lemma EnqueueHistory<S>(l0: Lobby<S>, l: Lobby<S>, r: Request<S>)
    requires History(l0, l) && r.session in l.seats && r.msid == l0.nextMatch
    ensures History(l0, Enqueue(l, r))
  {
  }

  lemma SetPlayerAttrsUsual<S>(l: Lobby<S>, s: S, gid: int, pid: int, attrs: Attrs, now: int)
    requires Inv(l) && LoggedIn(l, s)
    ensures var l' := SetPlayerAttrs(l, s, gid, pid, attrs, now);
            Usual(l, l') && NoAdmission(l.seats, l'.seats)
  {
    hide Inv, AllowedTarget, Broadcast, Post, Quiet, EnsureMembership, GameOk, LoggedIn, History, GamesEvolve, NoAdmission, MergeAttrs;
    var mail := Post(l.inbox, Broadcast(l, s, gid, PlayerAttributes(gid, pid, attrs)));
    BroadcastMuted(l, s, gid, PlayerAttributes(gid, pid, attrs));
    SameUsual(l, l.inbox);
    SameUsual(l, mail);
    if gid in l.games && AllowedTarget(l, s, gid, pid).Some? {
      PlayerAttrsGame(l, s, gid, pid, attrs, now);
      MergeUsual(l, gid, pid, attrs, mail);
    }
  }

  lemma MergeUsual<S>(l: Lobby<S>, gid: int, p: int, attrs: Attrs, inbox: map<S, seq<Note>>)
    requires gid in l.games && Quiet(l.inbox, inbox)
    ensures Usual(l, l.(games := l.games[gid := MergeAttrs(l.games[gid], p, attrs)], inbox := inbox))
  {
    hide Quiet;
  }

  // ---- completions -------------------------------------------------------------------------

  /** Mail is appended, every completion in it is of a member of `gid` that was pending, is pending
      no more, and is linked both ways with every other member, and no player is completed twice. */
  ghost predicate CompletesOnly<S>(l: Lobby<S>, l': Lobby<S>, gid: int)
  {
    forall x | x in l.inbox && x in l'.inbox ::
      && l.inbox[x] <= l'.inbox[x]
      && forall k | |l.inbox[x]| <= k < |l'.inbox[x]| && l'.inbox[x][k].PlayerJoined? ::
           && l'.inbox[x][k].gid == gid
           && (exists m :: m in l.seats && Finishes(l, l', gid, m, l'.inbox[x][k].pid))
           && forall j | k < j < |l'.inbox[x]| && l'.inbox[x][j].PlayerJoined? :: l'.inbox[x][j].pid != l'.inbox[x][k].pid
  }

  ghost predicate Finishes<S>(l: Lobby<S>, l': Lobby<S>, gid: int, m: S, p: int)
  {
    && gid in l'.games && m in l'.games[gid].members && Pid(l'.ids, m) == p
    && m in l.seats && l.seats[m].pending == gid
    && m in l'.seats && l'.seats[m].pending == 0
    && forall q | q in Pids(l'.ids, l'.games[gid].members) && q != p :: Linked(l'.games[gid].mesh, p, q)
  }

  /** After a report that set an edge, a member's cached readiness is that of the full mesh. */
  lemma ReportedReady<S>(l: Lobby<S>, s: S, gid: int, targets: seq<Target>, m: S)
    requires Inv(l) && gid in l.games && s in l.games[gid].members && m in l.games[gid].members
    requires var (g', changed) := MeshReport(l.games[gid], l.ids, s, targets);
             changed && Pid(l.ids, m) in g'.meshReady && g'.meshReady[Pid(l.ids, m)]
    ensures var (g', changed) := MeshReport(l.games[gid], l.ids, s, targets);
            && g'.members == l.games[gid].members && g'.id == gid
            && forall q | q in Pids(l.ids, g'.members) && q != Pid(l.ids, m) :: Linked(g'.mesh, Pid(l.ids, m), q)
  {
    hide RegistryOk, GamesOk, SeatsOk, QueueOk, InboxesOk, MeshReport, Pids, Pid, Linked, RosterOk, HostFirst;
    SlotsAreTables(l, gid);
    MeshReportKeeps(l.games[gid], l.ids, s, targets);
  }

  lemma UpdateMeshHistory<S>(l: Lobby<S>, s: S, gid: int, targets: seq<Target>, now: int)
    requires Inv(l)
    ensures var l' := UpdateMesh(l, s, gid, targets, now);
            History(l, l') && GamesEvolve(l.games, l'.games) && NoAdmission(l.seats, l'.seats)
  {
    hide RegistryOk, GamesOk, SeatsOk, QueueOk, InboxesOk, GameOk, Complete, MeshReport, EnsureMembership, MemberFor, Pid, Pids;
    NoAdmissionSelf(l.seats);
    GamesEvolveSelf(l.games);
    if gid in l.games && MemberFor(l.ids, l.games[gid].members, Pid(l.ids, s)) == Some(s) {
      var g := l.games[gid];
      SlotsAreTables(l, gid);
      Distinct(g, l.ids);
      MemberForExact(l.ids, g.members, Pid(l.ids, s));
      Idle(g, l.ids, now);
      MeshReportKeeps(g, l.ids, s, targets);
      CompletedShape(l.(games := l.games[gid := MeshReport(g, l.ids, s, targets).0]), gid);
    }
  }

  lemma NoAdmissionSelf<S>(seats: map<S, Seat>)
    ensures NoAdmission(seats, seats)
  {
  }

  lemma CompletedShape<S>(l: Lobby<S>, gid: int)
    requires gid in l.games
    ensures var l' := Complete(l, gid);
            NoAdmission(l.seats, l'.seats) && l' == l.(seats := l'.seats, inbox := l'.inbox)
  {
    hide Post, Completed;
  }

  lemma UpdateMeshCompletes<S>(l: Lobby<S>, s: S, gid: int, targets: seq<Target>, now: int)
    requires Inv(l)
    ensures CompletesOnly(l, UpdateMesh(l, s, gid, targets, now), gid)
  {
    hide RegistryOk, GamesOk, SeatsOk, QueueOk, InboxesOk, GameOk, Complete, MeshReport, EnsureMembership, MemberFor, Pid, Pids, Finishes;
    if gid in l.games && MemberFor(l.ids, l.games[gid].members, Pid(l.ids, s)) == Some(s) {
      var g := l.games[gid];
      SlotsAreTables(l, gid);
      Distinct(g, l.ids);
      MemberForExact(l.ids, g.members, Pid(l.ids, s));
      Idle(g, l.ids, now);
      MeshReportKeeps(g, l.ids, s, targets);
      var (g', changed) := MeshReport(g, l.ids, s, targets);
      ReplaceKeeps(l, gid, g');
      if changed {
        CompletesWell(l, s, gid, targets);
      }
    }
  }

  lemma CompletesWell<S>(l: Lobby<S>, s: S, gid: int, targets: seq<Target>)
    requires Inv(l) && gid in l.games && s in l.games[gid].members
    requires MeshReport(l.games[gid], l.ids, s, targets).1
    requires Inv(l.(games := l.games[gid := MeshReport(l.games[gid], l.ids, s, targets).0]))
    ensures var l1 := l.(games := l.games[gid := MeshReport(l.games[gid], l.ids, s, targets).0]);
            CompletesOnly(l, Complete(l1, gid), gid)
  {
    hide Inv, GameOk, Complete, MeshReport, Pid, Pids, Finishes, DueMembers, JoinedNotes, MembersDistinct;
    var l1 := l.(games := l.games[gid := MeshReport(l.games[gid], l.ids, s, targets).0]);
    var l' := Complete(l1, gid);
    CompleteShape(l1, gid);
    var done := DueMembers(l1, gid);
    DueFacts(l1, gid);
    forall i | 0 <= i < |done|
      ensures exists m :: m in l.seats && Finishes(l, l', gid, m, Pid(l.ids, done[i]))
    {
      DueFinishes(l, s, gid, targets, done[i]);
      assert done[i] in l.seats && Finishes(l, l', gid, done[i], Pid(l.ids, done[i]));
    }
    JoinedNotesAre(gid, l.ids, done);
    KeysSame(l);
    forall x, k | x in l.inbox && x in l'.inbox && |l.inbox[x]| <= k < |l'.inbox[x]| && l'.inbox[x][k].PlayerJoined?
      ensures l'.inbox[x][k].gid == gid && exists m :: m in l.seats && Finishes(l, l', gid, m, l'.inbox[x][k].pid)
      ensures forall j | k < j < |l'.inbox[x]| && l'.inbox[x][j].PlayerJoined? :: l'.inbox[x][j].pid != l'.inbox[x][k].pid
    {
      assert l'.inbox[x][k] == JoinedNotes(gid, l.ids, done)[k - |l.inbox[x]|];
      forall j | k < j < |l'.inbox[x]| && l'.inbox[x][j].PlayerJoined?
        ensures l'.inbox[x][j].pid != l'.inbox[x][k].pid
      {
        assert l'.inbox[x][j] == JoinedNotes(gid, l.ids, done)[j - |l.inbox[x]|];
        DistinctAt(l.ids, done, k - |l.inbox[x]|, j - |l.inbox[x]|);
      }
    }
  }

  lemma DistinctAt<S>(ids: map<S, Identity>, members: seq<S>, i: nat, j: nat)
    requires MembersDistinct(ids, members) && i < j < |members|
    ensures Pid(ids, members[i]) != Pid(ids, members[j])
  {
  }

  lemma KeysSame<S>(l: Lobby<S>)
    requires Inv(l)
    ensures KeysOk(l)
  {
  }

  lemma JoinedNotesAre<S>(gid: int, ids: map<S, Identity>, done: seq<S>)
    ensures |JoinedNotes(gid, ids, done)| == |done|
    ensures forall i | 0 <= i < |done| :: JoinedNotes(gid, ids, done)[i] == PlayerJoined(gid, Pid(ids, done[i]))
  {
  }

  lemma DueFinishes<S>(l: Lobby<S>, s: S, gid: int, targets: seq<Target>, m: S)
    requires Inv(l) && gid in l.games && s in l.games[gid].members
    requires MeshReport(l.games[gid], l.ids, s, targets).1
    requires Inv(l.(games := l.games[gid := MeshReport(l.games[gid], l.ids, s, targets).0]))
    requires m in DueMembers(l.(games := l.games[gid := MeshReport(l.games[gid], l.ids, s, targets).0]), gid)
    ensures var l1 := l.(games := l.games[gid := MeshReport(l.games[gid], l.ids, s, targets).0]);
            m in l.seats && Finishes(l, Complete(l1, gid), gid, m, Pid(l.ids, m))
  {
    hide RegistryOk, GamesOk, SeatsOk, QueueOk, InboxesOk, GameOk, Complete, MeshReport, Pid, Pids, Linked, Completed, JoinedNotes, MembersDistinct;
    var l1 := l.(games := l.games[gid := MeshReport(l.games[gid], l.ids, s, targets).0]);
    CompleteShape(l1, gid);
    SlotsAreTables(l1, gid);
    Distinct(l1.games[gid], l1.ids);
    SlotsAreTables(l, gid);
    MeshReportKeeps(l.games[gid], l.ids, s, targets);
    CompletedSpec(l1.games[gid], l1.ids, l1.seats, l1.games[gid].members);
    MemberSeat(l1, gid, m);
    ReportedReady(l, s, gid, targets, m);
  }
}
