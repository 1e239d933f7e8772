/** The lobby server: its registries and queue, and the handlers that change them in place. Each
    handler is proved to take exactly its step of LobbyModel. A handler, its notifications and the
    flush that follows it are one method. */
module LobbyServer {
  import IntSets
  import opened Options
  import opened LobbyModel
  import opened LobbyInvariant
  import opened LobbyObjects
  import opened LobbyGames
  import opened LobbyQueueSteps
  import opened LobbyJoinSteps
  import opened LobbyLeaveSteps
  import opened LobbyRoomSteps
  import opened LobbySessionSteps
  import opened LobbyHistory
  import opened LobbyOutcomes
  import opened LobbyRuns

  class Server {
    var users: map<int, User>
    var sessions: map<int, Session>
    var activePersonas: map<int, Session>
    var games: map<int, LiveGame>
    var matchQueue: seq<Request<Session>>
    var nextUserID: int
    var nextSessionID: int
    var nextGameID: int
    var nextMatchID: int
    /** The connections being served. */
    ghost var connections: set<Session>

    constructor ()
      ensures Valid() && Abs() == New() && connections == {}
    {
      users, sessions, activePersonas, games, matchQueue := map[], map[], map[], map[], [];
      nextUserID, nextSessionID, nextGameID, nextMatchID := 1, 1, 1, 1;
      connections := {};
    }

    // ---- the abstract lobby --------------------------------------------------------------------

    ghost function Ids(): map<Session, Identity>
      reads this`connections, connections`accountID, connections`personaID, connections`sessionID, connections`persona
    {
      IdsOf(connections)
    }

    ghost function Seats(): map<Session, Seat>
      reads this`connections, connections`gameID, connections`pending, connections`queuedMatch
    {
      map s | s in connections :: s.Place()
    }

    ghost function Inboxes(): map<Session, seq<Note>>
      reads this`connections, connections`outbound, connections`notifications
    {
      map s | s in connections :: s.Mail()
    }

    ghost function Games(): map<int, Game<Session>>
      reads this`games, games.Values
    {
      map gid | gid in games :: games[gid].Value()
    }

    ghost function Abs(): Lobby<Session>
      reads this, connections, games.Values
    {
      Lobby(Ids(), Seats(), Inboxes(), users, sessions, activePersonas, Games(), matchQueue,
            nextUserID, nextSessionID, nextGameID, nextMatchID)
    }

    /** Between handlers nothing waits, no served connection is closed, and games are separate objects. */
    ghost predicate Valid()
      reads this, connections
    {
      && Settled(connections)
      && (forall a, b | a in games && b in games && a != b :: games[a] != games[b])
    }

    // ---- accepting and logging in --------------------------------------------------------------

    /** serveConn: a connection is accepted. */
    method Accept() returns (s: Session)
      requires Valid()
      modifies this`connections
      ensures Valid() && fresh(s) && connections == old(connections) + {s}
      ensures Abs() == Connect<Session>(old(Abs()), s)
    {
      s := new Session();
      assert Abs() == old(Abs()) by { hide Ids, Seats, Inboxes, Games; }
      hide Ids, Seats, Inboxes, Games;
      Admit(s);
    }

    method Admit(s: Session)
      requires Valid() && s !in connections
      requires s.Who() == Identity(0, 0, 0, "") && s.Place() == IDLE && s.notifications == [] && s.outbound == [] && !s.closed
      modifies this`connections
      ensures Valid() && connections == old(connections) + {s}
      ensures Abs() == Connect<Session>(old(Abs()), s)
    {
      ghost var l := Abs();
      KnowsAll();
      hide Ids, Seats, Inboxes, Games;
      connections := connections + {s};
      Arrived(l, s);
    }

    lemma KnowsAll()
      ensures Ids().Keys == Seats().Keys == Inboxes().Keys == connections
      ensures forall x | x in connections :: Ids()[x] == x.Who() && Seats()[x] == x.Place() && Inboxes()[x] == x.Mail()
    {
    }

    lemma Arrived(l: Lobby<Session>, s: Session)
      requires s in connections && s !in l.ids && l.ids.Keys == l.seats.Keys == l.inbox.Keys == connections - {s}
      requires s.Who() == Identity(0, 0, 0, "") && s.Place() == IDLE && s.Mail() == []
      requires forall x | x in l.ids :: l.ids[x] == x.Who() && l.seats[x] == x.Place() && l.inbox[x] == x.Mail()
      ensures Ids() == Connect<Session>(l, s).ids && Seats() == Connect<Session>(l, s).seats && Inboxes() == Connect<Session>(l, s).inbox
    {
      assert Ids() == Connect<Session>(l, s).ids;
      assert Seats() == Connect<Session>(l, s).seats;
      assert Inboxes() == Connect<Session>(l, s).inbox;
    }

    /** authenticateSessionNamed's collision loop. */
    method FreePersona() returns (p: int)
      ensures p == FreshPersona(Abs(), nextUserID)
    {
      p := nextUserID;
      ghost var l := Abs();
      ghost var keys := l.active.Keys + l.users.Keys;
      while p in activePersonas || (p in users && users[p].personaID != 0)
        invariant FreshPersona(l, p) == FreshPersona(l, nextUserID)
        decreases |set q | q in keys && q >= p|
      {
        assert PersonaTaken(l, p);
        assert (set q | q in keys && q >= p) == (set q | q in keys && q >= p + 1) + {p};
        p := p + 1;
      }
      assert !PersonaTaken(l, p);
    }

    /** authenticateSessionNamed */
    method Authenticate(s: Session, requested: int, name: string)
      requires Valid() && s in connections
      modifies this`users, this`sessions, this`activePersonas, this`nextUserID, this`nextSessionID
      modifies s`accountID, s`personaID, s`sessionID, s`persona
      ensures Valid() && Abs() == LobbyModel.Authenticate<Session>(old(Abs()), s, requested, name)
    {
      hide FreshPersona, Ids, Seats, Inboxes, Games, PersonaName;
      Here(s);
      if s.personaID != 0 {
        return;
      }
      var p := requested;
      if p <= 0 || p in activePersonas {
        p := FreePersona();
      }
      var user := if p in users then users[p] else User(p, p, PersonaName(p));
      if name != "" {
        user := user.(name := name);
      }
      Register(s, p, user);
    }

    method Register(s: Session, p: int, user: User)
      requires Valid() && s in connections
      modifies this`users, this`sessions, this`activePersonas, this`nextUserID, this`nextSessionID
      modifies s`accountID, s`personaID, s`sessionID, s`persona
      ensures Valid()
      ensures var l := old(Abs());
              Abs() == l.(ids := l.ids[s := Identity(user.accountID, user.personaID, l.nextSession, user.name)],
                          users := l.users[p := user],
                          nextUser := if p >= l.nextUser then p + 1 else l.nextUser,
                          nextSession := l.nextSession + 1,
                          sessions := l.sessions[l.nextSession := s],
                          active := l.active[user.personaID := s])
    {
      hide Ids, Seats, Inboxes, Games, Settled;
      RegisterUser(p, user);
      Identify(s, Identity(user.accountID, user.personaID, nextSessionID, user.name));
      RegisterSession(s);
    }

    method RegisterUser(p: int, user: User)
      modifies this`users, this`nextUserID
      requires Valid()
      ensures Valid()
      ensures var l := old(Abs());
              Abs() == l.(users := l.users[p := user], nextUser := if p >= l.nextUser then p + 1 else l.nextUser)
    {
      hide Ids, Seats, Inboxes, Games, Settled;
      users := users[p := user];
      if p >= nextUserID {
        nextUserID := p + 1;
      }
    }

    method RegisterSession(s: Session)
      requires s.sessionID == nextSessionID
      modifies this`sessions, this`activePersonas, this`nextSessionID
      requires Valid()
      ensures Valid()
      ensures var l := old(Abs());
              Abs() == l.(nextSession := l.nextSession + 1, sessions := l.sessions[s.sessionID := s], active := l.active[s.personaID := s])
    {
      hide Ids, Seats, Inboxes, Games, Settled;
      nextSessionID := nextSessionID + 1;
      sessions := sessions[s.sessionID := s];
      activePersonas := activePersonas[s.personaID := s];
    }

    method Identify(s: Session, who: Identity)
      requires s in connections
      modifies s`accountID, s`personaID, s`sessionID, s`persona
      ensures s.Who() == who && Ids() == old(Ids())[s := who]
    {
      s.accountID, s.personaID, s.sessionID, s.persona := who.accountID, who.personaID, who.sessionID, who.name;
    }

    method Place(s: Session, seat: Seat)
      requires s in connections
      modifies s`gameID, s`pending, s`queuedMatch
      ensures s.Place() == seat && Seats() == old(Seats())[s := seat]
    {
      s.gameID, s.pending, s.queuedMatch := seat.gameID, seat.pending, seat.queuedMatch;
    }

    lemma Here(s: Session)
      requires s in connections
      ensures s in Ids() && s in Seats() && s in Inboxes()
      ensures Ids()[s] == s.Who() && Seats()[s] == s.Place() && Inboxes()[s] == s.Mail()
    {
    }

    // ---- the queue -----------------------------------------------------------------------------

    /** removeQueuedSessionLocked's loop: backward deletion in place is a filter. */
    method DropRequests(s: Session)
      modifies this`matchQueue
      ensures matchQueue == RemoveRequests<Session>(old(matchQueue), s)
    {
      var i := |matchQueue|;
      ghost var q := matchQueue;
      assert q[i..] == [] && q[..i] == q && q + [] == q;
      while i > 0
        invariant 0 <= i <= |q|
        invariant matchQueue == q[..i] + RemoveRequests<Session>(q[i..], s)
      {
        i := i - 1;
        assert q[i..][1..] == q[i + 1..] && q[..i + 1] == q[..i] + [q[i]];
        if matchQueue[i].session == s {
          matchQueue := matchQueue[..i] + matchQueue[i + 1..];
        }
      }
      assert q[0..] == q;
    }

    /** removeQueuedSessionLocked */
    method RemoveQueuedSession(s: Session)
      requires s in connections
      modifies this`matchQueue, s`gameID, s`pending, s`queuedMatch
      ensures Abs() == Dequeue<Session>(old(Abs()), s) && s.Place() == old(s.Place()).(queuedMatch := 0)
    {
      hide RemoveRequests, Ids, Seats, Inboxes, Games;
      DropRequests(s);
      Here(s);
      Place(s, s.Place().(queuedMatch := 0));
    }

    /** cancelQueuedMatch */
    method CancelQueuedMatch(s: Session, msid: int) returns (cancelled: bool)
      requires Valid() && s in connections
      modifies this`matchQueue, s`gameID, s`pending, s`queuedMatch
      ensures Valid() && (Abs(), cancelled) == Cancel<Session>(old(Abs()), s, msid)
    {
      hide Ids, Seats, Inboxes, Games, FirstOwn;
      Here(s);
      if msid <= 0 || s.queuedMatch != msid {
        return false;
      }
      var i := OwnRequest(s, msid);
      if i == |matchQueue| {
        return false;
      }
      matchQueue := matchQueue[..i] + matchQueue[i + 1..];
      Place(s, s.Place().(queuedMatch := 0));
      return true;
    }

    method OwnRequest(s: Session, msid: int) returns (i: nat)
      ensures i == FirstOwn<Session>(matchQueue, s, msid)
    {
      i := 0;
      assert matchQueue[0..] == matchQueue;
      while i < |matchQueue| && !(matchQueue[i].session == s && matchQueue[i].msid == msid)
        invariant 0 <= i <= |matchQueue|
        invariant FirstOwn<Session>(matchQueue, s, msid) == i + FirstOwn<Session>(matchQueue[i..], s, msid)
      {
        assert matchQueue[i..][1..] == matchQueue[i + 1..];
        i := i + 1;
      }
    }

    // ---- notifications -------------------------------------------------------------------------

    /** Each connection's outbound frames have grown by its share of `mail`. */
    twostate lemma Delivered(mail: map<Session, seq<Note>>)
      requires connections == old(connections) && Settled(connections) && old(Settled(connections))
      requires forall x | x in connections :: x.outbound == old(x.outbound) + if x in mail then mail[x] else []
      ensures Inboxes() == Post<Session>(old(Inboxes()), mail)
    {
      forall x | x in connections
        ensures x.Mail() == old(x.Mail()) + if x in mail then mail[x] else []
      {
        assert x.Mail() == x.outbound && old(x.Mail()) == old(x.outbound);
      }
    }

    /** The loop that sends one frame to every member. */
    method NotifyEach(to: seq<Session>, n: Note)
      requires Valid() && Separate(to) && forall m | m in to :: m in connections
      modifies connections`outbound
      ensures Valid() && Inboxes() == Post<Session>(old(Inboxes()), ToEach<Session>(to, [n]))
    {
      hide Inboxes, Post;
      var i := 0;
      while i < |to|
        invariant 0 <= i <= |to|
        invariant forall x | x in connections :: x.outbound == old(x.outbound) + if x in to[..i] then [n] else []
      {
        PrefixStep(to, i);
        to[i].Notify(n);
        i := i + 1;
      }
      assert to[..|to|] == to;
      Delivered(ToEach<Session>(to, [n]));
    }

    /** removePlayer's and removeSession's loop: everyone hears of the removal, and everyone but the
        leaver of the game's end. */
    method NotifyRemoval(to: seq<Session>, removed: Note, leaver: Session, gone: bool, gid: int)
      requires Valid() && Separate(to) && forall m | m in to :: m in connections
      modifies connections`outbound
      ensures Valid()
      ensures Inboxes() == Post<Session>(old(Inboxes()), RemovalMail<Session>(to, removed, leaver, gone, gid))
    {
      hide Inboxes, Post;
      var i := 0;
      while i < |to|
        invariant 0 <= i <= |to|
        invariant forall x | x in connections ::
                    x.outbound == old(x.outbound) + if x in to[..i] then [removed] + (if gone && x != leaver then [GameRemoved(gid)] else []) else []
      {
        PrefixStep(to, i);
        TellRemoval(to[i], removed, leaver, gone, gid);
        i := i + 1;
      }
      assert to[..|to|] == to;
      Delivered(RemovalMail<Session>(to, removed, leaver, gone, gid));
    }

    method TellRemoval(m: Session, removed: Note, leaver: Session, gone: bool, gid: int)
      requires !m.closed
      modifies m`outbound
      ensures m.outbound == old(m.outbound) + ([removed] + if gone && m != leaver then [GameRemoved(gid)] else [])
    {
      m.Notify(removed);
      if gone && m != leaver {
        m.Notify(GameRemoved(gid));
      }
    }

    method NotifyOthers(to: seq<Session>, newcomer: Session, notes: seq<Note>)
      requires Valid() && Separate(to) && forall m | m in to :: m in connections
      modifies connections`outbound
      ensures Valid()
      ensures forall x | x in connections :: x.outbound == old(x.outbound) + if x in to && x != newcomer then notes else []
    {
      var i := 0;
      while i < |to|
        invariant 0 <= i <= |to|
        invariant forall x | x in connections :: x.outbound == old(x.outbound) + if x in to[..i] && x != newcomer then notes else []
      {
        PrefixStep(to, i);
        if to[i] != newcomer {
          NotifyAll(to[i], notes);
        }
        i := i + 1;
      }
      assert to[..|to|] == to;
    }

    /** notifyMatchedGame's first loop: existing members hear of the newcomer, then of its joining. */
    method NotifyJoining(g: LiveGame, newcomer: Session)
      requires Valid() && Separate(g.members) && newcomer in connections && forall m | m in g.members :: m in connections
      modifies connections`outbound
      ensures Valid()
      ensures Inboxes() == Post<Session>(old(Inboxes()), JoiningMail<Session>(g.Value(), Ids(), newcomer))
    {
      hide Inboxes, Post, Ids, UserNotes;
      Here(newcomer);
      var notes := UserNotificationsFor(newcomer);
      var p := newcomer.personaID;
      var joining := PlayerJoining(g.id, p, if p in g.slots then g.slots[p] else 0);
      NotifyOthers(g.members, newcomer, notes + [joining]);
      Delivered(JoiningMail<Session>(g.Value(), Ids(), newcomer));
    }

    method NotifyAll(m: Session, notes: seq<Note>)
      requires !m.closed
      modifies m`outbound
      ensures m.outbound == old(m.outbound) + notes
    {
      var i := 0;
      while i < |notes|
        invariant 0 <= i <= |notes| && m.outbound == old(m.outbound) + notes[..i]
      {
        m.Notify(notes[i]);
        i := i + 1;
      }
    }

    /** userNotificationsFor */
    method UserNotificationsFor(s: Session) returns (notes: seq<Note>)
      requires s in connections
      ensures notes == UserNotes<Session>(Ids(), s)
    {
      notes := [UserAdded(s.personaID), ExtendedData(if s.sessionID != 0 then s.sessionID else s.personaID)];
    }

    /** notifyMatchedGame's second loop: the other members' users, in roster order. */
    method UsersExcept(members: seq<Session>, newcomer: Session) returns (notes: seq<Note>)
      requires forall m | m in members :: m in connections
      ensures notes == UserNotesExcept<Session>(Ids(), members, newcomer)
    {
      hide Ids, UserNotes, UserNotesExcept;
      notes := [];
      var i := 0;
      assert members[0..] == members;
      while i < |members|
        invariant 0 <= i <= |members|
        invariant notes + UserNotesExcept<Session>(Ids(), members[i..], newcomer) == UserNotesExcept<Session>(Ids(), members, newcomer)
      {
        ExceptStep(Ids(), members, i, newcomer);
        if members[i] != newcomer {
          var user := UserNotificationsFor(members[i]);
          notes := notes + user;
        }
        i := i + 1;
      }
      ExceptDone(Ids(), members, newcomer);
    }

    /** What waits goes out after the reply: the end of every handler. */
    method Flush(s: Session)
      requires s in connections && !s.closed && Settled(connections - {s})
      modifies s`outbound, s`notifications
      ensures Settled(connections) && Inboxes() == old(Inboxes())
    {
      s.FlushNotifications();
      assert s.Mail() == old(s.Mail());
    }

    /** Frames that wait for the flush. */
    method Defer(s: Session, notes: seq<Note>)
      requires s in connections
      modifies s`notifications
      ensures s.notifications == old(s.notifications) + notes
      ensures Inboxes() == Post<Session>(old(Inboxes()), map[s := notes])
    {
      s.notifications := s.notifications + notes;
      assert s.Mail() == old(s.Mail()) + notes;
      forall x | x in connections && x != s
        ensures x.Mail() == old(x.Mail()) + []
      {
      }
    }

    // ---- registered games ----------------------------------------------------------------------

    /** What the invariant says of a registered game's roster. */
    lemma RosterHere(gid: int)
      requires Inv(Abs()) && gid in games
      ensures gid in Games() && Games()[gid] == games[gid].Value() && games[gid].id == gid
      ensures Separate(games[gid].members) && games[gid].members != [] && games[gid].host in games[gid].members
      ensures forall m | m in games[gid].members :: m in connections && m in Ids() && Ids()[m].personaID == m.personaID
      ensures games[gid].Knows(Ids()) && TablesMatch(games[gid].Value(), Ids())
    {
      hide RegistryOk, GamesOk, SeatsOk, QueueOk, InboxesOk, GameOk, Pids;
      var l := Abs();
      SlotsAreTables(l, gid);
      Distinct(l.games[gid], l.ids);
      RosterFacts(l.games[gid], l.ids);
      forall m | m in games[gid].members
        ensures m in connections
      {
        MemberSeat(l, gid, m);
      }
    }

    lemma GameKeys()
      ensures Games().Keys == games.Keys
    {
    }

    lemma GameValue(gid: int)
      requires gid in games
      ensures gid in Games() && Games()[gid] == games[gid].Value()
    {
    }

    lemma ListsIt(s: Session, gid: int)
      requires gid in games
      ensures gid in Listing(s) <==> MemberFor<Session>(Ids(), games[gid].members, Pid<Session>(Ids(), s)) == Some(s)
    {
    }

    /** Only game `gid` has changed. */
    twostate lemma OneGame(gid: int)
      requires games == old(games) && gid in games
      requires forall a, b | a in games && b in games && a != b :: games[a] != games[b]
      requires forall k | k in games && k != gid :: games[k].Value() == old(games[k].Value())
      ensures Games() == old(Games())[gid := games[gid].Value()]
    {
    }

    method RemoveFrom(gid: int, s: Session)
      requires Valid() && gid in games && games[gid].Knows(Ids())
      modifies games[gid]
      ensures Valid() && games[gid].Value() == RemoveMember<Session>(old(games[gid].Value()), Ids(), s)
      ensures Games() == old(Games())[gid := games[gid].Value()]
      ensures games[gid].Knows(Ids()) && games[gid].host == old(games[gid].host)
    {
      hide Games, Settled, Ids;
      var _ := games[gid].RemoveMember(s, Ids());
      OneGame(gid);
    }

    method RefreshGame(gid: int)
      requires Valid() && gid in games && games[gid].Knows(Ids())
      modifies games[gid]
      ensures Valid() && Games() == old(Games())[gid := Refresh<Session>(old(games[gid].Value()), Ids())]
      ensures games[gid].members == old(games[gid].members)
    {
      hide Games, Settled, Ids;
      games[gid].RefreshMeshReadiness(Ids());
      OneGame(gid);
    }

    // ---- settings ------------------------------------------------------------------------------

    /** broadcast */
    method Broadcast(sender: Session, gid: int, n: Note)
      requires Valid() && sender in connections
      requires gid in games ==> Separate(games[gid].members) && forall m | m in games[gid].members :: m in connections
      modifies connections`outbound
      ensures Valid()
      ensures Inboxes() == Post<Session>(old(Inboxes()), LobbyModel.Broadcast<Session>(old(Abs()), sender, gid, n))
    {
      hide Inboxes, Post, Settled;
      var members := if gid in games then games[gid].members else [];
      if |members| == 0 {
        NotifyEach([sender], n);
      } else {
        NotifyEach(members, n);
      }
    }

    /** finalizeGameCreation */
    method FinalizeGameCreation(s: Session, gid: int)
      requires Valid() && s in connections
      modifies s`gameID, s`pending, s`queuedMatch, s`outbound, s`notifications
      ensures Valid() && Abs() == Finalize<Session>(old(Abs()), s, gid)
    {
      hide Ids, Seats, Inboxes, Games, Post;
      Here(s);
      var target := gid;
      if target == 0 {
        target := s.pending;
      }
      if target == 0 {
        target := s.gameID;
      }
      if target != 0 {
        Place(s, s.Place().(pending := 0));
        AfterReply(s, [PlatformHost(target)]);
      }
    }

    /** setPlayerCapacity */
    method SetPlayerCapacity(s: Session, gid: int, caps: seq<int>)
      requires Valid() && Inv(Abs()) && s in connections
      modifies connections`outbound, if gid in games then {games[gid]} else {}
      ensures Valid() && Abs() == SetCapacity<Session>(old(Abs()), s, gid, caps)
    {
      hide Inv, Ids, Seats, Inboxes, Games, Post, Settled;
      GameKeys();
      if gid in games {
        RosterHere(gid);
        if caps != [] {
          games[gid].capacity := caps[0];
          OneGame(gid);
        }
      }
      Broadcast(s, gid, GameCapacity(gid, caps));
    }

    /** setGameAttributes */
    method SetGameAttributes(s: Session, gid: int, attrs: Attrs)
      requires Valid() && Inv(Abs()) && s in connections
      modifies connections`outbound, if gid in games then {games[gid]} else {}
      ensures Valid() && Abs() == SetGameAttrs<Session>(old(Abs()), s, gid, attrs)
    {
      hide Inv, Ids, Seats, Inboxes, Games, Post, Settled;
      GameKeys();
      if gid in games {
        RosterHere(gid);
        games[gid].attrs := attrs;
        OneGame(gid);
      }
      Broadcast(s, gid, GameAttributes(gid, attrs));
    }

    /** broadcastPlayerAttributes */
    method BroadcastPlayerAttributes(s: Session, gid: int, pid: int, attrs: Attrs, now: int)
      requires Valid() && Inv(Abs()) && s in connections
      modifies connections`outbound, if gid in games then {games[gid]} else {}
      ensures Valid() && Abs() == SetPlayerAttrs<Session>(old(Abs()), s, gid, pid, attrs, now)
    {
      hide Inv, Ids, Seats, Inboxes, Games, Post, Settled, EnsureMembership, MergeAttrs, LiveGame.Knows, LobbyModel.Broadcast;
      GameKeys();
      Here(s);
      if gid !in games {
        Broadcast(s, gid, PlayerAttributes(gid, pid, attrs));
        return;
      }
      RosterHere(gid);
      hide AllowedTarget;
      var player := TargetOf(s, gid, pid);
      if player == null {
        return;
      }
      Here(player);
      MergeAndTell(s, gid, player.personaID, attrs, now, PlayerAttributes(gid, pid, attrs));
    }

    /** Whom the caller may remove or change: itself, or anyone if it is the host. */
    method TargetOf(s: Session, gid: int, pid: int) returns (target: Session?)
      requires s in connections && gid in games && games[gid].Knows(Ids())
      ensures gid in Games() && AllowedTarget<Session>(Abs(), s, gid, pid) == (if target == null then None else Some(target))
      ensures target != null ==> target in games[gid].members
    {
      hide Ids, Seats, Inboxes, Games, LiveGame.Knows;
      GameValue(gid);
      Here(s);
      var caller := games[gid].SessionForPlayerID(s.personaID, Ids());
      var candidate := games[gid].SessionForPlayerID(pid, Ids());
      if caller != null && candidate != null && (candidate == s || s == games[gid].host) {
        return candidate;
      }
      return null;
    }

    method MergeAndTell(s: Session, gid: int, p: int, attrs: Attrs, now: int, n: Note)
      requires Valid() && s in connections && gid in games && games[gid].Knows(Ids())
      requires Separate(games[gid].members) && forall m | m in games[gid].members :: m in connections
      modifies connections`outbound, games[gid]
      ensures Valid() && gid in old(Games())
      ensures var l := old(Abs());
              Abs() == l.(games := l.games[gid := MergeAttrs<Session>(EnsureMembership<Session>(l.games[gid], l.ids, now), p, attrs)],
                          inbox := Post<Session>(l.inbox, LobbyModel.Broadcast<Session>(l, s, gid, n)))
    {
      hide Ids, Seats, Inboxes, Games, Post, Settled, EnsureMembership, MergeAttrs, LiveGame.Knows, LobbyModel.Broadcast, LiveGame.Value;
      GameValue(gid);
      ghost var l := Abs();
      MergeInto(gid, p, attrs, now);
      EnsuredRoster(l.games[gid], l.ids, now);
      MergedRoster(EnsureMembership<Session>(l.games[gid], l.ids, now), p, attrs);
      SameBroadcast(l, Abs(), s, gid, n);
      Broadcast(s, gid, n);
    }

    method MergeInto(gid: int, p: int, attrs: Attrs, now: int)
      requires Valid() && gid in games && games[gid].Knows(Ids())
      modifies games[gid]
      ensures Valid() && games[gid].members == old(games[gid].members)
      ensures Games() == old(Games())[gid := MergeAttrs<Session>(EnsureMembership<Session>(old(games[gid].Value()), Ids(), now), p, attrs)]
    {
      hide Games, Settled, Ids, EnsureMembership, LiveGame.Knows;
      EnsuredRoster(games[gid].Value(), Ids(), now);
      games[gid].MergeAttributes(p, attrs, now, Ids());
      OneGame(gid);
    }

    // ---- leaving -------------------------------------------------------------------------------

    /** The survivors' loop: every remaining member is as free as the host. */
    method FreeAll(members: seq<Session>, ghost host: Session)
      requires host in connections && host.Place() == IDLE && forall m | m in members :: m in connections
      modifies members`gameID, members`pending, members`queuedMatch
      ensures Seats() == Freed(old(Seats()), host, members)
    {
      KnowsAll();
      var i := 0;
      while i < |members|
        invariant 0 <= i <= |members|
        invariant forall x | x in connections :: x.Place() == if x in members[..i] then IDLE else old(x.Place())
      {
        assert members[..i + 1] == members[..i] + [members[i]] && members[i] in members;
        var m := members[i];
        m.gameID, m.pending, m.queuedMatch := 0, 0, 0;
        i := i + 1;
      }
      assert members[..|members|] == members;
    }

    /** delete(s.games, gid) */
    method Unregister(gid: int)
      requires Valid() && gid in games
      modifies this`games
      ensures Valid() && games == old(games) - {gid} && Games() == old(Games()) - {gid}
    {
      games := games - {gid};
    }

    /** The member is out of the roster. */
    method Strike(gid: int, t: Session)
      requires Valid() && gid in games && t in games[gid].members && games[gid].Knows(Ids())
      requires forall m | m in games[gid].members :: m in connections
      modifies games[gid]
      ensures Valid() && games[gid].host == old(games[gid].host)
      ensures games[gid].members == Without<Session>(old(games[gid].members), t)
      ensures (forall m | m in games[gid].members :: m in connections) && games[gid].Knows(Ids())
      ensures games[gid].Value() == RemoveMember<Session>(old(games[gid].Value()), Ids(), t)
      ensures Games() == old(Games())[gid := games[gid].Value()]
    {
      StruckMembers(games[gid].Value(), Ids(), t);
      hide Ids, Seats, Inboxes, Games, Settled, RemoveMember, LiveGame.Knows, Without;
      RemoveFrom(gid, t);
    }

    /** The member is out of the queue and its seat. */
    method Unseat(t: Session)
      requires t in connections
      modifies this`matchQueue, t`gameID, t`pending, t`queuedMatch
      ensures matchQueue == RemoveRequests<Session>(old(matchQueue), t) && Seats() == old(Seats())[t := IDLE] && t.Place() == IDLE
    {
      Here(t);
      MapTwice(Seats(), t, t.Place().(queuedMatch := 0), IDLE);
      hide Ids, Seats, Inboxes, Games, RemoveRequests;
      RemoveQueuedSession(t);
      Place(t, IDLE);
    }

    /** The host is gone: the game is unregistered and the survivors are free. */
    method EndGame(gid: int, ghost host: Session)
      requires Valid() && gid in games && forall m | m in games[gid].members :: m in connections
      requires host in connections && host.Place() == IDLE
      modifies this`games, games[gid].members`gameID, games[gid].members`pending, games[gid].members`queuedMatch
      ensures Valid() && Games() == old(Games()) - {gid}
      ensures Seats() == Freed(old(Seats()), host, old(games[gid].members))
    {
      hide Seats, Games, Settled, Freed;
      var members := games[gid].members;
      Unregister(gid);
      FreeAll(members, host);
    }

    /** What the lock protects in removePlayer once the target is settled: roster, queue and seats. */
    method Depart(gid: int, t: Session)
      requires Valid() && Inv(Abs()) && gid in games && t in games[gid].members
      modifies this`games, this`matchQueue, games[gid]
      modifies connections`gameID, connections`pending, connections`queuedMatch
      ensures Valid() && t in old(Abs()).seats && gid in old(Abs()).games
      ensures old(games[gid]).members == Without<Session>(old(games[gid].members), t)
      ensures Abs() == Leave<Session>(Dequeue<Session>(old(Abs()), t), t, gid).(inbox := old(Inboxes()))
    {
      hide Inv, Ids, Seats, Inboxes, Games, Settled, RemoveRequests, RemoveMember, Refresh, LiveGame.Knows, Freed, Without;
      hide Dequeue, Leave;
      RosterHere(gid);
      Here(t);
      ghost var l := Abs();
      DepartMaps(l, t, gid);
      TakeOut(gid, t);
      CloseOrRefresh(gid, t);
      DepartIs(l, Abs(), t, gid);
    }

    /** The member is out of the roster, the queue and its seat. */
    method TakeOut(gid: int, t: Session)
      requires Valid() && gid in games && t in games[gid].members && games[gid].Knows(Ids())
      requires forall m | m in games[gid].members :: m in connections
      modifies this`matchQueue, games[gid], t`gameID, t`pending, t`queuedMatch
      ensures Valid() && t.Place() == IDLE && games[gid].host == old(games[gid].host)
      ensures games[gid].members == Without<Session>(old(games[gid].members), t)
      ensures (forall m | m in games[gid].members :: m in connections) && games[gid].Knows(Ids())
      ensures games[gid].Value() == RemoveMember<Session>(old(games[gid].Value()), Ids(), t)
      ensures Games() == old(Games())[gid := games[gid].Value()]
      ensures matchQueue == RemoveRequests<Session>(old(matchQueue), t) && Seats() == old(Seats())[t := IDLE]
    {
      hide Ids, Seats, Inboxes, Games, Settled, RemoveRequests, RemoveMember, LiveGame.Knows, LiveGame.Value, Without;
      Strike(gid, t);
      Unseat(t);
    }

    /** With the host the game ends; after anyone else its readiness is rebuilt. */
    method CloseOrRefresh(gid: int, t: Session)
      requires Valid() && gid in games && games[gid].Knows(Ids()) && t in connections && t.Place() == IDLE
      requires forall m | m in games[gid].members :: m in connections
      modifies this`games, games[gid], connections`gameID, connections`pending, connections`queuedMatch
      ensures Valid()
      ensures Games() == if t == old(games[gid].host) then old(Games()) - {gid}
                         else old(Games())[gid := Refresh<Session>(old(games[gid].Value()), Ids())]
      ensures old(games[gid]).members == old(games[gid].members)
      ensures Seats() == if t == old(games[gid].host) then Freed(old(Seats()), t, old(games[gid].members)) else old(Seats())
    {
      hide Ids, Seats, Inboxes, Games, Settled, LiveGame.Knows, Freed, Refresh;
      if t == games[gid].host {
        EndGame(gid, t);
      } else {
        RefreshGame(gid);
      }
    }

    /** A member is taken out and everybody in the game, itself included, is told. */
    method Remove(gid: int, t: Session)
      requires Valid() && Inv(Abs()) && gid in games && t in games[gid].members
      modifies this`games, this`matchQueue, games[gid]
      modifies connections`gameID, connections`pending, connections`queuedMatch, connections`outbound
      ensures Valid() && t in old(Abs()).seats && gid in old(Abs()).games
      ensures Abs() == Leave<Session>(Dequeue<Session>(old(Abs()), t), t, gid)
    {
      hide Inv, Ids, Seats, Inboxes, Games, Settled, RemoveRequests, RemoveMember, Refresh, LiveGame.Knows, Dequeue, Leave, Post, RemovalMail, Freed;
      RosterHere(gid);
      Here(t);
      RemovalInbox(Abs(), t, gid);
      var recipients := games[gid].members;
      var removed := PlayerRemoved(gid, t.personaID);
      var hostRemoved := t == games[gid].host;
      Depart(gid, t);
      NotifyRemoval(recipients, removed, t, hostRemoved, gid);
    }

    /** removePlayer */
    method RemovePlayer(s: Session, gid: int, pid: int)
      requires Valid() && Inv(Abs()) && s in connections
      modifies this`games, this`matchQueue, if gid in games then {games[gid]} else {}
      modifies connections`gameID, connections`pending, connections`queuedMatch, connections`outbound
      ensures Valid() && Abs() == LobbyModel.RemovePlayer<Session>(old(Abs()), s, gid, pid)
    {
      hide Inv, Ids, Seats, Inboxes, Games, Settled, LiveGame.Knows, Dequeue, Leave, Post;
      GameKeys();
      Here(s);
      if gid !in games {
        NotifyEach([s], PlayerRemoved(gid, pid));
        assert ToEach<Session>([s], [PlayerRemoved(gid, pid)]) == map[s := [PlayerRemoved(gid, pid)]];
        return;
      }
      RosterHere(gid);
      hide AllowedTarget;
      var target := TargetOf(s, gid, pid);
      if target != null {
        Remove(gid, target);
      }
    }

    // ---- disconnection -------------------------------------------------------------------------

    /** removeSession's search, in id order, for a game that still lists the session. */
    method Leftover(s: Session) returns (gid: int, found: bool)
      requires s in connections && forall k | k in games :: games[k].Knows(Ids())
      ensures LeftoverGame<Session>(Abs(), s) == if found then Some(gid) else None
      ensures found ==> gid in games && s in games[gid].members
    {
      hide Ids, Seats, Inboxes, Games, LiveGame.Knows, Listing, Abs, LeftoverGame;
      ghost var listing := Listing(s);
      Listed(s);
      Here(s);
      var todo := games.Keys;
      while todo != {}
        invariant todo <= games.Keys && listing <= todo
        decreases |todo|
      {
        gid := IntSets.Least(todo);
        var m := games[gid].SessionForPlayerID(s.personaID, Ids());
        ListsIt(s, gid);
        if m == s {
          return gid, true;
        }
        todo := todo - {gid};
      }
      return 0, false;
    }

    /** The games that list the session under its persona. */
    ghost function Listing(s: Session): set<int>
      reads this, connections, games.Values
    {
      set k | k in Games() && MemberFor<Session>(Ids(), Games()[k].members, Pid<Session>(Ids(), s)) == Some(s)
    }

    lemma Listed(s: Session)
      ensures Listing(s) <= games.Keys
      ensures LeftoverGame<Session>(Abs(), s) == if Listing(s) == {} then None else Some(IntSets.Least(Listing(s)))
    {
      LeftoverIs(Abs(), s, Listing(s));
    }

    /** The session leaves its game; those who remain are told. */
    method Abandon(gid: int, s: Session)
      requires Valid() && Inv(Abs()) && gid in games && s in games[gid].members
      modifies this`games, this`matchQueue, games[gid]
      modifies connections`gameID, connections`pending, connections`queuedMatch, connections`outbound
      ensures Valid() && s in old(Abs()).seats && gid in old(Abs()).games
      ensures Abs() == Leave<Session>(Dequeue<Session>(old(Abs()), s), s, gid).(inbox := Inboxes())
      ensures var g := old(Abs()).games[gid];
              Inboxes() == Post<Session>(old(Inboxes()),
                RemovalMail<Session>(Without<Session>(g.members, s), PlayerRemoved(gid, Pid<Session>(old(Ids()), s)), s, s == g.host, gid))
    {
      hide Inv, Ids, Seats, Inboxes, Games, Settled, RemoveRequests, RemoveMember, Refresh, LiveGame.Knows, Dequeue, Leave, Post, RemovalMail, Freed, Without;
      RosterHere(gid);
      Here(s);
      KnowsAll();
      Remaining(Abs(), s, gid);
      var game := games[gid];
      var hostLeft := s == game.host;
      var removed := PlayerRemoved(gid, s.personaID);
      Depart(gid, s);
      NotifyRemoval(game.members, removed, s, hostLeft, gid);
    }

    /** removeSession's deletions; nothing is sent to the session any more. */
    method ForgetSession(s: Session)
      requires Valid() && s in connections
      modifies this`sessions, this`activePersonas, this`connections, s`closed
      ensures Valid() && connections == old(connections) - {s} && s.closed
      ensures Abs() == Forget<Session>(old(Abs()), s)
    {
      hide Ids, Seats, Inboxes, Games;
      Here(s);
      s.closed := true;
      sessions := sessions - {s.sessionID};
      if s.personaID in activePersonas && activePersonas[s.personaID] == s {
        activePersonas := activePersonas - {s.personaID};
      }
      Drop(s);
    }

    method Drop(s: Session)
      requires s in connections
      modifies this`connections
      ensures connections == old(connections) - {s}
      ensures Ids() == old(Ids()) - {s} && Seats() == old(Seats()) - {s} && Inboxes() == old(Inboxes()) - {s}
    {
      connections := connections - {s};
    }

    /** removeSession */
    method RemoveSession(s: Session)
      requires Valid() && Inv(Abs()) && s in connections
      modifies this`sessions, this`activePersonas, this`connections, this`games, this`matchQueue, games.Values
      modifies connections`gameID, connections`pending, connections`queuedMatch, connections`outbound, s`closed
      ensures Valid() && connections == old(connections) - {s} && s.closed
      ensures Abs() == Disconnect<Session>(old(Abs()), s)
    {
      hide Inv, Ids, Seats, Inboxes, Games, Settled, LiveGame.Knows, Dequeue, Leave, Post, Disconnect, Forget, LeftoverGame;
      GameKeys();
      Here(s);
      ghost var l := Abs();
      AllKnow();
      SeatedHere(s);
      var gid, found := s.gameID, s.gameID in games;
      if !found {
        gid, found := Leftover(s);
      }
      DisconnectSteps(l, s, gid, found);
      if found {
        GameValue(gid);
        Abandon(gid, s);
        AbandonForgets(l, Abs(), s, gid);
        ForgetSession(s);
      } else {
        RemoveQueuedSession(s);
        ForgetSession(s);
      }
    }

    lemma AllKnow()
      requires Inv(Abs())
      ensures forall k | k in games :: games[k].Knows(Ids())
    {
      hide Inv, LiveGame.Knows;
      forall k | k in games
        ensures games[k].Knows(Ids())
      {
        RosterHere(k);
      }
    }

    lemma SeatedHere(s: Session)
      requires Inv(Abs()) && s in connections
      ensures s.gameID in games ==> s in games[s.gameID].members
    {
      hide RegistryOk, GamesOk, SeatsOk, QueueOk, InboxesOk;
      Here(s);
      NoGameZero(Abs());
      if s.gameID != 0 {
        SeatedIn(Abs(), s);
      }
    }

    // ---- logging in ----------------------------------------------------------------------------

    /** silentLogin: the user's own notifications follow the reply. */
    method SilentLogin(s: Session, requested: int, name: string)
      requires Valid() && s in connections
      modifies this`users, this`sessions, this`activePersonas, this`nextUserID, this`nextSessionID
      modifies s`accountID, s`personaID, s`sessionID, s`persona, s`notifications, s`outbound
      ensures Valid() && Abs() == Login<Session>(old(Abs()), s, requested, name)
    {
      hide Ids, Seats, Inboxes, Games, Post, LobbyModel.Authenticate, UserNotes;
      Authenticate(s, requested, name);
      var notes := UserNotificationsFor(s);
      AfterReply(s, notes);
    }

    // ---- hosting -------------------------------------------------------------------------------

    /** The session is a registered member of the game its GameID names. */
    method IsPlaying(s: Session) returns (playing: bool)
      requires s in connections && (s.gameID in games ==> games[s.gameID].Knows(Ids()))
      ensures playing == Playing<Session>(Abs(), s)
    {
      hide Ids, Seats, Inboxes, Games, LiveGame.Knows;
      GameKeys();
      Here(s);
      playing := false;
      if s.gameID in games {
        GameValue(s.gameID);
        var m := games[s.gameID].SessionForPlayerID(s.personaID, Ids());
        playing := m == s;
      }
    }

    /** A stale GameID and an earlier request are dropped. */
    method RestartSession(s: Session)
      requires Valid() && s in connections
      modifies this`matchQueue, s`gameID, s`pending, s`queuedMatch
      ensures Valid() && Abs() == Restart<Session>(old(Abs()), s)
    {
      hide Ids, Seats, Inboxes, Games, Dequeue;
      Here(s);
      Place(s, s.Place().(gameID := 0));
      RemoveQueuedSession(s);
    }

    /** A new game under the next id. */
    method CreateGame(host: Session, members: seq<Session>, attrs: Attrs, cap: int, topology: int, now: int) returns (gid: int)
      requires Valid() && forall m | m in members :: m in connections
      modifies this`games, this`nextGameID
      ensures Valid() && gid == old(nextGameID) && nextGameID == gid + 1
      ensures gid in games && fresh(games[gid]) && games == old(games)[gid := games[gid]]
      ensures games[gid].Value() == NewGame<Session>(Ids(), gid, host, members, attrs, cap, topology, now)
      ensures Games() == old(Games())[gid := games[gid].Value()]
    {
      hide NewGame, Ids, Games, Settled;
      gid := nextGameID;
      nextGameID := nextGameID + 1;
      MembersKnown(members);
      var g := new LiveGame(gid, host, members, attrs, cap, topology, now, Ids());
      AddGame(gid, g);
    }

    lemma MembersKnown(members: seq<Session>)
      requires forall m | m in members :: m in connections
      ensures forall m | m in members :: m in Ids() && Ids()[m].personaID == m.personaID
    {
    }

    method AddGame(gid: int, g: LiveGame)
      requires Valid() && g !in games.Values
      modifies this`games
      ensures Valid() && games == old(games)[gid := g] && Games() == old(Games())[gid := g.Value()]
    {
      assert forall k | k in games :: games[k] in games.Values;
      games := games[gid := g];
    }

    /** gameSetup for a registered game; it changes nothing in a consistent one. */
    method SetupOf(gid: int, now: int) returns (setup: Note)
      requires Valid() && gid in games && games[gid].Knows(Ids()) && TablesMatch(games[gid].Value(), Ids())
      requires games[gid].host in connections
      modifies games[gid]
      ensures Valid() && Games() == old(Games()) && games[gid].Value() == old(games[gid].Value())
      ensures setup == SetupNote<Session>(games[gid].Value(), Ids())
    {
      Here(games[gid].host);
      hide Games, Ids, Settled, LiveGame.Knows, LiveGame.Value, SetupNote, TablesMatch;
      setup := games[gid].Setup(now, Ids());
      NoGame(gid);
    }

    /** Game `gid` was touched but has not changed. */
    twostate lemma NoGame(gid: int)
      requires games == old(games) && gid in games
      requires forall a, b | a in games && b in games && a != b :: games[a] != games[b]
      requires games[gid].Value() == old(games[gid].Value())
      requires forall k | k in games && k != gid :: games[k].Value() == old(games[k].Value())
      ensures Games() == old(Games())
    {
      forall k | k in games
        ensures games[k].Value() == old(games[k].Value())
      {
        if k != gid {
          assert games[k] != games[gid];
        }
      }
    }

    /** resetDedicatedServer's creation: the session alone, with the setup waiting for the reply. */
    method HostGame(s: Session, attrs: Attrs, cap: int, topology: int, now: int) returns (gid: int)
      requires Valid() && s in connections && s.personaID > 0 && now != 0
      modifies this`games, this`nextGameID, s`gameID, s`pending, s`queuedMatch, s`notifications, s`outbound
      ensures Valid() && Abs() == Host<Session>(old(Abs()), s, attrs, cap, topology, now) && gid == old(nextGameID)
    {
      hide Ids, Seats, Inboxes, Games, NewGame, Post, GameOk, SetupNote;
      Here(s);
      NewGameOne(Ids(), nextGameID, s, attrs, cap, topology, now);
      var setup;
      gid, setup := OpenGame(s, [s], attrs, cap, topology, now);
      Place(s, s.Place().(gameID := gid));
      AfterReply(s, [setup]);
    }

    /** A new game under the next id, and its setup. */
    method OpenGame(host: Session, members: seq<Session>, attrs: Attrs, cap: int, topology: int, now: int)
      returns (gid: int, setup: Note)
      requires Valid() && host in connections && forall m | m in members :: m in connections
      requires GameOk(NewGame<Session>(Ids(), nextGameID, host, members, attrs, cap, topology, now), Ids())
      requires NewGame<Session>(Ids(), nextGameID, host, members, attrs, cap, topology, now).host == host
      modifies this`games, this`nextGameID
      ensures Valid() && gid == old(nextGameID) && nextGameID == gid + 1
      ensures Games() == old(Games())[gid := NewGame<Session>(Ids(), gid, host, members, attrs, cap, topology, now)]
      ensures setup == SetupNote<Session>(NewGame<Session>(Ids(), gid, host, members, attrs, cap, topology, now), Ids())
    {
      hide Ids, Games, Settled, NewGame, GameOk, SetupNote, LiveGame.Knows;
      gid := CreateGame(host, members, attrs, cap, topology, now);
      TablesOf(games[gid].Value(), Ids());
      KnownHere(gid);
      setup := SetupOf(gid, now);
    }

    twostate lemma StillKnown(gid: int)
      requires gid in games && games == old(games) && games[gid].members == old(games[gid].members)
      requires old(games[gid].Knows(Ids())) && Ids() == old(Ids())
      requires forall m | m in games[gid].members :: m.personaID == old(m.personaID)
      ensures games[gid].Knows(Ids())
    {
    }

    lemma KnownHere(gid: int)
      requires gid in games && forall m | m in games[gid].members :: m in Ids()
      ensures games[gid].Knows(Ids())
    {
    }

    /** The handler's own notifications: they wait for the reply and are then flushed. */
    method AfterReply(s: Session, notes: seq<Note>)
      requires Valid() && s in connections
      modifies s`notifications, s`outbound
      ensures Valid() && Inboxes() == Post<Session>(old(Inboxes()), map[s := notes])
    {
      hide Inboxes, Post;
      Defer(s, notes);
      Flush(s);
    }

    /** resetDedicatedServer */
    method ResetDedicatedServer(s: Session, attrs: Attrs, cap: int, topology: int, now: int) returns (gid: int)
      requires Valid() && Inv(Abs()) && s in connections && s.personaID != 0 && now > 0
      modifies this`games, this`nextGameID, this`matchQueue
      modifies s`gameID, s`pending, s`queuedMatch, s`notifications, s`outbound
      ensures Valid() && Abs() == ResetDedicated<Session>(old(Abs()), s, attrs, cap, topology, now)
    {
      hide Inv, Ids, Seats, Inboxes, Games, Restart, Host, Playing, LiveGame.Knows;
      PersonaPositive(s);
      if s.gameID in games {
        RosterHere(s.gameID);
      }
      var playing := IsPlaying(s);
      if playing {
        return s.gameID;
      }
      RestartSession(s);
      gid := HostGame(s, attrs, cap, topology, now);
    }

    lemma PersonaPositive(s: Session)
      requires Inv(Abs()) && s in connections && s.personaID != 0
      ensures s.personaID > 0
    {
      hide GamesOk, SeatsOk, QueueOk, InboxesOk;
      Here(s);
      assert IdentityOk(Abs(), s);
    }

    // ---- the mesh ------------------------------------------------------------------------------

    /** The caller's report is entered. */
    method ReportTo(gid: int, s: Session, targets: seq<Target>, now: int) returns (changed: bool)
      requires Valid() && gid in games && games[gid].Knows(Ids()) && s in games[gid].members
      modifies games[gid]
      ensures Valid() && games[gid].members == old(games[gid].members) && games[gid].id == old(games[gid].id)
      ensures MeshReport<Session>(EnsureMembership<Session>(old(games[gid].Value()), Ids(), now), Ids(), s, targets) == (games[gid].Value(), changed)
      ensures Games() == old(Games())[gid := games[gid].Value()]
    {
      hide Games, Settled, Ids, MeshReport, EnsureMembership, LiveGame.Knows;
      games[gid].EnsureMembershipState(now, Ids());
      EnsuredRoster(old(games[gid].Value()), Ids(), now);
      StillKnown(gid);
      changed := games[gid].Report(s, targets, Ids());
      OneGame(gid);
    }

    /** The members that are ready while their admission is pending; it is pending no more. */
    method CollectCompleted(game: LiveGame) returns (completed: seq<Session>)
      requires Separate(game.members) && forall m | m in game.members :: m in connections
      modifies connections`pending
      ensures completed == Completed<Session>(game.Value(), Ids(), old(Seats()), game.members)
      ensures Seats() == Admitted<Session>(old(Seats()), completed)
    {
      hide Ids, Seats, Completed, Due, LiveGame.Value, Admitted;
      KnowsAll();
      completed := CompleteDue(game, Seats());
      AdmittedAre(old(Seats()), completed);
    }

    method CompleteDue(game: LiveGame, ghost seats: map<Session, Seat>) returns (completed: seq<Session>)
      requires Separate(game.members) && forall m | m in game.members :: m in connections
      requires seats.Keys == connections && forall x | x in connections :: seats[x] == x.Place()
      modifies connections`pending
      ensures completed == Completed<Session>(game.Value(), Ids(), seats, game.members)
      ensures forall x | x in connections :: x.Place() == if x in completed then seats[x].(pending := 0) else seats[x]
    {
      hide Ids, Seats, Completed, Due, LiveGame.Value;
      ghost var all := Completed<Session>(game.Value(), Ids(), seats, game.members);
      completed := [];
      var i := 0;
      assert game.members[0..] == game.members;
      while i < |game.members|
        invariant 0 <= i <= |game.members|
        invariant forall x | x in completed :: x in game.members[..i]
        invariant forall x | x in connections :: x.Place() == if x in completed then seats[x].(pending := 0) else seats[x]
        invariant completed + Completed<Session>(game.Value(), Ids(), seats, game.members[i..]) == all
      {
        PrefixStep(game.members, i);
        CompletedStep(game.Value(), Ids(), seats, game.members, i, completed);
        var due := CompleteIfDue(game, game.members[i], seats);
        if due {
          completed := completed + [game.members[i]];
        }
        i := i + 1;
      }
      CompletedDone(game.Value(), Ids(), seats, game.members);
    }

    method CompleteIfDue(game: LiveGame, player: Session, ghost seats: map<Session, Seat>) returns (due: bool)
      requires player in connections && player in seats && seats[player] == player.Place()
      modifies player`pending
      ensures due == Due<Session>(game.Value(), Ids(), seats, player)
      ensures player.Place() == if due then seats[player].(pending := 0) else seats[player]
    {
      due := player.personaID in game.meshReady && game.meshReady[player.personaID] && player.pending == game.id;
      if due {
        player.pending := 0;
      }
    }

    lemma AdmittedAre(seats: map<Session, Seat>, completed: seq<Session>)
      requires seats.Keys == connections
      requires forall x | x in connections :: x.Place() == if x in completed then seats[x].(pending := 0) else seats[x]
      ensures Seats() == Admitted<Session>(seats, completed)
    {
    }

    /** One completion to every member; the reporting session's waits for its reply. */
    method NotifyCompletion(to: seq<Session>, n: Note, caller: Session)
      requires Separate(to) && forall m | m in to :: m in connections && !m.closed
      modifies connections`outbound, caller`notifications
      ensures forall x | x in connections && x != caller :: x.outbound == old(x.outbound) + if x in to then [n] else []
      ensures caller.notifications == old(caller.notifications) + if caller in to then [n] else []
      ensures caller in connections ==> caller.outbound == old(caller.outbound)
    {
      var i := 0;
      while i < |to|
        invariant 0 <= i <= |to|
        invariant forall x | x in connections && x != caller :: x.outbound == old(x.outbound) + if x in to[..i] then [n] else []
        invariant caller.notifications == old(caller.notifications) + if caller in to[..i] then [n] else []
        invariant caller in connections ==> caller.outbound == old(caller.outbound)
      {
        PrefixStep(to, i);
        if to[i] == caller {
          caller.notifications := caller.notifications + [n];
        } else {
          to[i].Notify(n);
        }
        i := i + 1;
      }
      assert to[..|to|] == to;
    }

    /** Every completion to every member, and the flush after the reporting session's reply. */
    method NotifyCompletions(to: seq<Session>, gid: int, completed: seq<Session>, caller: Session)
      requires Valid() && Separate(to) && caller in connections && forall m | m in to :: m in connections
      requires forall m | m in completed :: m in connections
      modifies connections`outbound, caller`notifications
      ensures Valid() && Inboxes() == Post<Session>(old(Inboxes()), ToEach<Session>(to, JoinedNotes<Session>(gid, Ids(), completed)))
    {
      hide Ids, Inboxes, Games, Post, JoinedNotes;
      SendCompletions(to, gid, completed, caller);
      caller.FlushNotifications();
      Delivered(ToEach<Session>(to, JoinedNotes<Session>(gid, Ids(), completed)));
    }

    method PidOf(player: Session) returns (p: int)
      requires player in connections
      ensures p == Pid<Session>(Ids(), player)
    {
      p := player.personaID;
    }

    method SendCompletions(to: seq<Session>, gid: int, completed: seq<Session>, caller: Session)
      requires Valid() && Separate(to) && caller in connections && forall m | m in to :: m in connections
      requires forall m | m in completed :: m in connections
      modifies connections`outbound, caller`notifications
      ensures var notes := JoinedNotes<Session>(gid, Ids(), completed);
              && (forall x | x in connections && x != caller :: x.outbound == old(x.outbound) + if x in to then notes else [])
              && caller.notifications == (if caller in to then notes else [])
              && caller.outbound == old(caller.outbound)
    {
      hide Ids, JoinedNotes, Pid;
      ghost var notes := JoinedNotes<Session>(gid, Ids(), completed);
      JoinedLength(gid, Ids(), completed);
      assert notes[..0] == [];
      var i := 0;
      while i < |completed|
        invariant 0 <= i <= |completed| == |notes|
        invariant forall x | x in connections && x != caller :: x.outbound == old(x.outbound) + if x in to then notes[..i] else []
        invariant caller.notifications == if caller in to then notes[..i] else []
        invariant caller.outbound == old(caller.outbound)
      {
        JoinedStep(gid, Ids(), completed, i);
        var p := PidOf(completed[i]);
        NotifyCompletion(to, PlayerJoined(gid, p), caller);
        i := i + 1;
      }
      assert notes[..|notes|] == notes;
    }

    /** updateMeshConnection */
    method UpdateMeshConnection(s: Session, gid: int, targets: seq<Target>, now: int)
      requires Valid() && Inv(Abs()) && s in connections
      modifies if gid in games then {games[gid]} else {}
      modifies connections`pending, connections`outbound, s`notifications
      ensures Valid() && Abs() == UpdateMesh<Session>(old(Abs()), s, gid, targets, now)
    {
      hide Inv, Ids, Seats, Inboxes, Games, Settled, LiveGame.Knows, Post, MeshReport, EnsureMembership, Complete;
      GameKeys();
      Here(s);
      if gid !in games {
        return;
      }
      RosterHere(gid);
      var member := games[gid].SessionForPlayerID(s.personaID, Ids());
      if member != s {
        return;
      }
      var changed := ReportTo(gid, s, targets, now);
      if changed {
        FinishJoins(gid, s);
      }
    }

    /** Pending admissions of ready members are completed, and everybody in the game is told. */
    method FinishJoins(gid: int, caller: Session)
      requires Valid() && gid in games && caller in connections
      requires Separate(games[gid].members) && forall m | m in games[gid].members :: m in connections
      modifies connections`pending, connections`outbound, caller`notifications
      ensures Valid() && gid in old(Games()) && Abs() == Complete<Session>(old(Abs()), gid)
    {
      hide Ids, Seats, Inboxes, Games, Settled, Post, Completed, JoinedNotes, Admitted;
      GameValue(gid);
      var game := games[gid];
      var completed := CollectCompleted(game);
      CompletedHere(game.Value(), Ids(), old(Seats()), game.members);
      NotifyCompletions(game.members, gid, completed, caller);
    }

    // ---- matchmaking ---------------------------------------------------------------------------

    /** addMember on a registered game. */
    method AddTo(gid: int, s: Session, now: int) returns (added: bool)
      requires Valid() && s in connections && gid in games && forall k | k in games :: games[k].Knows(Ids())
      modifies games[gid]
      ensures Valid() && forall k | k in games :: games[k].Knows(Ids())
      ensures var a := AddMember<Session>(old(games[gid].Value()), Ids(), s, now);
              added == a.added && games[gid].Value() == a.game
      ensures Games() == old(Games())[gid := games[gid].Value()]
    {
      Here(s);
      hide Ids, Games, Settled, AddMember, LiveGame.Knows, LiveGame.Value;
      var slot;
      slot, added := games[gid].AddMember(s, now, Ids());
      OneGame(gid);
    }

    /** queueMatch's pass over the registered games, by id. */
    method JoinOpenGame(r: Request<Session>, now: int) returns (gid: int, joined: bool)
      requires Valid() && r.session in connections && forall k | k in games :: games[k].Knows(Ids())
      modifies games.Values
      ensures Valid() && (joined ==> gid in games && games[gid].Knows(Ids()))
      ensures ScanGames<Session>(old(Games()), Ids(), r, now, old(Games()).Keys) == Scan(Games(), if joined then Some(gid) else None)
    {
      hide Ids, Games, Settled, AddMember, LiveGame.Knows, LiveGame.Value, CompatibleGame, ScanGames;
      GameKeys();
      var todo := games.Keys;
      while todo != {}
        invariant todo <= games.Keys == Games().Keys
        invariant Valid() && forall k | k in games :: games[k].Knows(Ids())
        invariant ScanGames<Session>(Games(), Ids(), r, now, todo) == ScanGames<Session>(old(Games()), Ids(), r, now, old(Games()).Keys)
        decreases |todo|
      {
        gid := IntSets.Least(todo);
        GameValue(gid);
        ScanStep(Games(), Ids(), r, now, todo);
        if CompatibleGame<Session>(games[gid].Value(), r) {
          var added := AddTo(gid, r.session, now);
          if added {
            return gid, true;
          }
        }
        todo := todo - {gid};
      }
      ScanDone(Games(), Ids(), r, now);
      return 0, false;
    }

    /** queueMatch's search for the oldest compatible request of another session. */
    method FindMatch(r: Request<Session>) returns (i: nat)
      ensures i == FirstMatch<Session>(matchQueue, r)
    {
      hide CompatibleMatch;
      i := 0;
      assert matchQueue[0..] == matchQueue;
      while i < |matchQueue| && !(matchQueue[i].session != r.session && CompatibleMatch<Session>(matchQueue[i], r))
        invariant 0 <= i <= |matchQueue|
        invariant FirstMatch<Session>(matchQueue, r) == i + FirstMatch<Session>(matchQueue[i..], r)
      {
        assert matchQueue[i..][1..] == matchQueue[i + 1..];
        i := i + 1;
      }
    }

    /** Every member of a new game sits in it, its admission pending. */
    method SitDown(members: seq<Session>, gid: int)
      requires forall m | m in members :: m in connections
      modifies members`gameID, members`pending, members`queuedMatch
      ensures Seats() == SeatAll<Session>(old(Seats()), members, Seat(gid, gid, 0))
    {
      KnowsAll();
      var i := 0;
      while i < |members|
        invariant 0 <= i <= |members|
        invariant forall x | x in connections :: x.Place() == if x in members[..i] then Seat(gid, gid, 0) else old(x.Place())
      {
        assert members[..i + 1] == members[..i] + [members[i]] && members[i] in members;
        var m := members[i];
        m.gameID, m.pending, m.queuedMatch := gid, gid, 0;
        i := i + 1;
      }
      assert members[..|members|] == members;
    }

    /** notifyMatchedGame: the members hear of the newcomer; it gets every member, then the setup. */
    method NotifyMatchedGame(g: LiveGame, s: Session, setup: Note)
      requires Valid() && Separate(g.members) && s in connections && forall m | m in g.members :: m in connections
      modifies connections`outbound, s`notifications
      ensures Valid()
      ensures Inboxes() == Post<Session>(old(Inboxes()),
                JoiningMail<Session>(g.Value(), Ids(), s)[s := UserNotesExcept<Session>(Ids(), g.members, s) + [setup]])
    {
      hide Ids, Inboxes, Post, UserNotesExcept, JoiningMail;
      NotToItself(g.Value(), Ids(), s);
      NotifyJoining(g, s);
      var notes := UsersExcept(g.members, s);
      AfterReply(s, notes + [setup]);
      PostAnother(old(Inboxes()), JoiningMail<Session>(g.Value(), Ids(), s), s, notes + [setup]);
    }

    /** The session has been added to a registered game. */
    method Enter(gid: int, s: Session, now: int)
      requires Valid() && s in connections && gid in games && games[gid].id == gid
      requires Separate(games[gid].members) && games[gid].Knows(Ids()) && TablesMatch(games[gid].Value(), Ids())
      requires games[gid].host in connections && forall m | m in games[gid].members :: m in connections
      modifies games[gid], connections`outbound, s`gameID, s`pending, s`queuedMatch, s`notifications
      ensures Valid() && gid in old(Games()) && Abs() == Join<Session>(old(Abs()), s, old(Games()), gid)
    {
      hide Ids, Seats, Inboxes, Games, Settled, Post, UserNotesExcept, SetupNote, JoiningMail, LiveGame.Knows, TablesMatch;
      GameValue(gid);
      Place(s, Seat(gid, gid, 0));
      var setup := SetupOf(gid, now);
      NotifyMatchedGame(games[gid], s, setup);
    }

    /** The two setups of a pairing: the host's go out at once, the requester's after its reply. */
    method NotifyPair(host: Session, s: Session, setup: Note)
      requires Valid() && host in connections && s in connections && host != s
      modifies host`outbound, s`outbound, s`notifications
      ensures Valid()
      ensures Inboxes() == Post<Session>(old(Inboxes()), map[host := UserNotes<Session>(Ids(), s) + [setup],
                                                             s := UserNotes<Session>(Ids(), host) + [setup]])
    {
      hide Ids, Inboxes, Post, UserNotes;
      var mine := UserNotificationsFor(s);
      var theirs := UserNotificationsFor(host);
      SendNow(host, mine + [setup]);
      AfterReply(s, theirs + [setup]);
      PostAnother(old(Inboxes()), map[host := mine + [setup]], s, theirs + [setup]);
      assert map[host := mine + [setup]][s := theirs + [setup]] == map[host := mine + [setup], s := theirs + [setup]];
    }

    method SendNow(m: Session, notes: seq<Note>)
      requires Valid() && m in connections
      modifies m`outbound
      ensures Valid() && Inboxes() == Post<Session>(old(Inboxes()), map[m := notes])
    {
      hide Inboxes, Post;
      NotifyAll(m, notes);
      Delivered(map[m := notes]);
    }

    /** Two queued sessions open a game. */
    method PairUp(i: nat, r: Request<Session>, now: int)
      requires Valid() && i < |matchQueue| && matchQueue[i].session in connections && r.session in connections
      requires matchQueue[i].session != r.session && matchQueue[i].session.personaID != r.session.personaID
      requires matchQueue[i].session.personaID > 0 && r.session.personaID > 0 && matchQueue[i].cap >= 2 && now != 0
      modifies this`matchQueue, this`games, this`nextGameID
      modifies connections`gameID, connections`pending, connections`queuedMatch, connections`outbound, r.session`notifications
      ensures Valid() && Abs() == Pair<Session>(old(Abs()), i, r, now)
    {
      hide Ids, Seats, Inboxes, Games, Settled, Post, NewGame, SetupNote, UserNotes, SeatAll, GameOk;
      var host := matchQueue[i].session;
      var setup := OpenPair(i, r, now);
      NotifyPair(host, r.session, setup);
    }

    /** What the lock protects in a pairing. */
    method OpenPair(i: nat, r: Request<Session>, now: int) returns (setup: Note)
      requires Valid() && i < |matchQueue| && matchQueue[i].session in connections && r.session in connections
      requires matchQueue[i].session != r.session && matchQueue[i].session.personaID != r.session.personaID
      requires matchQueue[i].session.personaID > 0 && r.session.personaID > 0 && matchQueue[i].cap >= 2 && now != 0
      modifies this`matchQueue, this`games, this`nextGameID
      modifies connections`gameID, connections`pending, connections`queuedMatch
      ensures Valid() && Abs() == Pair<Session>(old(Abs()), i, r, now).(inbox := old(Inboxes()))
      ensures var h := old(matchQueue[i]);
              setup == SetupNote<Session>(NewGame<Session>(Ids(), old(nextGameID), h.session, [h.session, r.session], h.attrs, h.cap, h.topology, now), Ids())
    {
      hide Ids, Seats, Inboxes, Games, Settled, Post, NewGame, SetupNote, UserNotes, SeatAll, GameOk;
      var h := matchQueue[i];
      var members := [h.session, r.session];
      Here(h.session);
      Here(r.session);
      NewGameTwo(Ids(), nextGameID, h.session, r.session, h.attrs, h.cap, h.topology, now);
      matchQueue := matchQueue[..i] + matchQueue[i + 1..];
      var gid;
      gid, setup := OpenGame(h.session, members, h.attrs, h.cap, h.topology, now);
      SitDown(members, gid);
    }

    /** The request waits at the end of the queue. */
    method Wait(r: Request<Session>)
      requires Valid() && r.session in connections
      modifies this`matchQueue, r.session`gameID, r.session`pending, r.session`queuedMatch
      ensures Valid() && Abs() == Enqueue<Session>(old(Abs()), r)
    {
      hide Ids, Seats, Inboxes, Games, Settled;
      Here(r.session);
      matchQueue := matchQueue + [r];
      Place(r.session, r.session.Place().(queuedMatch := r.msid));
    }

    /** The queue is searched for a partner; without one the request waits. */
    method MatchOrWait(r: Request<Session>, now: int)
      requires Valid() && Inv(Abs()) && Free(Abs(), r.session) && r.session in connections && now > 0
      modifies this`matchQueue, this`games, this`nextGameID
      modifies connections`gameID, connections`pending, connections`queuedMatch, connections`outbound, r.session`notifications
      ensures Valid()
      ensures var i := FirstMatch<Session>(old(matchQueue), r);
              Abs() == if i < |old(matchQueue)| then Pair<Session>(old(Abs()), i, r, now) else Enqueue<Session>(old(Abs()), r)
    {
      hide Inv, Ids, Seats, Inboxes, Games, Settled, Pair, Enqueue, FirstMatch, CompatibleMatch, Free;
      var i := FindMatch(r);
      if i < |matchQueue| {
        Partners(i, r, now);
        PairUp(i, r, now);
      } else {
        Wait(r);
      }
    }

    lemma Partners(i: nat, r: Request<Session>, now: int)
      requires Inv(Abs()) && Free(Abs(), r.session) && r.session in connections && now > 0
      requires i == FirstMatch<Session>(matchQueue, r) < |matchQueue|
      ensures matchQueue[i].session in connections && matchQueue[i].cap >= 2
      ensures matchQueue[i].session != r.session && matchQueue[i].session.personaID != r.session.personaID
      ensures matchQueue[i].session.personaID > 0 && r.session.personaID > 0
    {
      hide RegistryOk, GamesOk, SeatsOk, QueueOk, InboxesOk, FirstMatch, CompatibleMatch, Unqueued;
      FirstMatchSpec(matchQueue, r);
      MatchedCap(matchQueue[i], r);
      PairParties(Abs(), i, r, now);
    }

    method EnterFound(ghost l: Lobby<Session>, r: Request<Session>, now: int, gid: int)
      requires Valid() && r.session in connections && gid in games && games[gid].Knows(Ids())
      requires Inv(l) && Free(l, r.session) && now > 0 && Abs() == l.(games := Games())
      requires ScanGames<Session>(l.games, l.ids, r, now, l.games.Keys) == Scan(Games(), Some(gid))
      modifies games[gid], connections`outbound
      modifies r.session`gameID, r.session`pending, r.session`queuedMatch, r.session`notifications
      ensures Valid() && r.session in l.seats && Abs() == LobbyModel.PlaceRequest<Session>(l, r, now)
    {
      hide Inv, Ids, Seats, Inboxes, Games, Settled, Free, ScanGames, Join, LobbyModel.PlaceRequest, LiveGame.Knows, GameOk, TablesMatch;
      GameValue(gid);
      KnowsAll();
      EnterReady(l, r, now, Games(), gid);
      Enter(gid, r.session, now);
    }

    /** queueMatch once the request is made. */
    method PlaceRequest(r: Request<Session>, now: int)
      requires Valid() && Inv(Abs()) && Free(Abs(), r.session) && r.session in connections && now > 0
      modifies this`matchQueue, this`games, this`nextGameID, games.Values
      modifies connections`gameID, connections`pending, connections`queuedMatch, connections`outbound, r.session`notifications
      ensures Valid() && Abs() == LobbyModel.PlaceRequest<Session>(old(Abs()), r, now)
    {
      hide Inv, Ids, Seats, Inboxes, Games, Settled, Free, ScanGames, Join, Pair, Enqueue, FirstMatch, LiveGame.Knows, LiveGame.Value;
      AllKnow();
      ghost var l := Abs();
      var gid, joined := JoinOpenGame(r, now);
      if joined {
        EnterFound(l, r, now, gid);
      } else {
        ScanSpec(l, r, now, l.games.Keys);
        assert Abs() == l;
        FreeKeys(l, r.session);
        MatchOrWait(r, now);
        PlacedElse(l, r, now);
      }
    }

    /** queueMatch */
    method QueueMatch(s: Session, attrs: Attrs, cap: int, topology: int, now: int) returns (msid: int)
      requires Valid() && Inv(Abs()) && s in connections && s.personaID != 0 && now > 0
      modifies this`nextMatchID, this`matchQueue, this`games, this`nextGameID, games.Values
      modifies connections`gameID, connections`pending, connections`queuedMatch, connections`outbound, s`notifications
      ensures Valid() && Abs() == LobbyModel.QueueMatch<Session>(old(Abs()), s, attrs, cap, topology, now) && msid == old(nextMatchID)
    {
      hide Inv, Ids, Seats, Inboxes, Games, Settled, Free, Restart, Playing, LobbyModel.PlaceRequest, LiveGame.Knows;
      Here(s);
      if s.gameID in games {
        RosterHere(s.gameID);
      }
      ghost var l := Abs();
      msid := nextMatchID;
      nextMatchID := nextMatchID + 1;
      if s.gameID != 0 {
        var playing := IsPlaying(s);
        if playing {
          return;
        }
      }
      AskReady(l, s, attrs, cap, topology, now);
      RestartSession(s);
      PlaceRequest(Request(s, attrs, cap, topology, msid), now);
    }

    // ---- requests ------------------------------------------------------------------------------

    /** serveConn's dispatch: a request, or the end of a connection, takes the lobby exactly one step
        of its transition system and keeps the invariant. */
    method Handle(e: Event<Session>)
      requires Valid() && Inv(Abs()) && !e.EConnect? && Enabled<Session>(Abs(), e)
      modifies this, connections, games.Values
      ensures Valid() && Inv(Abs()) && Abs() == Next<Session>(old(Abs()), e)
    {
      hide Inv, Ids, Seats, Inboxes, Games, Next, Enabled, Settled;
      KnowsAll();
      EnabledHere(e);
      NextKeeps(Abs(), e);
      NextIs(Abs(), e);
      match e
      case ELogin(s, requested, name) => SilentLogin(s, requested, name);
      case EQueueMatch(s, attrs, cap, topology, now) =>
        var _ := QueueMatch(s, attrs, cap, topology, now);
      case ECancel(s, msid) =>
        var _ := CancelQueuedMatch(s, msid);
      case EResetDedicated(s, attrs, cap, topology, now) =>
        var _ := ResetDedicatedServer(s, attrs, cap, topology, now);
      case EFinalize(s, gid) => FinalizeGameCreation(s, gid);
      case ESetCapacity(s, gid, caps) => SetPlayerCapacity(s, gid, caps);
      case ESetGameAttrs(s, gid, attrs) => SetGameAttributes(s, gid, attrs);
      case ESetPlayerAttrs(s, gid, pid, attrs, now) => BroadcastPlayerAttributes(s, gid, pid, attrs, now);
      case ERemovePlayer(s, gid, pid) => RemovePlayer(s, gid, pid);
      case EUpdateMesh(s, gid, targets, now) => UpdateMeshConnection(s, gid, targets, now);
      case EDisconnect(s) => RemoveSession(s);
    }

    lemma EnabledHere(e: Event<Session>)
      requires Enabled<Session>(Abs(), e) && !e.EConnect?
      ensures e.s in connections
      ensures e.EQueueMatch? || e.EResetDedicated? ==> e.s.personaID != 0 && e.now > 0
    {
    }
  }

  /** The step, handler by handler. */
  lemma NextIs(l: Lobby<Session>, e: Event<Session>)
    requires Enabled<Session>(l, e) && l.seats.Keys == l.ids.Keys && !e.EConnect?
    ensures e.s in l.ids && e.s in l.seats
    ensures Next<Session>(l, e) ==
            match e
            case EConnect(s) => l
            case ELogin(s, requested, name) => Login<Session>(l, s, requested, name)
            case EQueueMatch(s, attrs, cap, topology, now) => LobbyModel.QueueMatch<Session>(l, s, attrs, cap, topology, now)
            case ECancel(s, msid) => Cancel<Session>(l, s, msid).0
            case EResetDedicated(s, attrs, cap, topology, now) => ResetDedicated<Session>(l, s, attrs, cap, topology, now)
            case EFinalize(s, gid) => Finalize<Session>(l, s, gid)
            case ESetCapacity(s, gid, caps) => SetCapacity<Session>(l, s, gid, caps)
            case ESetGameAttrs(s, gid, attrs) => SetGameAttrs<Session>(l, s, gid, attrs)
            case ESetPlayerAttrs(s, gid, pid, attrs, now) => SetPlayerAttrs<Session>(l, s, gid, pid, attrs, now)
            case ERemovePlayer(s, gid, pid) => LobbyModel.RemovePlayer<Session>(l, s, gid, pid)
            case EUpdateMesh(s, gid, targets, now) => UpdateMesh<Session>(l, s, gid, targets, now)
            case EDisconnect(s) => Disconnect<Session>(l, s)
  {
    hide Login, LobbyModel.QueueMatch, Cancel, ResetDedicated, Finalize, SetCapacity, SetGameAttrs, SetPlayerAttrs, LobbyModel.RemovePlayer, UpdateMesh, Disconnect;
  }

  lemma AskReady(l: Lobby<Session>, s: Session, attrs: Attrs, cap: int, topology: int, now: int)
    requires Inv(l) && LoggedIn(l, s) && s in l.seats && now > 0
    requires l.seats[s].gameID == 0 || !Playing<Session>(l.(nextMatch := l.nextMatch + 1), s)
    ensures var l2 := Restart<Session>(l.(nextMatch := l.nextMatch + 1), s);
            Inv(l2) && Free(l2, s) && LobbyModel.QueueMatch<Session>(l, s, attrs, cap, topology, now)
                                   == LobbyModel.PlaceRequest<Session>(l2, Request(s, attrs, cap, topology, l.nextMatch), now)
  {
    hide RegistryOk, GamesOk, SeatsOk, QueueOk, InboxesOk, Restart, Playing, LobbyModel.PlaceRequest, Unqueued;
    var l1 := l.(nextMatch := l.nextMatch + 1);
    SpendMatchKeeps(l);
    PlayingExact(l1, s);
    RestartFrees(l1, s);
  }

  lemma FreeKeys(l: Lobby<Session>, s: Session)
    requires Free(l, s)
    ensures s in l.seats
  {
  }

  lemma PlacedElse(l: Lobby<Session>, r: Request<Session>, now: int)
    requires r.session in l.seats
    requires ScanGames<Session>(l.games, l.ids, r, now, l.games.Keys) == Scan(l.games, None)
    ensures var i := FirstMatch<Session>(l.queue, r);
            LobbyModel.PlaceRequest<Session>(l, r, now) == if i < |l.queue| then Pair<Session>(l, i, r, now) else Enqueue<Session>(l, r)
  {
    hide ScanGames, Pair, Enqueue, FirstMatch;
    assert l.(games := l.games) == l;
  }

  lemma JoinInto(l: Lobby<Session>, s: Session, games: map<int, Game<Session>>, gid: int)
    requires gid in games && s in l.seats
    ensures Join<Session>(l.(games := games), s, games, gid) == Join<Session>(l, s, games, gid)
  {
    hide Post, UserNotesExcept, SetupNote;
  }

  /** The game a session has just been added to is in order. */
  lemma EnterReady(l: Lobby<Session>, r: Request<Session>, now: int, games: map<int, Game<Session>>, gid: int)
    requires Inv(l) && Free(l, r.session) && now > 0
    requires ScanGames<Session>(l.games, l.ids, r, now, l.games.Keys) == Scan(games, Some(gid))
    ensures r.session in l.seats && gid in games && games[gid].id == gid && GameOk(games[gid], l.ids)
    ensures Separate(games[gid].members) && TablesMatch(games[gid], l.ids)
    ensures games[gid].host in games[gid].members && forall m | m in games[gid].members :: m in l.ids
    ensures LobbyModel.PlaceRequest<Session>(l, r, now) == Join<Session>(l.(games := games), r.session, games, gid)
  {
    hide Join, PlaceRequest, TablesMatch;
    hide RegistryOk, GamesOk, SeatsOk, QueueOk, InboxesOk, GameOk, ScanGames, OpenSlot, CompatibleGame, Unqueued, Pids;
    ScanSpec(l, r, now, l.games.Keys);
    CompatibleAccepts(l, r, now, gid);
    SlotsAreTables(l, gid);
    FreeIsNoMember(l, r.session, gid);
    EnteredOk(l.games[gid], l.ids, r.session, OpenSlot(l, gid), now);
    TablesOf(games[gid], l.ids);
    RosterFacts(games[gid], l.ids);
    PlacedJoin(l, r, now, gid);
    JoinInto(l, r.session, games, gid);
  }

  lemma EnteredOk(g: Game<Session>, ids: map<Session, Identity>, s: Session, slot: int, now: int)
    requires GameOk(g, ids) && CanJoin(g, ids, s) && now != 0 && slot >= 0 && slot !in g.slots.Values
    ensures GameOk(Joined(g, Pid(ids, s), s, slot, now), ids)
  {
    hide RosterOk, HostFirst, ReadinessExact;
    JoinedKeeps(g, ids, s, slot, now);
  }

  lemma ExceptStep(ids: map<Session, Identity>, members: seq<Session>, i: nat, s: Session)
    requires i < |members|
    ensures UserNotesExcept<Session>(ids, members[i..], s) ==
            (if members[i] == s then [] else UserNotes<Session>(ids, members[i])) + UserNotesExcept<Session>(ids, members[i + 1..], s)
  {
    hide UserNotes;
    assert members[i..][1..] == members[i + 1..];
  }

  lemma ExceptDone(ids: map<Session, Identity>, members: seq<Session>, s: Session)
    ensures UserNotesExcept<Session>(ids, members[|members|..], s) == []
  {
  }

  lemma NotToItself(g: Game<Session>, ids: map<Session, Identity>, s: Session)
    ensures s !in JoiningMail<Session>(g, ids, s)
  {
  }

  lemma ScanStep(games: map<int, Game<Session>>, ids: map<Session, Identity>, r: Request<Session>, now: int, todo: set<int>)
    requires todo <= games.Keys && todo != {}
    ensures var gid := IntSets.Least(todo);
            var a := AddMember<Session>(games[gid], ids, r.session, now);
            ScanGames<Session>(games, ids, r, now, todo) ==
            if !CompatibleGame<Session>(games[gid], r) then ScanGames<Session>(games, ids, r, now, todo - {gid})
            else if a.added then Scan(games[gid := a.game], Some(gid))
            else ScanGames<Session>(games[gid := a.game], ids, r, now, todo - {gid})
  {
    hide AddMember, CompatibleGame;
  }

  lemma ScanDone(games: map<int, Game<Session>>, ids: map<Session, Identity>, r: Request<Session>, now: int)
    ensures ScanGames<Session>(games, ids, r, now, {}) == Scan(games, None)
  {
  }

  lemma {:induction false} CompletedHere(g: Game<Session>, ids: map<Session, Identity>, seats: map<Session, Seat>, members: seq<Session>)
    ensures forall m | m in Completed<Session>(g, ids, seats, members) :: m in members
    decreases |members|
  {
    if members != [] {
      CompletedHere(g, ids, seats, members[1..]);
    }
  }

  lemma JoinedStep(gid: int, ids: map<Session, Identity>, completed: seq<Session>, i: nat)
    requires i < |completed| == |JoinedNotes<Session>(gid, ids, completed)|
    ensures completed[i] in completed
    ensures JoinedNotes<Session>(gid, ids, completed)[..i + 1]
         == JoinedNotes<Session>(gid, ids, completed)[..i] + [PlayerJoined(gid, Pid<Session>(ids, completed[i]))]
  {
  }

  lemma JoinedLength(gid: int, ids: map<Session, Identity>, completed: seq<Session>)
    ensures |JoinedNotes<Session>(gid, ids, completed)| == |completed|
  {
  }

  lemma CompletedStep(g: Game<Session>, ids: map<Session, Identity>, seats: map<Session, Seat>, members: seq<Session>, i: nat, done: seq<Session>)
    requires i < |members|
    ensures (if Due<Session>(g, ids, seats, members[i]) then done + [members[i]] else done) + Completed<Session>(g, ids, seats, members[i + 1..])
         == done + Completed<Session>(g, ids, seats, members[i..])
  {
    assert members[i..][1..] == members[i + 1..];
  }

  lemma CompletedDone(g: Game<Session>, ids: map<Session, Identity>, seats: map<Session, Seat>, members: seq<Session>)
    ensures Completed<Session>(g, ids, seats, members[|members|..]) == []
  {
  }

  lemma EnsuredRoster(g: Game<Session>, ids: map<Session, Identity>, now: int)
    ensures EnsureMembership<Session>(g, ids, now).members == g.members && EnsureMembership<Session>(g, ids, now).id == g.id
  {
    EnsuredMembers(g, ids, now, 0);
  }

  lemma TablesOf(g: Game<Session>, ids: map<Session, Identity>)
    requires GameOk(g, ids)
    ensures TablesMatch(g, ids) && forall m | m in g.members :: m in ids
  {
    hide Pids;
  }

  /** What the leaver itself would have been sent is forgotten with it. */
  lemma AbandonForgets(l: Lobby<Session>, a: Lobby<Session>, s: Session, gid: int)
    requires LeaveReady(l, s, gid)
    requires a == Leave<Session>(Dequeue<Session>(l, s), s, gid).(inbox := a.inbox)
    requires var g := l.games[gid];
             a.inbox == Post<Session>(l.inbox,
               RemovalMail<Session>(Without<Session>(g.members, s), PlayerRemoved(gid, Pid<Session>(l.ids, s)), s, s == g.host, gid))
    ensures s in Leave<Session>(Dequeue<Session>(l, s), s, gid).ids
    ensures Forget<Session>(a, s) == Forget<Session>(Leave<Session>(Dequeue<Session>(l, s), s, gid), s)
  {
    hide Inv, Dequeue, Leave, Without, Pid, Post, RemovalMail;
    LeaveFacts(l, s, gid);
    var g, removed := l.games[gid], PlayerRemoved(gid, Pid<Session>(l.ids, s));
    RemovalInbox(l, s, gid);
    DepartSeats(l, s, gid);
    WithoutMail(l.inbox, g.members, Without<Session>(g.members, s), removed, s, s == g.host, gid);
  }

  lemma LeaveFacts(l: Lobby<Session>, s: Session, gid: int)
    requires LeaveReady(l, s, gid)
    ensures Leave<Session>(Dequeue<Session>(l, s), s, gid).ids == l.ids && s in l.ids
  {
    hide RegistryOk, GamesOk, SeatsOk, QueueOk, InboxesOk, RemoveRequests, Refresh, RemoveMember, Post;
  }

  lemma WithoutMail(inbox: map<Session, seq<Note>>, members: seq<Session>, others: seq<Session>, removed: Note, s: Session, gone: bool, gid: int)
    requires forall x | x in members :: x == s || x in others
    requires forall x | x in others :: x in members && x != s
    ensures Post<Session>(inbox, RemovalMail<Session>(others, removed, s, gone, gid)) - {s}
         == Post<Session>(inbox, RemovalMail<Session>(members, removed, s, gone, gid)) - {s}
  {
  }

  lemma DisconnectSteps(l: Lobby<Session>, s: Session, gid: int, found: bool)
    requires Inv(l) && s in l.ids
    requires s in l.seats
    requires if l.seats[s].gameID in l.games then found && gid == l.seats[s].gameID
             else LeftoverGame<Session>(l, s) == if found then Some(gid) else None
    requires found ==> gid in l.games
    ensures found ==> gid in Dequeue<Session>(l, s).games && s in Leave<Session>(Dequeue<Session>(l, s), s, gid).ids
    ensures s in Dequeue<Session>(l, s).ids
    ensures Disconnect<Session>(l, s) ==
            Forget<Session>(if found then Leave<Session>(Dequeue<Session>(l, s), s, gid) else Dequeue<Session>(l, s), s)
  {
    hide Inv, LeftoverGame, Forget, RemoveRequests, Refresh, RemoveMember, Post;
  }

  lemma LeftoverIs<S>(l: Lobby<S>, s: S, listing: set<int>)
    requires forall k | k in l.games :: k in listing <==> MemberFor<S>(l.ids, l.games[k].members, Pid<S>(l.ids, s)) == Some(s)
    requires listing <= l.games.Keys
    ensures LeftoverGame<S>(l, s) == if listing == {} then None else Some(IntSets.Least(listing))
  {
    var ids := set gid | gid in l.games && MemberFor<S>(l.ids, l.games[gid].members, Pid<S>(l.ids, s)) == Some(s);
    forall k
      ensures k in ids <==> k in listing
    {
      if k in l.games {
        assert k in listing <==> MemberFor<S>(l.ids, l.games[k].members, Pid<S>(l.ids, s)) == Some(s);
      }
    }
  }

  lemma Remaining(l: Lobby<Session>, t: Session, gid: int)
    requires LeaveReady(l, t, gid)
    ensures Separate(Without<Session>(l.games[gid].members, t))
    ensures forall m | m in Without<Session>(l.games[gid].members, t) :: m in l.ids
  {
    hide RegistryOk, GamesOk, SeatsOk, QueueOk, InboxesOk, GameOk, Pids, Without;
    SlotsAreTables(l, gid);
    Distinct(l.games[gid], l.ids);
    WithoutSpec(l.ids, l.games[gid].members, t);
  }

  lemma RemovalInbox(l: Lobby<Session>, t: Session, gid: int)
    requires LeaveReady(l, t, gid)
    ensures var g := l.games[gid];
            Leave<Session>(Dequeue<Session>(l, t), t, gid).inbox ==
            Post<Session>(l.inbox, RemovalMail<Session>(g.members, PlayerRemoved(gid, Pid<Session>(l.ids, t)), t, t == g.host, gid))
  {
    hide Inv, RemovalMail, Post, Leave, Dequeue, Refresh, RemoveMember, Freed, Without;
    LeaveIs(l, t, gid);
  }

  lemma MapTwice<K, V>(m: map<K, V>, k: K, a: V, b: V)
    ensures m[k := a][k := b] == m[k := b] && m[k := a] - {k} == m - {k}
  {
  }

  /** Everyone in `gone` is free, and so is the leaver. */
  function Freed(seats: map<Session, Seat>, t: Session, gone: seq<Session>): map<Session, Seat>
  {
    map x | x in seats :: if x == t || x in gone then IDLE else seats[x]
  }

  lemma LeaveIs(l: Lobby<Session>, t: Session, gid: int)
    requires LeaveReady(l, t, gid)
    ensures var l1 := Dequeue<Session>(l, t);
            var l' := Leave<Session>(l1, t, gid);
            var g := l.games[gid];
            && l' == l1.(games := l'.games, seats := l'.seats, inbox := l'.inbox) && l1.games == l.games
            && l'.games == (if t == g.host then l.games - {gid} else l.games[gid := Refresh<Session>(RemoveMember<Session>(g, l.ids, t), l.ids)])
            && l'.seats == (if t == g.host then Freed(l.seats, t, Without<Session>(g.members, t)) else l.seats[t := IDLE])
            && l'.inbox == Post<Session>(l.inbox, RemovalMail<Session>(g.members, PlayerRemoved(gid, Pid<Session>(l.ids, t)), t, t == g.host, gid))
  {
    DepartSeats(l, t, gid);
    hide RegistryOk, GamesOk, SeatsOk, QueueOk, InboxesOk, GameOk, Pids, Without, RemoveRequests, RemoveMember, Refresh, Pid, Post, RemovalMail, Freed;
    SlotsAreTables(l, gid);
    LeaveParts(Dequeue<Session>(l, t), t, gid);
    FreedAgain(l.seats, t, l.seats[t].(queuedMatch := 0), Without<Session>(l.games[gid].members, t));
  }

  lemma DepartMaps(l: Lobby<Session>, t: Session, gid: int)
    requires LeaveReady(l, t, gid)
    ensures var g := l.games[gid];
            var g1 := RemoveMember<Session>(g, l.ids, t);
            var g2 := Refresh<Session>(g1, l.ids);
            && l.games[gid := g1][gid := g2] == l.games[gid := g2] && l.games[gid := g1] - {gid} == l.games - {gid}
            && Freed(l.seats[t := IDLE], t, Without<Session>(g.members, t)) == Freed(l.seats, t, Without<Session>(g.members, t))
  {
    hide Inv, RemoveMember, Refresh, Without, Freed;
    var g1 := RemoveMember<Session>(l.games[gid], l.ids, t);
    MapTwice(l.games, gid, g1, Refresh<Session>(g1, l.ids));
    FreedAgain(l.seats, t, IDLE, Without<Session>(l.games[gid].members, t));
  }

  lemma DepartIs(l: Lobby<Session>, l': Lobby<Session>, t: Session, gid: int)
    requires LeaveReady(l, t, gid)
    requires l' == l.(games := l'.games, seats := l'.seats, queue := RemoveRequests<Session>(l.queue, t))
    requires var g := l.games[gid];
             && l'.games == (if t == g.host then l.games - {gid} else l.games[gid := Refresh<Session>(RemoveMember<Session>(g, l.ids, t), l.ids)])
             && l'.seats == (if t == g.host then Freed(l.seats, t, Without<Session>(g.members, t)) else l.seats[t := IDLE])
    ensures l' == Leave<Session>(Dequeue<Session>(l, t), t, gid).(inbox := l.inbox)
  {
    hide Inv, RemoveRequests, RemoveMember, Refresh, Without, Freed, Leave, Post, Pid;
    LeaveIs(l, t, gid);
  }

  lemma FreedAgain(seats: map<Session, Seat>, t: Session, seat: Seat, gone: seq<Session>)
    requires t in seats
    ensures Freed(seats[t := seat], t, gone) == Freed(seats, t, gone)
    ensures seats[t := seat][t := IDLE] == seats[t := IDLE]
  {
  }

  lemma LeaveParts(l: Lobby<Session>, t: Session, gid: int)
    requires gid in l.games && l.games[gid].id == gid && t in l.seats && t in l.games[gid].members
    requires forall x | x in l.games[gid].members :: x == t || x in Without(l.games[gid].members, t)
    requires forall x | x in Without(l.games[gid].members, t) :: x in l.games[gid].members && x != t
    ensures var l' := Leave<Session>(l, t, gid);
            var g := l.games[gid];
            && l' == l.(games := l'.games, seats := l'.seats, inbox := l'.inbox)
            && l'.games == (if t == g.host then l.games - {gid} else l.games[gid := Refresh<Session>(RemoveMember<Session>(g, l.ids, t), l.ids)])
            && l'.seats == (if t == g.host then Freed(l.seats, t, Without<Session>(g.members, t)) else l.seats[t := IDLE])
            && l'.inbox == Post<Session>(l.inbox, RemovalMail<Session>(g.members, PlayerRemoved(gid, Pid<Session>(l.ids, t)), t, t == g.host, gid))
  {
    hide Without, Refresh, RemoveMember, Pid, Post, RemovalMail;
  }

  lemma StruckMembers(g: Game<Session>, ids: map<Session, Identity>, t: Session)
    requires t in g.members
    ensures RemoveMember<Session>(g, ids, t).members == Without<Session>(g.members, t)
    ensures forall x | x in Without<Session>(g.members, t) :: x in g.members
  {
    WithoutSubset(g.members, t);
  }

  lemma {:induction false} WithoutSubset(members: seq<Session>, t: Session)
    ensures forall x | x in Without<Session>(members, t) :: x in members
    decreases |members|
  {
    if members != [] {
      WithoutSubset(members[1..], t);
    }
  }

  /** The host's roster without the host, and the host, are the roster. */
  lemma DepartSeats(l: Lobby<Session>, t: Session, gid: int)
    requires LeaveReady(l, t, gid)
    ensures RemoveMember(l.games[gid], l.ids, t).members == Without(l.games[gid].members, t)
    ensures forall x | x in l.games[gid].members :: x == t || x in Without(l.games[gid].members, t)
    ensures forall x | x in Without(l.games[gid].members, t) :: x in l.games[gid].members && x != t
  {
    hide RegistryOk, GamesOk, SeatsOk, QueueOk, InboxesOk, GameOk, Pids, Without;
    SlotsAreTables(l, gid);
    Distinct(l.games[gid], l.ids);
    WithoutSpec(l.ids, l.games[gid].members, t);
  }

  lemma MergedRoster(g: Game<Session>, p: int, attrs: Attrs)
    ensures MergeAttrs<Session>(g, p, attrs).members == g.members
  {
  }

  /** Who hears a broadcast depends on the roster only. */
  lemma SameBroadcast(l: Lobby<Session>, l': Lobby<Session>, s: Session, gid: int, n: Note)
    requires gid in l.games && gid in l'.games && l'.games[gid].members == l.games[gid].members
    ensures LobbyModel.Broadcast<Session>(l', s, gid, n) == LobbyModel.Broadcast<Session>(l, s, gid, n)
  {
  }

  lemma RosterFacts(g: Game<Session>, ids: map<Session, Identity>)
    requires GameOk(g, ids)
    ensures Separate(g.members) && g.members != [] && g.host in g.members && TablesMatch(g, ids)
  {
    hide Pids;
  }

  ghost predicate Separate(to: seq<Session>)
  {
    forall i, j | 0 <= i < j < |to| :: to[i] != to[j]
  }

  lemma PrefixStep(to: seq<Session>, i: nat)
    requires Separate(to) && i < |to|
    ensures to[i] !in to[..i] && to[i] in to && to[..i + 1] == to[..i] + [to[i]]
  {
  }

  /** Mail for one more connection. */
  lemma PostAnother(inbox: map<Session, seq<Note>>, mail: map<Session, seq<Note>>, s: Session, own: seq<Note>)
    requires s !in mail
    ensures Post<Session>(Post<Session>(inbox, mail), map[s := own]) == Post<Session>(inbox, mail[s := own])
  {
    forall x | x in inbox
      ensures Post<Session>(Post<Session>(inbox, mail), map[s := own])[x] == Post<Session>(inbox, mail[s := own])[x]
    {
      assert inbox[x] + [] == inbox[x];
    }
  }

  /** Nothing waits for these connections, and they are open. */
  ghost predicate Settled(connections: set<Session>)
    reads connections`notifications, connections`closed
  {
    forall s | s in connections :: s.notifications == [] && !s.closed
  }
}
