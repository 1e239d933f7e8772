/** Who is told what, frame by frame. */
module LobbyMail {
  import opened Options
  import opened LobbyModel
  import opened LobbyInvariant
  import opened LobbyGames
  import opened LobbyQueueSteps
  import opened LobbyJoinSteps
  import opened LobbyOpenSteps
  import opened LobbyLeaveSteps
  import opened LobbyRoomSteps
  import opened LobbySessionSteps
  import opened LobbyHistory
  import opened LobbyOutcomes
  import opened LobbyEffects

  // ---- users -----------------------------------------------------------------------------------

  /** What a logged-in user's arrival is announced with: its persona, then its session's id. */
  function About(id: Identity): (notes: seq<Note>)
    ensures |notes| == 2
  {
    [UserAdded(id.personaID), ExtendedData(id.sessionID)]
  }

  lemma UserNotesAbout<S>(l: Lobby<S>, s: S)
    requires RegistryOk(l) && LoggedIn(l, s)
    ensures UserNotes(l.ids, s) == About(l.ids[s]) && l.ids[s].sessionID > 0
  {
    assert IdentityOk(l, s);
  }

  /** The announcements of a roster, in order. */
  lemma {:induction false} UsersInOrder<S>(l: Lobby<S>, members: seq<S>, s: S)
    requires RegistryOk(l) && s !in members && forall m | m in members :: LoggedIn(l, m)
    ensures var notes := UserNotesExcept(l.ids, members, s);
            && |notes| == 2 * |members|
            && forall i | 0 <= i < |members| :: members[i] in l.ids && notes[2 * i..2 * i + 2] == About(l.ids[members[i]])
    decreases |members|
  {
    hide RegistryOk, UserNotes, About;
    if members != [] {
      assert members[0] in members && members[0] in l.ids;
      UserNotesAbout(l, members[0]);
      UsersInOrder(l, members[1..], s);
      var notes, rest := UserNotesExcept(l.ids, members, s), UserNotesExcept(l.ids, members[1..], s);
      assert members[0] != s;
      assert notes == About(l.ids[members[0]]) + rest;
      forall i | 0 <= i < |members|
        ensures members[i] in l.ids && notes[2 * i..2 * i + 2] == About(l.ids[members[i]])
      {
        assert members[i] in members;
        if i > 0 {
          assert notes[2 * i..2 * i + 2] == rest[2 * (i - 1)..2 * (i - 1) + 2];
          assert members[i] == members[1..][i - 1];
        }
      }
    }
  }

  // ---- names -----------------------------------------------------------------------------------

  /** The number a decimal string spells. */
  function Spelled(s: string): nat
  {
    if s == [] then 0
    else 10 * Spelled(s[..|s| - 1]) + if '0' <= s[|s| - 1] <= '9' then s[|s| - 1] as int - '0' as int else 0
  }

  lemma {:induction false} DecimalSpells(n: nat)
    ensures Spelled(Decimal(n)) == n && Decimal(n) != []
  {
    var d := Decimal(n);
    if n >= 10 {
      DecimalSpells(n / 10);
      assert d[..|d| - 1] == Decimal(n / 10);
    } else {
      assert d[..0] == [];
    }
  }

  /** personaName: "Player", followed by the persona when it is above 1; so different personas above 1
      have different names. */
  lemma PersonaNames(p: int, q: int)
    requires p > 1
    ensures PersonaName(1) == PersonaName(0) == "Player"
    ensures |PersonaName(p)| > 6 && PersonaName(p)[..6] == "Player" && Spelled(PersonaName(p)[6..]) == p
    ensures q > 1 && q != p ==> PersonaName(q) != PersonaName(p)
  {
    DecimalSpells(p);
    assert PersonaName(p)[6..] == Decimal(p);
    if q > 1 {
      DecimalSpells(q);
      assert PersonaName(q)[6..] == Decimal(q);
    }
  }

  /** A first login: the session takes the name asked for, else the user's own, else the default, and
      is told of itself; nobody else is told anything, and no seat, game or request changes. */
  lemma LoginEffect<S>(l: Lobby<S>, s: S, requested: int, name: string)
    requires Inv(l) && s in l.ids
    ensures var l' := Login(l, s, requested, name);
            var me := l'.ids[s];
            && l'.seats == l.seats && l'.games == l.games && l'.queue == l.queue
            && s in l'.inbox && l'.inbox[s] == l.inbox[s] + About(me)
            && (forall x | x in l.inbox && x != s :: x in l'.inbox && l'.inbox[x] == l.inbox[x] && l'.ids[x] == l.ids[x])
            && (l.ids[s].personaID == 0 ==>
                  && me.personaID in l'.users && l'.users[me.personaID] == User(me.accountID, me.personaID, me.name)
                  && (forall q | q in l.users && q != me.personaID :: q in l'.users && l'.users[q] == l.users[q])
                  && me.name == if name != "" then name
                                else if me.personaID in l.users then l.users[me.personaID].name
                                else PersonaName(me.personaID))
  {
    hide GamesOk, SeatsOk, QueueOk, InboxesOk, FreshPersona, PersonaName, UserNotes;
    ChosenPersonaIsFree(l, requested);
    LoginRegistryAlways(l, s, requested, name);
    UserNotesAbout(Login(l, s, requested, name), s);
    NoMoreMail(l.inbox, s);
  }

  lemma LoginRegistryAlways<S>(l: Lobby<S>, s: S, requested: int, name: string)
    requires Inv(l) && s in l.ids
    ensures RegistryOk(Login(l, s, requested, name)) && LoggedIn(Login(l, s, requested, name), s)
  {
    hide GamesOk, SeatsOk, QueueOk, InboxesOk, RegistryOk, Post, UserNotes, Authenticate;
    LoginKeeps(l, s, requested, name);
    if l.ids[s].personaID == 0 {
      LoginNames(l, s, requested, name);
    } else {
      AuthenticateOnce(l, s, requested, name);
    }
  }

  // ---- joining ---------------------------------------------------------------------------------

  /** The members of a game hear of a newcomer, then of its joining under its slot. */
  ghost predicate MembersTold<S>(l: Lobby<S>, l': Lobby<S>, gid: int, s: S, slot: int)
    requires gid in l.games && s in l.ids
  {
    && l'.inbox.Keys == l.inbox.Keys
    && (forall x | x in l.inbox && x != s && x in l.games[gid].members ::
          l'.inbox[x] == l.inbox[x] + About(l.ids[s]) + [PlayerJoining(gid, l.ids[s].personaID, slot)])
    && (forall x | x in l.inbox && x != s && x !in l.games[gid].members :: l'.inbox[x] == l.inbox[x])
  }

  /** The newcomer hears of every member in roster order, then gets the setup: the host, and every
      member with its slot, itself last. */
  ghost predicate NewcomerTold<S>(ids: map<S, Identity>, g: Game<S>, before: seq<Note>, after: seq<Note>, s: S, slot: int)
    requires s in ids && g.host in ids
  {
    var n, k := |before|, |g.members|;
    && |after| == n + 2 * k + 1 && after[..n] == before
    && (forall i | 0 <= i < k :: g.members[i] in ids && after[n + 2 * i..n + 2 * i + 2] == About(ids[g.members[i]]))
    && after[n + 2 * k].GameSetup? && after[n + 2 * k].gid == g.id && after[n + 2 * k].host == ids[g.host].personaID
    && var roster := after[n + 2 * k].roster;
    && |roster| == k + 1 && roster[k] == (ids[s].personaID, slot)
    && (forall i | 0 <= i < k ::
          g.members[i] in ids && ids[g.members[i]].personaID in g.slots
          && roster[i] == (ids[g.members[i]].personaID, g.slots[ids[g.members[i]].personaID]))
  }

  /** So it is when matchmaking puts a session into a registered game; nobody else hears anything. */
  lemma JoiningIsTold<S>(l: Lobby<S>, s: S, attrs: Attrs, cap: int, topology: int, now: int, gid: int)
    requires Asks(l, s, now) && FirstSuiting(l, s, attrs, cap, topology, gid)
    ensures s in l.seats && s in l.inbox && l.games[gid].host in l.ids
    ensures var l' := QueueMatch(l, s, attrs, cap, topology, now);
            var p := l.ids[s].personaID;
            && gid in l'.games && p in l'.games[gid].slots && s in l'.inbox
            && MembersTold(l, l', gid, s, l'.games[gid].slots[p])
            && NewcomerTold(l.ids, l.games[gid], l.inbox[s], l'.inbox[s], s, l'.games[gid].slots[p])
  {
    hide Inv, QueueMatch, Suits, CompatibleGame, RemoveRequests, OpenSlot, Unqueued, ScanGames, PlaceRequest, Join, Joined, Dequeue, About;
    hide MembersTold, NewcomerTold;
    var r := Asked(l, s, attrs, cap, topology);
    forall k | k in l.games
      ensures Suits(l.games[k], s, attrs, cap, topology) <==> Compatible(l, r, k)
    {
      SuitsIsCompatible(l.games[k], r);
    }
    var l2 := AskRestarts(l, s, attrs, cap, topology, now);
    assert forall k | k in l2.games && Compatible(l2, r, k) :: Compatible(l, r, k);
    assert Compatible(l2, r, gid);
    ScanFinds(l2, r, now, gid);
    CompatibleAccepts(l2, r, now, gid);
    PlacedJoin(l2, r, now, gid);
    SameInboxes(l, s);
    JoinTells(l2, s, gid, OpenSlot(l2, gid), now);
    SameMembersTold(l, l2, QueueMatch(l, s, attrs, cap, topology, now), gid, s, OpenSlot(l2, gid));
  }

  lemma SameMembersTold<S>(l: Lobby<S>, l2: Lobby<S>, l': Lobby<S>, gid: int, s: S, slot: int)
    requires gid in l2.games && s in l2.ids && MembersTold(l2, l', gid, s, slot)
    requires l2.games == l.games && l2.ids == l.ids && l2.inbox == l.inbox
    ensures MembersTold(l, l', gid, s, slot)
  {
    hide About;
  }

  lemma SameInboxes<S>(l: Lobby<S>, s: S)
    requires s in l.seats
    ensures Dequeue(l.(nextMatch := l.nextMatch + 1), s).inbox == l.inbox
  {
  }

  lemma JoinTells<S>(l: Lobby<S>, s: S, gid: int, slot: int, now: int)
    requires JoinReady(l, s, gid, slot, now)
    ensures s in l.ids && s in l.inbox && l.games[gid].host in l.ids
    ensures var l' := Join(l, s, JoinedGames(l, s, gid, slot, now), gid);
            var p := l.ids[s].personaID;
            && gid in l'.games && p in l'.games[gid].slots && l'.games[gid].slots[p] == slot && s in l'.inbox
            && MembersTold(l, l', gid, s, slot) && NewcomerTold(l.ids, l.games[gid], l.inbox[s], l'.inbox[s], s, slot)
  {
    hide Inv, Unqueued, About, JoinedGames, Join, Joined, UserNotesExcept, SetupNote, MembersTold, NewcomerTold;
    JoinMembers(l, s, gid, slot, now);
    JoinNewcomer(l, s, gid, slot, now);
    JoinUsers(l, s, gid);
    JoinSetup(l, s, gid, slot, now);
    var g := l.games[gid];
    NewcomerMail(l.ids, g, l.inbox[s], UserNotesExcept(l.ids, g.members, s), SetupNote(Joined(g, Pid(l.ids, s), s, slot, now), l.ids), s, slot);
  }

  lemma NewcomerMail<S>(ids: map<S, Identity>, g: Game<S>, before: seq<Note>, users: seq<Note>, setup: Note, s: S, slot: int)
    requires s in ids && g.host in ids && |users| == 2 * |g.members|
    requires forall i | 0 <= i < |g.members| :: g.members[i] in ids && users[2 * i..2 * i + 2] == About(ids[g.members[i]])
    requires setup.GameSetup? && setup.gid == g.id && setup.host == ids[g.host].personaID
    requires |setup.roster| == |g.members| + 1 && setup.roster[|g.members|] == (ids[s].personaID, slot)
    requires forall i | 0 <= i < |g.members| ::
               ids[g.members[i]].personaID in g.slots
               && setup.roster[i] == (ids[g.members[i]].personaID, g.slots[ids[g.members[i]].personaID])
    ensures NewcomerTold(ids, g, before, before + users + [setup], s, slot)
  {
    hide About;
    var after, n := before + users + [setup], |before|;
    forall i | 0 <= i < |g.members|
      ensures after[n + 2 * i..n + 2 * i + 2] == About(ids[g.members[i]])
    {
      assert after[n + 2 * i..n + 2 * i + 2] == users[2 * i..2 * i + 2];
    }
  }

  lemma JoinMembers<S>(l: Lobby<S>, s: S, gid: int, slot: int, now: int)
    requires JoinReady(l, s, gid, slot, now)
    ensures s in l.ids && MembersTold(l, Join(l, s, JoinedGames(l, s, gid, slot, now), gid), gid, s, slot)
  {
    hide RegistryOk, GamesOk, SeatsOk, QueueOk, InboxesOk, Unqueued, UserNotes, UserNotesExcept, SetupNote, About, GameOk;
    FreeLoggedIn(l, s);
    UserNotesAbout(l, s);
    SlotsAreTables(l, gid);
    NoMoreMail(l.inbox, s);
    var note := [PlayerJoining(gid, Pid(l.ids, s), slot)];
    forall x | x in l.inbox
      ensures l.inbox[x] + (About(l.ids[s]) + note) == l.inbox[x] + About(l.ids[s]) + note
    {
    }
  }

  lemma JoinNewcomer<S>(l: Lobby<S>, s: S, gid: int, slot: int, now: int)
    requires JoinReady(l, s, gid, slot, now)
    ensures s in l.inbox && s in l.ids && Pid(l.ids, s) == l.ids[s].personaID
    ensures var l' := Join(l, s, JoinedGames(l, s, gid, slot, now), gid);
            var g, p := l.games[gid], Pid(l.ids, s);
            && gid in l'.games && p in l'.games[gid].slots && l'.games[gid].slots[p] == slot && s in l'.inbox
            && l'.inbox[s] == l.inbox[s] + UserNotesExcept(l.ids, g.members + [s], s) + [SetupNote(Joined(g, p, s, slot, now), l.ids)]
  {
    hide RegistryOk, GamesOk, SeatsOk, QueueOk, InboxesOk, Unqueued, UserNotesExcept, SetupNote, JoiningMail;
    var g, p := l.games[gid], Pid(l.ids, s);
    var users, setup := UserNotesExcept(l.ids, g.members + [s], s), [SetupNote(Joined(g, p, s, slot, now), l.ids)];
    assert l.inbox[s] + (users + setup) == l.inbox[s] + users + setup;
  }

  lemma {:induction false} ExceptItself<S>(ids: map<S, Identity>, members: seq<S>, s: S)
    ensures UserNotesExcept(ids, members + [s], s) == UserNotesExcept(ids, members, s)
    decreases |members|
  {
    hide UserNotes;
    if members == [] {
      assert [s][1..] == [];
    } else {
      assert (members + [s])[1..] == members[1..] + [s];
      ExceptItself(ids, members[1..], s);
    }
  }

  lemma JoinUsers<S>(l: Lobby<S>, s: S, gid: int)
    requires Inv(l) && Free(l, s) && gid in l.games
    ensures l.games[gid].host in l.ids && forall m | m in l.games[gid].members :: m in l.ids
    ensures var notes := UserNotesExcept(l.ids, l.games[gid].members, s);
            && UserNotesExcept(l.ids, l.games[gid].members + [s], s) == notes
            && |notes| == 2 * |l.games[gid].members|
            && forall i | 0 <= i < |l.games[gid].members| ::
                 notes[2 * i..2 * i + 2] == About(l.ids[l.games[gid].members[i]])
  {
    hide RegistryOk, GamesOk, SeatsOk, QueueOk, InboxesOk, Unqueued, About, UserNotesExcept, Pids, GameOk;
    FreeIsNoMember(l, s, gid);
    forall m | m in l.games[gid].members
      ensures LoggedIn(l, m)
    {
      MemberSeat(l, gid, m);
    }
    SlotsAreTables(l, gid);
    HostIsMember(l.games[gid], l.ids);
    UsersInOrder(l, l.games[gid].members, s);
    ExceptItself(l.ids, l.games[gid].members, s);
  }

  lemma HostIsMember<S>(g: Game<S>, ids: map<S, Identity>)
    requires GameOk(g, ids)
    ensures g.host in g.members
  {
    hide Pids;
  }

  lemma JoinSetup<S>(l: Lobby<S>, s: S, gid: int, slot: int, now: int)
    requires JoinReady(l, s, gid, slot, now)
    ensures var g := l.games[gid];
            var p := Pid(l.ids, s);
            var setup := SetupNote(Joined(g, p, s, slot, now), l.ids);
            && p == l.ids[s].personaID && g.host in l.ids
            && setup.GameSetup? && setup.gid == g.id && setup.host == l.ids[g.host].personaID
            && |setup.roster| == |g.members| + 1 && setup.roster[|g.members|] == (p, slot)
            && (forall i | 0 <= i < |g.members| ::
                  g.members[i] in l.ids && l.ids[g.members[i]].personaID in g.slots
                  && setup.roster[i] == (l.ids[g.members[i]].personaID, g.slots[l.ids[g.members[i]].personaID]))
  {
    hide RegistryOk, GamesOk, SeatsOk, QueueOk, InboxesOk, Unqueued, GameOk, Pids;
    SlotsAreTables(l, gid);
    FreeIsNoMember(l, s, gid);
    var g := l.games[gid];
    HostIsMember(g, l.ids);
    MemberSeat(l, gid, g.host);
    forall i | 0 <= i < |g.members|
      ensures g.members[i] in l.ids && l.ids[g.members[i]].personaID in g.slots && Pid(l.ids, g.members[i]) != Pid(l.ids, s)
    {
      MemberSeat(l, gid, g.members[i]);
      PidIn(l.ids, g.members, g.members[i]);
    }
  }

  // ---- pairing -----------------------------------------------------------------------------------

  /** The two sessions of a pairing hear of each other and then get the setup: the older request's
      owner as host in slot 0, the other in slot 1. Nobody else hears anything. */
  lemma PairingIsTold<S>(l: Lobby<S>, s: S, attrs: Attrs, cap: int, topology: int, now: int, i: nat)
    requires Asks(l, s, now) && !SomeSuits(l, s, attrs, cap, topology) && FirstAlike(l, s, attrs, cap, topology, i)
    ensures s in l.seats
    ensures var l' := QueueMatch(l, s, attrs, cap, topology, now);
            var h := Others(l, s)[i].session;
            && s in l.inbox && h in l.inbox && h in l.ids && l'.inbox.Keys == l.inbox.Keys
            && var setup := GameSetup(l.nextGame, l.ids[h].personaID, [(l.ids[h].personaID, 0), (l.ids[s].personaID, 1)]);
            && l'.inbox[h] == l.inbox[h] + About(l.ids[s]) + [setup]
            && l'.inbox[s] == l.inbox[s] + About(l.ids[h]) + [setup]
            && (forall x | x in l.inbox && x != s && x != h :: l'.inbox[x] == l.inbox[x])
  {
    hide Inv, QueueMatch, Suits, Agree, CompatibleGame, CompatibleMatch, RemoveRequests, ScanGames, PlaceRequest, Pair, Dequeue, About, FirstMatch;
    var r := Asked(l, s, attrs, cap, topology);
    NoneCompatible(l, s, attrs, cap, topology);
    forall k | 0 <= k < |Others(l, s)|
      ensures Alike(Others(l, s)[k], attrs, cap, topology) <==> CompatibleMatch(Others(l, s)[k], r)
    {
      AlikeIsCompatible(Others(l, s)[k], r);
    }
    OthersAreOthers(l, s);
    var l2 := AskRestarts(l, s, attrs, cap, topology, now);
    assert Others(l, s) == l2.queue;
    ScanSpec(l2, r, now, l2.games.Keys);
    assert forall k | k in l2.games.Keys :: Compatible(l2, r, k) ==> Compatible(l, r, k);
    FirstMatchSpec(l2.queue, r);
    assert FirstMatch(l2.queue, r) == i;
    PlacedPair(l2, r, now, i);
    SameInboxes(l, s);
    PairTells(l2, i, r, now);
  }

  lemma PairTells<S>(l: Lobby<S>, i: nat, r: Request<S>, now: int)
    requires PairReady(l, i, r, now)
    ensures var l' := Pair(l, i, r, now);
            var h, s := l.queue[i].session, r.session;
            && s in l.inbox && h in l.inbox && h in l.ids && s in l.ids && l'.inbox.Keys == l.inbox.Keys
            && var setup := GameSetup(l.nextGame, l.ids[h].personaID, [(l.ids[h].personaID, 0), (l.ids[s].personaID, 1)]);
            && l'.inbox[h] == l.inbox[h] + About(l.ids[s]) + [setup]
            && l'.inbox[s] == l.inbox[s] + About(l.ids[h]) + [setup]
            && (forall x | x in l.inbox && x != s && x != h :: l'.inbox[x] == l.inbox[x])
  {
    hide RegistryOk, GamesOk, SeatsOk, QueueOk, InboxesOk, Unqueued, NewGame, GameOk, About, UserNotes, Roster, LoggedIn;
    var q, s := l.queue[i], r.session;
    PairParties(l, i, r, now);
    FreeLoggedIn(l, s);
    UserNotesAbout(l, q.session);
    UserNotesAbout(l, s);
    NewGameTwo(l.ids, l.nextGame, q.session, s, q.attrs, q.cap, q.topology, now);
    var g := NewGame(l.ids, l.nextGame, q.session, [q.session, s], q.attrs, q.cap, q.topology, now);
    PairRoster(g, l.ids, q.session, s);
    NoMoreMail(l.inbox, s);
  }

  lemma FreeLoggedIn<S>(l: Lobby<S>, s: S)
    requires Free(l, s)
    ensures LoggedIn(l, s)
  {
  }

  lemma PairRoster<S>(g: Game<S>, ids: map<S, Identity>, h: S, s: S)
    requires g.members == [h, s] && Pid(ids, h) != Pid(ids, s) && g.slots == map[Pid(ids, h) := 0, Pid(ids, s) := 1]
    ensures Roster(g, ids) == [(Pid(ids, h), 0), (Pid(ids, s), 1)]
  {
  }

  // ---- leaving -----------------------------------------------------------------------------------

  /** Those who stay, or were in it with the host, hear of a member's removal from a game and, if it
      was the host, of the game's. */
  ghost predicate HearRemoval<S>(l: Lobby<S>, l': Lobby<S>, gid: int, t: S)
    requires gid in l.games && t in l.ids
  {
    forall x | x in l.inbox && x in l'.inbox && x != t ::
      l'.inbox[x] == l.inbox[x]
        + (if x in l.games[gid].members then [PlayerRemoved(gid, l.ids[t].personaID)] else [])
        + if x in l.games[gid].members && t == l.games[gid].host then [GameRemoved(gid)] else []
  }

  lemma LeaveTells<S>(l: Lobby<S>, t: S, gid: int)
    requires LeaveReady(l, t, gid)
    ensures var l' := Leave(Dequeue(l, t), t, gid);
            && t in l.ids && l'.inbox.Keys == l.inbox.Keys && HearRemoval(l, l', gid, t)
            && t in l.inbox && l'.inbox[t] == l.inbox[t] + [PlayerRemoved(gid, l.ids[t].personaID)]
  {
    hide RegistryOk, GamesOk, SeatsOk, QueueOk, InboxesOk, Leave, RemoveRequests, Refresh, RemoveMember;
    DequeueKeeps(l, t);
    LeaveShape(Dequeue(l, t), t, gid);
    NoMoreMail(l.inbox, t);
    forall x | x in l.inbox
      ensures l.inbox[x] + [PlayerRemoved(gid, Pid(l.ids, t))] + [] == l.inbox[x] + [PlayerRemoved(gid, Pid(l.ids, t))]
    {
    }
  }

  /** removePlayer tells everybody in the game of a permitted removal, the removed player included,
      echoes a request about an unknown game to its sender, and otherwise tells nobody anything. */
  lemma RemovalIsTold<S>(l: Lobby<S>, s: S, gid: int, pid: int)
    requires Inv(l) && LoggedIn(l, s)
    ensures var l' := RemovePlayer(l, s, gid, pid);
            && l'.inbox.Keys == l.inbox.Keys && s in l.inbox
            && if gid !in l.games then
                 l'.inbox[s] == l.inbox[s] + [PlayerRemoved(gid, pid)] && forall x | x in l.inbox && x != s :: l'.inbox[x] == l.inbox[x]
               else if s in l.games[gid].members && pid in Pids(l.ids, l.games[gid].members)
                       && (Pid(l.ids, s) == pid || s == l.games[gid].host) then
                 exists t | t in l.games[gid].members ::
                   && t in l.ids && t in l.inbox && Pid(l.ids, t) == pid && HearRemoval(l, l', gid, t)
                   && l'.inbox[t] == l.inbox[t] + [PlayerRemoved(gid, pid)]
               else l'.inbox == l.inbox
  {
    hide RegistryOk, GamesOk, SeatsOk, QueueOk, InboxesOk, GameOk, AllowedTarget, Leave, Dequeue, Pids, HearRemoval;
    NoMoreMail(l.inbox, s);
    if gid in l.games {
      AllowedTargetExact(l, s, gid, pid);
      var target := AllowedTarget(l, s, gid, pid);
      if target.Some? {
        SamePlayer(l, gid, s, target.value);
        PidIn(l.ids, l.games[gid].members, target.value);
        MemberSeat(l, gid, target.value);
        LeaveTells(l, target.value, gid);
      }
    }
  }

  /** A disconnection is heard of by everybody who was in the game with the session, and by nobody
      else. */
  lemma DisconnectionIsTold<S>(l: Lobby<S>, s: S, gid: int)
    requires Inv(l) && s in l.ids && gid in l.games && s in l.games[gid].members
    ensures var l' := Disconnect(l, s);
            l'.inbox.Keys == l.inbox.Keys - {s} && HearRemoval(l, l', gid, s)
  {
    hide RegistryOk, GamesOk, SeatsOk, QueueOk, InboxesOk, GameOk, Leave, Dequeue, Pids, Disconnect, LeftoverGame;
    MemberSeat(l, gid, s);
    DisconnectIs(l, s);
    LeaveTells(l, s, gid);
  }

  /** The disconnection of a session that is in no game is heard of by nobody. */
  lemma QuietDisconnection<S>(l: Lobby<S>, s: S)
    requires Inv(l) && s in l.ids && l.seats[s].gameID == 0
    ensures Disconnect(l, s).inbox == l.inbox - {s} && Disconnect(l, s).games == l.games
  {
    hide RegistryOk, GamesOk, SeatsOk, QueueOk, InboxesOk, Leave, RemoveRequests, Disconnect, LeftoverGame;
    DisconnectIs(l, s);
  }
}
