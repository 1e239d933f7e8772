/** A session opens a game of its own, or two queued sessions open one together. */
module LobbyOpenSteps {
  import opened LobbyModel
  import opened LobbyClient
  import opened LobbyInvariant
  import opened LobbyGames
  import opened LobbyInboxes
  import opened LobbyFrames
  import opened LobbyQueueSteps
  import opened LobbyJoinSteps

  /** `l'` is `l` with a new game `g` whose members, free until now, sit in it and were told of
      each other and of the game. */
  ghost predicate Opens<S>(l: Lobby<S>, l': Lobby<S>, g: Game<S>)
    requires KeysOk(l)
  {
    && g.id == l.nextGame && GameOk(g, l.ids)
    && KeysOk(l')
    && l' == l.(games := l.games[g.id := g], nextGame := g.id + 1, seats := l'.seats, inbox := l'.inbox)
    && (forall x | x in l.ids :: if x in g.members then Free(l, x) && Seated(l'.seats[x], g.id) else l'.seats[x] == l.seats[x])
    && (forall m | m in g.members :: m in l.ids)
    && (forall x | x in l.ids ::
          l'.inbox[x] == if x in g.members then l.inbox[x] + SetupMail(g, l.ids, x) else l.inbox[x])
  }

  predicate Seated(seat: Seat, gid: int)
  {
    seat.gameID == gid && seat.queuedMatch == 0 && (seat.pending == 0 || seat.pending == gid)
  }

  /** What a member is sent when it comes in: everyone else, then the setup. */
  function SetupMail<S(==)>(g: Game<S>, ids: map<S, Identity>, m: S): seq<Note>
  {
    UserNotesExcept(ids, g.members, m) + [SetupNote(g, ids)]
  }

  lemma OpensKeeps<S>(l: Lobby<S>, l': Lobby<S>, g: Game<S>)
    requires Inv(l) && Opens(l, l', g)
    ensures Inv(l')
  {
    hide RegistryOk, GamesOk, SeatsOk, QueueOk, InboxesOk, SeatOk, InboxOk, GameOk, MemberSet, Opens;
    OpensIsLocal(l, l', g);
    forall m | m in l.ids && m in MemberSet(g)
      ensures SeatOk(l', m) && InboxOk(l', m)
    {
      InMemberSet(g, m);
      OpensMember(l, l', g, m);
    }
    LocalKeeps(l, l', g.id, MemberSet(g));
  }

  lemma OpensIsLocal<S>(l: Lobby<S>, l': Lobby<S>, g: Game<S>)
    requires Inv(l) && Opens(l, l', g)
    ensures Local(l, l', g.id, MemberSet(g)) && GameSeated(l', g.id)
  {
    hide RegistryOk, SeatsOk, QueueOk, InboxesOk, GameOk, UserNotesExcept, SetupNote, Unqueued, MemberSet;
    NoSuchGame(l);
    forall x | x in l.ids
      ensures x in MemberSet(g) <==> x in g.members
      ensures l.seats[x].gameID != g.id
    {
      InMemberSet(g, x);
      SeatBelow(l, x);
    }
  }

  lemma NoSuchGame<S>(l: Lobby<S>)
    requires GamesOk(l)
    ensures l.nextGame !in l.games && l.nextGame > 0
  {
    hide GameOk;
  }

  lemma SeatBelow<S>(l: Lobby<S>, x: S)
    requires KeysOk(l) && GamesOk(l) && SeatsOk(l) && x in l.seats
    ensures l.seats[x].gameID != l.nextGame
  {
    hide GameOk;
    assert SeatOk(l, x);
  }

  lemma OpensMember<S>(l: Lobby<S>, l': Lobby<S>, g: Game<S>, m: S)
    requires Inv(l) && Opens(l, l', g) && m in g.members
    ensures m in l'.seats && m in l'.inbox && SeatOk(l', m) && InboxOk(l', m)
  {
    hide RegistryOk, GamesOk, SeatsOk, QueueOk, InboxesOk, InboxOk, GameOk, UserNotesExcept, SetupNote, Unqueued, Legal, After, Pids, Pid;
    hide ViewOf;
    NoSuchGame(l);
    SeatBelow(l, m);
    LoggedInPid(l, m);
    ViewFacts(l, m);
    SetupMailView(Pid(l.ids, m), ViewOf(l, m), g, l.ids, m);
    forall x | x in g.members
      ensures Pid(l.ids, x) in Pids(l.ids, g.members)
    {
      PidIn(l.ids, g.members, x);
    }
    InboxBy(l, l', m, SetupMail(g, l.ids, m));
  }

  lemma LoggedInPid<S>(l: Lobby<S>, s: S)
    requires LoggedIn(l, s)
    ensures Pid(l.ids, s) != 0 && s in l.ids
  {
  }

  // ---- one host ----------------------------------------------------------------------------

  lemma HostKeeps<S>(l: Lobby<S>, s: S, attrs: Attrs, cap: int, topology: int, now: int)
    requires Inv(l) && Free(l, s) && now != 0
    ensures Inv(Host(l, s, attrs, cap, topology, now))
  {
    hide RegistryOk, GamesOk, SeatsOk, QueueOk, InboxesOk, GameOk, NewGame, SetupNote, Unqueued;
    var g := NewGame(l.ids, l.nextGame, s, [s], attrs, cap, topology, now);
    PositivePid(l, s);
    NewGameOne(l.ids, l.nextGame, s, attrs, cap, topology, now);
    assert UserNotesExcept(l.ids, [s], s) == [] by { assert [s][1..] == []; }
    assert [] + [SetupNote(g, l.ids)] == [SetupNote(g, l.ids)];
    OpensKeeps(l, Host(l, s, attrs, cap, topology, now), g);
  }

  lemma PositivePid<S>(l: Lobby<S>, s: S)
    requires RegistryOk(l) && LoggedIn(l, s)
    ensures Pid(l.ids, s) > 0
  {
    assert IdentityOk(l, s);
  }

  // ---- a pair ------------------------------------------------------------------------------

  /** The host's only request leaves the queue with the match. */
  lemma PairDequeues<S>(l: Lobby<S>, i: nat)
    requires Inv(l) && i < |l.queue|
    ensures var h := l.queue[i].session;
            && h in l.seats && Free(Dequeue(l, h), h)
            && Dequeue(l, h).queue == l.queue[..i] + l.queue[i + 1..]
            && Dequeue(l, h).seats == l.seats[h := IDLE]
  {
    hide RegistryOk, GamesOk, InboxesOk, CompatibleMatch;
    var h := l.queue[i].session;
    assert SeatOk(l, h);
    RemoveAt(l.queue, h, i);
    DequeueKeeps(l, h);
  }

  ghost predicate PairReady<S>(l: Lobby<S>, i: nat, r: Request<S>, now: int)
  {
    && Inv(l) && Free(l, r.session) && now != 0
    && i < |l.queue| && l.queue[i].session != r.session && l.queue[i].cap >= 2
  }

  lemma PairKeeps<S>(l: Lobby<S>, i: nat, r: Request<S>, now: int)
    requires PairReady(l, i, r, now)
    ensures Inv(Pair(l, i, r, now))
  {
    hide RegistryOk, GamesOk, SeatsOk, QueueOk, InboxesOk, GameOk, NewGame, SetupNote, Unqueued, Opens, Pair, Dequeue;
    var h := l.queue[i].session;
    PairDequeues(l, i);
    DequeueKeeps(l, h);
    PairOpens(l, i, r, now);
    var g := NewGame(l.ids, l.nextGame, h, [h, r.session], l.queue[i].attrs, l.queue[i].cap, l.queue[i].topology, now);
    OpensKeeps(Dequeue(l, h), Pair(l, i, r, now), g);
  }

  lemma PairOpens<S>(l: Lobby<S>, i: nat, r: Request<S>, now: int)
    requires PairReady(l, i, r, now)
    ensures var h := l.queue[i];
            var g := NewGame(l.ids, l.nextGame, h.session, [h.session, r.session], h.attrs, h.cap, h.topology, now);
            h.session in l.seats && Opens(Dequeue(l, h.session), Pair(l, i, r, now), g)
  {
    hide RegistryOk, GamesOk, SeatsOk, QueueOk, InboxesOk, GameOk, NewGame, SetupNote, UserNotes;
    var h := l.queue[i].session;
    var s := r.session;
    PairDequeues(l, i);
    var l1 := Dequeue(l, h);
    DequeueKeeps(l, h);
    StillFree(l, h, s);
    PositivePid(l1, h);
    PositivePid(l, s);
    DifferentPids(l, h, s);
    NewGameTwo(l.ids, l.nextGame, h, s, l.queue[i].attrs, l.queue[i].cap, l.queue[i].topology, now);
    PairNotes(l.ids, h, s);
    var g := NewGame(l.ids, l.nextGame, h, [h, s], l.queue[i].attrs, l.queue[i].cap, l.queue[i].topology, now);
    assert g.members == [h, s];
    hide RemoveRequests, UserNotesExcept;
  }

  lemma DifferentPids<S>(l: Lobby<S>, a: S, b: S)
    requires RegistryOk(l) && LoggedIn(l, a) && b in l.ids && a != b
    ensures Pid(l.ids, a) != Pid(l.ids, b)
  {
    if Pid(l.ids, a) == Pid(l.ids, b) {
      SamePersona(l, a, b);
    }
  }

  lemma StillFree<S>(l: Lobby<S>, h: S, s: S)
    requires h in l.seats && Free(l, s) && s != h
    ensures Free(Dequeue(l, h), s)
  {
    RemoveRequestsElements(l.queue, h);
    var l1 := Dequeue(l, h);
    forall i | 0 <= i < |l1.queue|
      ensures l1.queue[i].session != s
    {
      assert l1.queue[i] in l.queue;
    }
  }

  lemma PairNotes<S>(ids: map<S, Identity>, h: S, s: S)
    requires h != s
    ensures UserNotesExcept(ids, [h, s], h) == UserNotes(ids, s)
    ensures UserNotesExcept(ids, [h, s], s) == UserNotes(ids, h)
  {
    hide UserNotes;
    assert [h, s][1..] == [s] && [s][1..] == [];
    assert UserNotes(ids, s) + [] == UserNotes(ids, s) && UserNotes(ids, h) + [] == UserNotes(ids, h);
    assert UserNotesExcept(ids, [], s) == [] && UserNotesExcept(ids, [], h) == [];
    assert UserNotesExcept(ids, [s], s) == [];
    assert UserNotesExcept(ids, [s], h) == UserNotes(ids, s);
  }
}
