/** Steps that concern the queue, and mail that changes nobody's lobby. */
module LobbyQueueSteps {
  import opened LobbyModel
  import opened LobbyClient
  import opened LobbyInvariant
  import opened LobbyGames
  import opened LobbyInboxes
  import opened LobbyFrames

  // ---- mail ----------------------------------------------------------------------------------

  /** Mail its recipients can take without changing their view keeps everything. */
  lemma MailKeeps<S>(l: Lobby<S>, mail: map<S, seq<Note>>)
    requires Inv(l)
    requires forall s | s in mail && s in l.inbox ::
        Pid(l.ids, s) != 0 && Legal(Pid(l.ids, s), ViewOf(l, s), mail[s])
        && After(Pid(l.ids, s), ViewOf(l, s), mail[s]) == ViewOf(l, s)
    ensures Inv(l.(inbox := Post(l.inbox, mail)))
  {
    hide RegistryOk, GamesOk, SeatsOk, QueueOk, InboxOk, Legal, After;
    var l' := l.(inbox := Post(l.inbox, mail));
    SameRegistry(l, l');
    SameSeats(l, l');
    SameQueue(l, l');
    SameGames(l, l');
    forall s | s in l'.inbox
      ensures InboxOk(l', s)
    {
      assert InboxOk(l, s);
      MailInbox(l, l', s, if s in mail then mail[s] else []);
    }
  }

  lemma SameRegistry<S>(l: Lobby<S>, l': Lobby<S>)
    requires RegistryOk(l) && l'.ids == l.ids && l'.users == l.users && l'.sessions == l.sessions && l'.active == l.active
    requires l'.nextUser == l.nextUser && l'.nextSession == l.nextSession
    ensures RegistryOk(l')
  {
    assert forall s | s in l.ids :: IdentityOk(l, s) ==> IdentityOk(l', s);
  }

  lemma SameGames<S>(l: Lobby<S>, l': Lobby<S>)
    requires GamesOk(l) && l'.ids == l.ids && l'.games == l.games && l'.nextGame == l.nextGame
    ensures GamesOk(l')
  {
    hide GameOk;
  }

  lemma SameSeats<S>(l: Lobby<S>, l': Lobby<S>)
    requires SeatsOk(l) && l'.ids == l.ids && l'.games == l.games && l'.seats == l.seats && l'.queue == l.queue
    ensures SeatsOk(l')
  {
    assert forall s | s in l.seats :: SeatOk(l, s) ==> SeatOk(l', s);
  }

  lemma SameQueue<S>(l: Lobby<S>, l': Lobby<S>)
    requires QueueOk(l) && l'.queue == l.queue && l'.seats == l.seats && l'.nextMatch >= l.nextMatch
    ensures QueueOk(l')
  {
    hide CompatibleMatch;
  }

  lemma MailInbox<S>(l: Lobby<S>, l': Lobby<S>, s: S, mail: seq<Note>)
    requires s in l.inbox && s in l.seats && InboxOk(l, s)
    requires l' == l.(inbox := l'.inbox) && s in l'.inbox && l'.inbox[s] == l.inbox[s] + mail
    requires mail != [] ==> Pid(l.ids, s) != 0
    requires mail != [] ==> Legal(Pid(l.ids, s), ViewOf(l, s), mail) && After(Pid(l.ids, s), ViewOf(l, s), mail) == ViewOf(l, s)
    ensures InboxOk(l', s)
  {
    hide Legal, After, InTune;
    if mail == [] {
      assert l.inbox[s] + [] == l.inbox[s];
    } else {
      Extend(l, s, mail);
    }
  }

  /** A note that is not about the recipient's game. */
  predicate Inert(v: View, n: Note)
  {
    match n
    case ExtendedData(_) => true
    case PlayerRemoved(g, _) => g == 0 || g != v.gid
    case PlatformHost(_) => true
    case GameCapacity(_, _) => true
    case GameAttributes(_, _) => true
    case PlayerAttributes(_, _, _) => true
    case _ => false
  }

  lemma InertNote(self: int, v: View, n: Note)
    requires Inert(v, n)
    ensures Legal(self, v, [n]) && After(self, v, [n]) == v
  {
    One(self, v, n);
  }

  // ---- connecting ----------------------------------------------------------------------------

  /** A fresh connection is known to nobody. */
  lemma ConnectKeeps<S>(l: Lobby<S>, s: S)
    requires Inv(l) && s !in l.ids
    ensures Inv(Connect(l, s))
  {
    hide RegistryOk, GamesOk, SeatsOk, QueueOk, InboxesOk;
    ConnectRegistry(l, s);
    ConnectGames(l, s);
    ConnectSeats(l, s);
    ConnectQueue(l, s);
    ConnectInboxes(l, s);
  }

  lemma ConnectQueue<S>(l: Lobby<S>, s: S)
    requires KeysOk(l) && QueueOk(l) && s !in l.ids
    ensures QueueOk(Connect(l, s))
  {
    hide CompatibleMatch;
  }

  lemma ConnectRegistry<S>(l: Lobby<S>, s: S)
    requires KeysOk(l) && RegistryOk(l) && s !in l.ids
    ensures RegistryOk(Connect(l, s))
  {
    var l' := Connect(l, s);
    forall x | x in l'.ids
      ensures IdentityOk(l', x)
    {
      if x != s {
        assert IdentityOk(l, x);
      }
    }
  }

  /** Games do not look at sessions outside their roster. */
  lemma GameFrame<S>(g: Game<S>, ids: map<S, Identity>, ids': map<S, Identity>)
    requires GameOk(g, ids)
    requires forall m | m in g.members :: m in ids' && Pid(ids', m) == Pid(ids, m)
    ensures GameOk(g, ids')
  {
    hide Pids, Pid, ReadinessExact, MeshInside, TablesMatch, MembersDistinct, HostFirst;
    PidsFrame(ids, ids', g.members);
    TablesFrame(g, ids, ids');
    HostFrame(g, ids, ids');
  }

  lemma TablesFrame<S>(g: Game<S>, ids: map<S, Identity>, ids': map<S, Identity>)
    requires TablesMatch(g, ids) && Pids(ids', g.members) == Pids(ids, g.members)
    ensures TablesMatch(g, ids')
  {
    hide Pids;
  }

  lemma HostFrame<S>(g: Game<S>, ids: map<S, Identity>, ids': map<S, Identity>)
    requires HostFirst(g, ids) && forall m | m in g.members :: Pid(ids', m) == Pid(ids, m)
    ensures HostFirst(g, ids')
  {
    hide Pid;
    assert g.members[0] in g.members;
  }

  lemma PidsFrame<S>(ids: map<S, Identity>, ids': map<S, Identity>, members: seq<S>)
    requires forall m | m in members :: m in ids' && Pid(ids', m) == Pid(ids, m)
    ensures Pids(ids', members) == Pids(ids, members)
    ensures MembersDistinct(ids, members) ==> MembersDistinct(ids', members)
  {
    assert forall i | 0 <= i < |members| :: Pid(ids', members[i]) == Pid(ids, members[i]);
  }

  lemma ConnectGames<S>(l: Lobby<S>, s: S)
    requires KeysOk(l) && GamesOk(l) && SeatsOk(l) && s !in l.ids
    ensures GamesOk(Connect(l, s))
  {
    hide GameOk, SeatOk;
    var l' := Connect(l, s);
    forall gid | gid in l'.games
      ensures GameOk(l'.games[gid], l'.ids)
    {
      forall m | m in l.games[gid].members
        ensures m in l'.ids && Pid(l'.ids, m) == Pid(l.ids, m)
      {
        assert m in l.seats;
      }
      GameFrame(l.games[gid], l.ids, l'.ids);
    }
  }

  lemma ConnectSeats<S>(l: Lobby<S>, s: S)
    requires KeysOk(l) && SeatsOk(l) && s !in l.ids
    ensures SeatsOk(Connect(l, s))
  {
    var l' := Connect(l, s);
    forall x | x in l'.seats
      ensures SeatOk(l', x)
    {
      if x != s {
        assert SeatOk(l, x);
      }
    }
  }

  lemma ConnectInboxes<S>(l: Lobby<S>, s: S)
    requires KeysOk(l) && SeatsOk(l) && GamesOk(l) && InboxesOk(l) && s !in l.ids
    ensures KeysOk(Connect(l, s)) && InboxesOk(Connect(l, s))
  {
    hide GameOk, SeatOk, InTune;
    var l' := Connect(l, s);
    forall x | x in l'.inbox
      ensures InboxOk(l', x)
    {
      if x != s {
        assert InboxOk(l, x);
        ConnectInbox(l, s, x);
      }
    }
  }

  lemma ConnectInbox<S>(l: Lobby<S>, s: S, x: S)
    requires KeysOk(l) && SeatsOk(l) && s !in l.ids && x in l.inbox && x in l.seats && InboxOk(l, x)
    ensures InboxOk(Connect(l, s), x)
  {
    hide SeatOk, Legal, After;
    var l' := Connect(l, s);
    assert Pid(l'.ids, x) == Pid(l.ids, x);
    var gid := l.seats[x].gameID;
    if gid in l.games {
      forall m | m in l.games[gid].members
        ensures m != s && m in l.seats
      {
        assert m in l.seats;
      }
    }
  }

  // ---- leaving the queue -----------------------------------------------------------------------

  /** Request order, and no two requests that could be paired. */
  ghost predicate Antichain<S>(queue: seq<Request<S>>)
  {
    forall i, j | 0 <= i < j < |queue| :: queue[i].msid < queue[j].msid && !CompatibleMatch(queue[i], queue[j])
  }

  lemma {:induction false} RemoveRequestsElements<S>(queue: seq<Request<S>>, s: S)
    ensures var q := RemoveRequests(queue, s);
            && (forall r | r in q :: r in queue && r.session != s)
            && (forall r | r in queue && r.session != s :: r in q)
    decreases |queue|
  {
    if queue != [] {
      assert queue == [queue[0]] + queue[1..];
      RemoveRequestsElements(queue[1..], s);
    }
  }

  lemma PrependAntichain<S>(r: Request<S>, queue: seq<Request<S>>)
    requires Antichain(queue) && forall x | x in queue :: r.msid < x.msid && !CompatibleMatch(r, x)
    ensures Antichain([r] + queue)
  {
    hide CompatibleMatch;
    forall j | 0 <= j < |queue|
      ensures r.msid < queue[j].msid && !CompatibleMatch(r, queue[j])
    {
      assert queue[j] in queue;
    }
  }

  lemma HeadBelow<S>(queue: seq<Request<S>>)
    requires queue != [] && Antichain(queue)
    ensures Antichain(queue[1..])
    ensures forall x | x in queue[1..] :: queue[0].msid < x.msid && !CompatibleMatch(queue[0], x)
  {
    hide CompatibleMatch;
  }

  /** Filtering keeps the order of what stays. */
  lemma {:induction false} RemoveRequestsOrder<S>(queue: seq<Request<S>>, s: S)
    requires Antichain(queue)
    ensures Antichain(RemoveRequests(queue, s))
    decreases |queue|
  {
    if queue != [] {
      var rest := queue[1..];
      HeadBelow(queue);
      RemoveRequestsOrder(rest, s);
      RemoveRequestsElements(rest, s);
      hide Antichain, CompatibleMatch;
      PrependAntichain(queue[0], RemoveRequests(rest, s));
    }
  }

  /** Deleting the session's only entry by index is filtering the session out. */
  lemma {:induction false} RemoveAt<S>(queue: seq<Request<S>>, s: S, i: nat)
    requires i < |queue| && forall k | 0 <= k < |queue| :: queue[k].session == s <==> k == i
    ensures RemoveRequests(queue, s) == queue[..i] + queue[i + 1..]
    decreases |queue|
  {
    var rest := queue[1..];
    if i == 0 {
      RemoveNone(rest, s);
    } else {
      RemoveAt(rest, s, i - 1);
      assert queue[..i] == [queue[0]] + rest[..i - 1];
      assert queue[i + 1..] == rest[i..];
    }
  }

  lemma {:induction false} RemoveNone<S>(queue: seq<Request<S>>, s: S)
    requires forall k | 0 <= k < |queue| :: queue[k].session != s
    ensures RemoveRequests(queue, s) == queue
    decreases |queue|
  {
    if queue != [] {
      RemoveNone(queue[1..], s);
    }
  }

  /** Outside the queue the session is idle or playing; everything else is as it was. */
  lemma DequeueKeeps<S>(l: Lobby<S>, s: S)
    requires Inv(l) && s in l.seats
    ensures Inv(Dequeue(l, s))
    ensures forall i | 0 <= i < |Dequeue(l, s).queue| :: Dequeue(l, s).queue[i].session != s
  {
    var l' := Dequeue(l, s);
    RemoveRequestsElements(l.queue, s);
    DequeueRegistry(l, s);
    DequeueSeats(l, s);
    DequeueQueue(l, s);
    DequeueInboxes(l, s);
    hide RegistryOk, GameOk, SeatsOk, QueueOk, InboxesOk;
    forall i | 0 <= i < |l'.queue|
      ensures l'.queue[i].session != s
    {
      assert l'.queue[i] in l'.queue;
    }
  }

  lemma DequeueRegistry<S>(l: Lobby<S>, s: S)
    requires KeysOk(l) && RegistryOk(l) && s in l.seats
    ensures KeysOk(Dequeue(l, s)) && RegistryOk(Dequeue(l, s))
  {
    var l' := Dequeue(l, s);
    assert forall x | x in l.ids :: IdentityOk(l, x) ==> IdentityOk(l', x);
  }

  lemma DequeueSeats<S>(l: Lobby<S>, s: S)
    requires KeysOk(l) && SeatsOk(l) && s in l.seats
    ensures SeatsOk(Dequeue(l, s))
  {
    hide RemoveRequests;
    RemoveRequestsElements(l.queue, s);
    var l' := Dequeue(l, s);
    forall x | x in l'.seats
      ensures SeatOk(l', x)
    {
      assert SeatOk(l, x);
      if x != s && l.seats[x].queuedMatch != 0 {
        var i :| 0 <= i < |l.queue| && l.queue[i].session == x && l.queue[i].msid == l.seats[x].queuedMatch;
        assert l.queue[i] in l'.queue;
        var j :| 0 <= j < |l'.queue| && l'.queue[j] == l.queue[i];
      }
    }
  }

  lemma DequeueQueue<S>(l: Lobby<S>, s: S)
    requires QueueOk(l) && s in l.seats
    ensures QueueOk(Dequeue(l, s))
  {
    hide CompatibleMatch, RemoveRequests;
    assert Antichain(l.queue);
    RemoveRequestsElements(l.queue, s);
    RemoveRequestsOrder(l.queue, s);
    var l' := Dequeue(l, s);
    forall j | 0 <= j < |l'.queue|
      ensures 0 < l'.queue[j].msid < l.nextMatch && l'.queue[j].session in l.seats
      ensures l'.seats[l'.queue[j].session].queuedMatch == l'.queue[j].msid
    {
      assert l'.queue[j] in l.queue;
      var i :| 0 <= i < |l.queue| && l.queue[i] == l'.queue[j];
    }
  }

  lemma DequeueInboxes<S>(l: Lobby<S>, s: S)
    requires KeysOk(l) && SeatsOk(l) && GamesOk(l) && InboxesOk(l) && s in l.seats
    ensures KeysOk(Dequeue(l, s)) && InboxesOk(Dequeue(l, s))
  {
    hide SeatOk, GameOk, InboxOk, RemoveRequests, Pid;
    var l' := Dequeue(l, s);
    forall x | x in l'.inbox
      ensures InboxOk(l', x)
    {
      assert InboxOk(l, x);
      InboxFrame(l, l', x);
    }
  }

  lemma RequestOf<S>(l: Lobby<S>, s: S) returns (i: nat)
    requires KeysOk(l) && SeatsOk(l) && QueueOk(l) && s in l.seats && l.seats[s].queuedMatch != 0
    ensures i < |l.queue| && l.queue[i].session == s && l.queue[i].msid == l.seats[s].queuedMatch
    ensures forall k | 0 <= k < |l.queue| :: l.queue[k].session == s <==> k == i
  {
    hide CompatibleMatch;
    assert SeatOk(l, s);
    i :| 0 <= i < |l.queue| && l.queue[i].session == s && l.queue[i].msid == l.seats[s].queuedMatch;
  }

  lemma {:induction false} FirstOwnIs<S>(queue: seq<Request<S>>, s: S, msid: int, i: nat)
    requires i < |queue| && queue[i].session == s && queue[i].msid == msid
    requires forall k | 0 <= k < |queue| :: queue[k].session == s <==> k == i
    ensures FirstOwn(queue, s, msid) == i
    decreases |queue|
  {
    if i > 0 {
      FirstOwnIs(queue[1..], s, msid, i - 1);
    }
  }

  /** Cancelling succeeds exactly when the id is that of the session's queued request, and then it
      is the same as leaving the queue. */
  lemma CancelIsDequeue<S>(l: Lobby<S>, s: S, msid: int)
    requires Inv(l) && s in l.seats
    ensures var (l', cancelled) := Cancel(l, s, msid);
            && (cancelled <==> msid > 0 && l.seats[s].queuedMatch == msid)
            && l' == if cancelled then Dequeue(l, s) else l
  {
    hide RegistryOk, GamesOk, InboxesOk, CompatibleMatch;
    if msid > 0 && l.seats[s].queuedMatch == msid {
      var i := RequestOf(l, s);
      FirstOwnIs(l.queue, s, msid, i);
      RemoveAt(l.queue, s, i);
    }
  }

  // ---- entering the queue ------------------------------------------------------------------

  lemma {:induction false} FirstMatchSpec<S>(queue: seq<Request<S>>, r: Request<S>)
    ensures var i := FirstMatch(queue, r);
            && (i < |queue| ==> queue[i].session != r.session && CompatibleMatch(queue[i], r))
            && (forall k | 0 <= k < i :: queue[k].session == r.session || !CompatibleMatch(queue[k], r))
    decreases |queue|
  {
    hide CompatibleMatch;
    if queue != [] && !(queue[0].session != r.session && CompatibleMatch(queue[0], r)) {
      FirstMatchSpec(queue[1..], r);
    }
  }

  ghost predicate Unqueued<S>(l: Lobby<S>, s: S)
  {
    forall i | 0 <= i < |l.queue| :: l.queue[i].session != s
  }

  /** A request nobody in the queue matches goes to its end. */
  lemma EnqueueKeeps<S>(l: Lobby<S>, r: Request<S>)
    requires Inv(l) && r.session in l.seats && LoggedIn(l, r.session) && l.seats[r.session] == IDLE && Unqueued(l, r.session)
    requires 0 < r.msid < l.nextMatch && forall i | 0 <= i < |l.queue| :: l.queue[i].msid < r.msid
    requires FirstMatch(l.queue, r) == |l.queue|
    ensures Inv(Enqueue(l, r))
  {
    hide RegistryOk, GamesOk, SeatsOk, QueueOk, InboxesOk, FirstMatch, Unqueued;
    SameRegistry(l, Enqueue(l, r));
    SameGames(l, Enqueue(l, r));
    EnqueueSeats(l, r);
    EnqueueQueue(l, r);
    EnqueueInboxes(l, r);
  }

  lemma EnqueueQueue<S>(l: Lobby<S>, r: Request<S>)
    requires QueueOk(l) && r.session in l.seats && Unqueued(l, r.session)
    requires 0 < r.msid < l.nextMatch && forall i | 0 <= i < |l.queue| :: l.queue[i].msid < r.msid
    requires FirstMatch(l.queue, r) == |l.queue|
    ensures QueueOk(Enqueue(l, r))
  {
    hide CompatibleMatch, FirstMatch;
    FirstMatchSpec(l.queue, r);
  }

  lemma EnqueueSeats<S>(l: Lobby<S>, r: Request<S>)
    requires KeysOk(l) && SeatsOk(l) && r.session in l.seats && LoggedIn(l, r.session) && l.seats[r.session] == IDLE
    ensures KeysOk(Enqueue(l, r)) && SeatsOk(Enqueue(l, r))
  {
    var l' := Enqueue(l, r);
    forall x | x in l'.seats
      ensures SeatOk(l', x)
    {
      assert SeatOk(l, x);
      if x == r.session {
        assert l'.queue[|l.queue|] == r;
      } else if l.seats[x].queuedMatch != 0 {
        var i :| 0 <= i < |l.queue| && l.queue[i].session == x && l.queue[i].msid == l.seats[x].queuedMatch;
        assert l'.queue[i] == l.queue[i];
      }
    }
  }

  lemma EnqueueInboxes<S>(l: Lobby<S>, r: Request<S>)
    requires KeysOk(l) && SeatsOk(l) && GamesOk(l) && InboxesOk(l) && r.session in l.seats && l.seats[r.session] == IDLE
    ensures KeysOk(Enqueue(l, r)) && InboxesOk(Enqueue(l, r))
  {
    hide SeatOk, GameOk, InboxOk, Pid;
    var l' := Enqueue(l, r);
    forall x | x in l'.inbox
      ensures InboxOk(l', x)
    {
      assert InboxOk(l, x);
      InboxFrame(l, l', x);
    }
  }

  /** Spending a match id changes nothing the invariant constrains. */
  lemma SpendMatchKeeps<S>(l: Lobby<S>)
    requires Inv(l)
    ensures Inv(l.(nextMatch := l.nextMatch + 1))
  {
    hide RegistryOk, GamesOk, SeatsOk, QueueOk, InboxOk;
    var l' := l.(nextMatch := l.nextMatch + 1);
    SameRegistry(l, l');
    SameSeats(l, l');
    SameQueue(l, l');
    SameGames(l, l');
    forall s | s in l'.inbox
      ensures InboxOk(l', s)
    {
      assert InboxOk(l, s);
      SpendMatchInbox(l, s);
    }
  }

  lemma SpendMatchInbox<S>(l: Lobby<S>, s: S)
    requires s in l.inbox && s in l.seats && InboxOk(l, s)
    ensures InboxOk(l.(nextMatch := l.nextMatch + 1), s)
  {
    hide Legal, After, InTune;
  }
}
