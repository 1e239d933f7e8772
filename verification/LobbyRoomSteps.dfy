/** Steps inside a game: mesh reports and completions, settings, finalisation. */
module LobbyRoomSteps {
  import opened Options
  import opened LobbyModel
  import opened LobbyClient
  import opened LobbyInvariant
  import opened LobbyGames
  import opened LobbyInboxes
  import opened LobbyFrames
  import opened LobbyQueueSteps
  import opened LobbyJoinSteps
  import opened LobbyLeaveSteps

  // ---- replacing a game's record -------------------------------------------------------------

  /** A game whose roster and slots stay may change in any other way that keeps it in order. */
  lemma ReplaceKeeps<S>(l: Lobby<S>, gid: int, g: Game<S>)
    requires Inv(l) && gid in l.games && GameOk(g, l.ids)
    requires g.id == gid && g.members == l.games[gid].members && g.slots == l.games[gid].slots
    ensures Inv(l.(games := l.games[gid := g]))
  {
    hide RegistryOk, GamesOk, SeatsOk, QueueOk, InboxesOk, SeatOk, InboxOk, GameOk;
    var l' := l.(games := l.games[gid := g]);
    SameRegistry(l, l');
    SameQueue(l, l');
    ReplaceGames(l, gid, g);
    ReplaceSeats(l, gid, g);
    ReplaceInboxes(l, gid, g);
  }

  lemma ReplaceGames<S>(l: Lobby<S>, gid: int, g: Game<S>)
    requires GamesOk(l) && gid in l.games && GameOk(g, l.ids) && g.id == gid
    ensures GamesOk(l.(games := l.games[gid := g]))
  {
    hide GameOk;
  }

  lemma ReplaceSeats<S>(l: Lobby<S>, gid: int, g: Game<S>)
    requires SeatsOk(l) && gid in l.games && g.members == l.games[gid].members
    ensures SeatsOk(l.(games := l.games[gid := g]))
  {
    var l' := l.(games := l.games[gid := g]);
    forall s | s in l'.seats
      ensures SeatOk(l', s)
    {
      assert SeatOk(l, s);
    }
  }

  lemma ReplaceInboxes<S>(l: Lobby<S>, gid: int, g: Game<S>)
    requires KeysOk(l) && GamesOk(l) && InboxesOk(l) && gid in l.games
    requires g.id == gid && g.members == l.games[gid].members && g.slots == l.games[gid].slots
    ensures InboxesOk(l.(games := l.games[gid := g]))
  {
    hide GameOk, InboxOk, Pid;
    var l' := l.(games := l.games[gid := g]);
    forall s | s in l'.inbox
      ensures InboxOk(l', s)
    {
      assert InboxOk(l, s);
      InboxFrame(l, l', s);
    }
  }

  // ---- pending admissions --------------------------------------------------------------------

  function ClearPending<S>(l: Lobby<S>, s: S): Lobby<S>
    requires s in l.seats
  {
    l.(seats := l.seats[s := l.seats[s].(pending := 0)])
  }

  lemma ClearKeeps<S>(l: Lobby<S>, s: S)
    requires Inv(l) && s in l.seats
    ensures Inv(ClearPending(l, s))
  {
    hide RegistryOk, GamesOk, SeatsOk, QueueOk, InboxesOk, SeatOk, InboxOk, GameOk;
    var l' := ClearPending(l, s);
    SameRegistry(l, l');
    SameGames(l, l');
    ClearSeats(l, s);
    ClearInboxes(l, s);
  }

  lemma ClearSeats<S>(l: Lobby<S>, s: S)
    requires SeatsOk(l) && QueueOk(l) && s in l.seats
    ensures SeatsOk(ClearPending(l, s)) && QueueOk(ClearPending(l, s))
  {
    hide CompatibleMatch;
    var l' := ClearPending(l, s);
    forall x | x in l'.seats
      ensures SeatOk(l', x)
    {
      assert SeatOk(l, x);
    }
  }

  lemma ClearInboxes<S>(l: Lobby<S>, s: S)
    requires KeysOk(l) && GamesOk(l) && InboxesOk(l) && s in l.seats
    ensures InboxesOk(ClearPending(l, s))
  {
    hide GameOk, InboxOk, Pid;
    NoGameZero(l);
    var l' := ClearPending(l, s);
    forall x | x in l'.inbox
      ensures InboxOk(l', x)
    {
      assert InboxOk(l, x);
      InboxFrame(l, l', x);
    }
  }

  /** One inert note to one logged-in session. */
  lemma NoteKeeps<S>(l: Lobby<S>, s: S, n: Note)
    requires Inv(l) && LoggedIn(l, s) && Inert(ViewOf(l, s), n)
    ensures Inv(l.(inbox := Post(l.inbox, map[s := [n]])))
  {
    hide RegistryOk, GamesOk, SeatsOk, QueueOk, InboxesOk, Legal, After, ViewOf, Post;
    InertNote(Pid(l.ids, s), ViewOf(l, s), n);
    MailKeeps(l, map[s := [n]]);
  }

  lemma FinalizeKeeps<S>(l: Lobby<S>, s: S, gid: int)
    requires Inv(l) && LoggedIn(l, s)
    ensures s in l.seats && Inv(Finalize(l, s, gid))
  {
    hide RegistryOk, GamesOk, SeatsOk, QueueOk, InboxesOk, ViewOf, Post;
    var seat := l.seats[s];
    var target := FinalizeTarget(seat, gid);
    if target != 0 {
      ClearKeeps(l, s);
      NoteKeeps(ClearPending(l, s), s, PlatformHost(target));
    }
  }

  // ---- settings ------------------------------------------------------------------------------

  /** A broadcast that is about settings only. */
  lemma BroadcastKeeps<S>(l: Lobby<S>, s: S, gid: int, n: Note)
    requires Inv(l) && LoggedIn(l, s) && (n.GameCapacity? || n.GameAttributes? || n.PlayerAttributes?)
    ensures Inv(l.(inbox := Post(l.inbox, Broadcast(l, s, gid, n))))
  {
    hide RegistryOk, GamesOk, SeatsOk, QueueOk, InboxesOk, Legal, After, ViewOf, Post, GameOk;
    var mail := Broadcast(l, s, gid, n);
    forall m | m in mail && m in l.inbox
      ensures Pid(l.ids, m) != 0 && mail[m] == [n]
      ensures Legal(Pid(l.ids, m), ViewOf(l, m), mail[m]) && After(Pid(l.ids, m), ViewOf(l, m), mail[m]) == ViewOf(l, m)
    {
      if gid in l.games && m in l.games[gid].members {
        MemberSeat(l, gid, m);
      }
      InertNote(Pid(l.ids, m), ViewOf(l, m), n);
    }
    MailKeeps(l, mail);
  }

  lemma SetCapacityKeeps<S>(l: Lobby<S>, s: S, gid: int, caps: seq<int>)
    requires Inv(l) && LoggedIn(l, s)
    ensures Inv(SetCapacity(l, s, gid, caps))
  {
    hide RegistryOk, GamesOk, SeatsOk, QueueOk, InboxesOk, GameOk, Post;
    var note := GameCapacity(gid, caps);
    if gid in l.games && caps != [] {
      SlotsAreTables(l, gid);
      CapacityIsFree(l.games[gid], l.ids, caps[0]);
      var l1 := l.(games := l.games[gid := l.games[gid].(capacity := caps[0])]);
      ReplaceKeeps(l, gid, l.games[gid].(capacity := caps[0]));
      assert Broadcast(l1, s, gid, note) == Broadcast(l, s, gid, note);
      BroadcastKeeps(l1, s, gid, note);
    } else {
      BroadcastKeeps(l, s, gid, note);
    }
  }

  lemma SetGameAttrsKeeps<S>(l: Lobby<S>, s: S, gid: int, attrs: Attrs)
    requires Inv(l) && LoggedIn(l, s)
    ensures Inv(SetGameAttrs(l, s, gid, attrs))
  {
    hide RegistryOk, GamesOk, SeatsOk, QueueOk, InboxesOk, GameOk, Post;
    var note := GameAttributes(gid, attrs);
    if gid in l.games {
      SlotsAreTables(l, gid);
      AttrsAreFree(l.games[gid], l.ids, attrs);
      var l1 := l.(games := l.games[gid := l.games[gid].(attrs := attrs)]);
      ReplaceKeeps(l, gid, l.games[gid].(attrs := attrs));
      assert Broadcast(l1, s, gid, note) == Broadcast(l, s, gid, note);
      BroadcastKeeps(l1, s, gid, note);
    } else {
      BroadcastKeeps(l, s, gid, note);
    }
  }

  lemma MergeIsFree<S>(g: Game<S>, ids: map<S, Identity>, p: int, attrs: Attrs)
    requires GameOk(g, ids) && p in g.slots
    ensures GameOk(MergeAttrs(g, p, attrs), ids)
  {
    hide Pids, Pid, Linked;
  }

  lemma CapacityIsFree<S>(g: Game<S>, ids: map<S, Identity>, capacity: int)
    requires GameOk(g, ids)
    ensures GameOk(g.(capacity := capacity), ids)
  {
    hide Pids, Pid, Linked;
  }

  lemma AttrsAreFree<S>(g: Game<S>, ids: map<S, Identity>, attrs: Attrs)
    requires GameOk(g, ids)
    ensures GameOk(g.(attrs := attrs), ids)
  {
    hide Pids, Pid, Linked;
  }

  // ---- the mesh ------------------------------------------------------------------------------

  /** A ready member whose matchmaking admission is still pending. */
  predicate Due<S>(g: Game<S>, ids: map<S, Identity>, seats: map<S, Seat>, m: S)
  {
    Pid(ids, m) in g.meshReady && g.meshReady[Pid(ids, m)] && m in seats && seats[m].pending == g.id
  }

  lemma {:induction false} CompletedSpec<S>(g: Game<S>, ids: map<S, Identity>, seats: map<S, Seat>, members: seq<S>)
    requires MembersDistinct(ids, members)
    ensures var c := Completed(g, ids, seats, members);
            && MembersDistinct(ids, c)
            && (forall m | m in c :: m in members && Due(g, ids, seats, m))
            && (forall m | m in members && Due(g, ids, seats, m) :: m in c)
    decreases |members|
  {
    if members != [] {
      var rest := members[1..];
      TailDistinct(ids, members);
      CompletedSpec(g, ids, seats, rest);
      var c := Completed(g, ids, seats, rest);
      hide MembersDistinct;
      if Due(g, ids, seats, members[0]) {
        assert Completed(g, ids, seats, members) == [members[0]] + c;
        assert forall m | m in c :: m in rest;
        PrependDistinct(ids, members[0], c);
      } else {
        assert Completed(g, ids, seats, members) == [] + c == c;
      }
    }
  }

  ghost predicate CompleteReady<S>(l: Lobby<S>, gid: int)
  {
    Inv(l) && gid in l.games
  }

  function DueMembers<S>(l: Lobby<S>, gid: int): seq<S>
    requires gid in l.games
  {
    Completed(l.games[gid], l.ids, l.seats, l.games[gid].members)
  }

  lemma DueFacts<S>(l: Lobby<S>, gid: int)
    requires CompleteReady(l, gid)
    ensures MembersDistinct(l.ids, DueMembers(l, gid))
    ensures forall m | m in DueMembers(l, gid) :: m in l.games[gid].members && m in l.seats && l.seats[m].pending == gid
  {
    hide RegistryOk, GamesOk, SeatsOk, QueueOk, InboxesOk, GameOk, Completed;
    SlotsAreTables(l, gid);
    Distinct(l.games[gid], l.ids);
    CompletedSpec(l.games[gid], l.ids, l.seats, l.games[gid].members);
  }

  lemma CompleteKeeps<S>(l: Lobby<S>, gid: int)
    requires CompleteReady(l, gid)
    ensures Inv(Complete(l, gid))
  {
    hide RegistryOk, GamesOk, SeatsOk, QueueOk, InboxesOk, SeatOk, InboxOk, GameOk, MemberSet, Complete, GameSeated, Local;
    var l' := Complete(l, gid);
    var who := MemberSet(l.games[gid]);
    CompleteIsLocal(l, gid);
    forall m | m in l.ids && m in who
      ensures m in l'.seats && m in l'.inbox && SeatOk(l', m) && InboxOk(l', m)
    {
      InMemberSet(l.games[gid], m);
      CompleteSeat(l, gid, m);
      CompleteInbox(l, gid, m);
    }
    LocalKeeps(l, l', gid, who);
  }

  /** The new state, seen from each session. */
  lemma CompleteShape<S>(l: Lobby<S>, gid: int)
    requires CompleteReady(l, gid)
    ensures var l' := Complete(l, gid);
            var done := DueMembers(l, gid);
            && KeysOk(l') && l' == l.(seats := l'.seats, inbox := l'.inbox)
            && (forall x | x in l.ids :: l'.seats[x] == if x in done then l.seats[x].(pending := 0) else l.seats[x])
            && (forall x | x in l.ids ::
                  l'.inbox[x] == if x in l.games[gid].members then l.inbox[x] + JoinedNotes(gid, l.ids, done) else l.inbox[x])
  {
    hide RegistryOk, GamesOk, SeatsOk, QueueOk, InboxesOk, JoinedNotes, Completed;
  }

  lemma CompleteIsLocal<S>(l: Lobby<S>, gid: int)
    requires CompleteReady(l, gid)
    ensures Local(l, Complete(l, gid), gid, MemberSet(l.games[gid])) && GameSeated(Complete(l, gid), gid)
  {
    hide RegistryOk, GamesOk, SeatsOk, QueueOk, InboxesOk, SeatOk, GameOk, Complete, DueMembers, JoinedNotes, MemberSet;
    CompleteShape(l, gid);
    DueFacts(l, gid);
    NextGameAbove(l, gid);
    SlotsAreTables(l, gid);
    forall x | x in l.ids
      ensures x in MemberSet(l.games[gid]) <==> x in l.games[gid].members
      ensures x in l.games[gid].members ==> Around(l.seats[x], gid) && l.seats[x].gameID == gid
      ensures x !in l.games[gid].members ==> l.seats[x].gameID != gid
    {
      InMemberSet(l.games[gid], x);
      if x in l.games[gid].members {
        MemberSeat(l, gid, x);
      } else {
        Outsider(l, x, gid);
      }
    }
    forall m | m in l.games[gid].members
      ensures m in l.ids
    {
      MemberSeat(l, gid, m);
    }
  }

  lemma CompleteSeat<S>(l: Lobby<S>, gid: int, m: S)
    requires CompleteReady(l, gid) && m in l.games[gid].members
    ensures var l' := Complete(l, gid); m in l'.seats && SeatOk(l', m)
  {
    hide RegistryOk, GamesOk, SeatsOk, QueueOk, InboxesOk, GameOk, Complete, DueMembers, JoinedNotes;
    CompleteShape(l, gid);
    MemberSeat(l, gid, m);
    SeatIn(l, m);
  }

  lemma CompleteInbox<S>(l: Lobby<S>, gid: int, m: S)
    requires CompleteReady(l, gid) && m in l.games[gid].members
    ensures var l' := Complete(l, gid); m in l'.inbox && m in l'.seats && InboxOk(l', m)
  {
    hide RegistryOk, GamesOk, SeatsOk, QueueOk, InboxesOk, InboxOk, SeatOk, GameOk, Complete, Legal, After, ViewOf, DueMembers, Pid, Pids;
    hide JoinedNotes, MembersDistinct;
    var l' := Complete(l, gid);
    CompleteShape(l, gid);
    DueFacts(l, gid);
    MemberSeat(l, gid, m);
    var v := ViewOf(l, m);
    SlotsAreTables(l, gid);
    ViewFacts(l, m);
    forall x | x in DueMembers(l, gid)
      ensures Pid(l.ids, x) in v.roster && Pid(l.ids, x) in v.joining
    {
      MemberSeat(l, gid, x);
    }
    CompletionsTune(Pid(l.ids, m), v, gid, l.ids, DueMembers(l, gid));
    forall x | x in l.games[gid].members && x in l'.seats && l'.seats[x].pending == gid
      ensures Pid(l.ids, x) in v.joining && Pid(l.ids, x) !in Pids(l.ids, DueMembers(l, gid))
    {
      NotDue(l, gid, x);
    }
    InboxBy(l, l', m, JoinedNotes(gid, l.ids, DueMembers(l, gid)));
  }

  lemma NotDue<S>(l: Lobby<S>, gid: int, x: S)
    requires CompleteReady(l, gid) && x in l.games[gid].members
    requires x in Complete(l, gid).seats && Complete(l, gid).seats[x].pending == gid
    ensures x in l.seats && l.seats[x].pending == gid && Pid(l.ids, x) !in Pids(l.ids, DueMembers(l, gid))
  {
    hide RegistryOk, GamesOk, SeatsOk, QueueOk, InboxesOk, GameOk, Complete, DueMembers, Pid, Pids;
    CompleteShape(l, gid);
    DueFacts(l, gid);
    NoGameZero(l);
    MemberSeat(l, gid, x);
    if Pid(l.ids, x) in Pids(l.ids, DueMembers(l, gid)) {
      var i := MemberIndex(l.ids, DueMembers(l, gid), Pid(l.ids, x));
      MembersDiffer(l, gid, x, DueMembers(l, gid)[i]);
    }
  }

  lemma UpdateMeshKeeps<S>(l: Lobby<S>, s: S, gid: int, targets: seq<Target>, now: int)
    requires Inv(l)
    ensures Inv(UpdateMesh(l, s, gid, targets, now))
  {
    hide RegistryOk, GamesOk, SeatsOk, QueueOk, InboxesOk, GameOk, Complete, MeshReport, EnsureMembership, MemberFor, Pid;
    if gid in l.games && MemberFor(l.ids, l.games[gid].members, Pid(l.ids, s)) == Some(s) {
      var g := l.games[gid];
      SlotsAreTables(l, gid);
      Distinct(g, l.ids);
      MemberForExact(l.ids, g.members, Pid(l.ids, s));
      Idle(g, l.ids, now);
      MeshReportKeeps(g, l.ids, s, targets);
      var (g', changed) := MeshReport(g, l.ids, s, targets);
      ReplaceKeeps(l, gid, g');
      if changed {
        CompleteKeeps(l.(games := l.games[gid := g']), gid);
      }
    }
  }

  lemma Idle<S>(g: Game<S>, ids: map<S, Identity>, now: int)
    requires GameOk(g, ids)
    ensures EnsureMembership(g, ids, now) == g
  {
    EnsureIsIdle(g, ids, now, 0);
  }
}
