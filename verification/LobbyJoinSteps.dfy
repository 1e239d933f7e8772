/** A session joins a registered game, or opens one. */
module LobbyJoinSteps {
  import opened LobbyModel
  import opened LobbyClient
  import opened LobbyInvariant
  import opened LobbyGames
  import opened LobbyInboxes
  import opened LobbyFrames
  import opened LobbyQueueSteps

  /** A logged-in session that is nowhere. */
  ghost predicate Free<S>(l: Lobby<S>, s: S)
  {
    LoggedIn(l, s) && s in l.seats && l.seats[s] == IDLE && Unqueued(l, s)
  }

  function MemberSet<S>(g: Game<S>): set<S>
  {
    set m | m in g.members
  }

  lemma MemberSeat<S>(l: Lobby<S>, gid: int, m: S)
    requires KeysOk(l) && SeatsOk(l) && GamesOk(l) && gid in l.games && m in l.games[gid].members
    ensures gid > 0 && m in l.seats && m in l.ids && m in l.inbox
    ensures l.seats[m].gameID == gid && l.seats[m].queuedMatch == 0
    ensures Pid(l.ids, m) != 0 && Pid(l.ids, m) in l.games[gid].slots
  {
    assert m in l.seats && l.seats[m].gameID == gid;
    assert SeatOk(l, m);
    PidIn(l.ids, l.games[gid].members, m);
    var i :| 0 <= i < |l.games[gid].members| && l.games[gid].members[i] == m;
  }

  lemma FreeIsNoMember<S>(l: Lobby<S>, s: S, gid: int)
    requires KeysOk(l) && SeatsOk(l) && GamesOk(l) && RegistryOk(l) && gid in l.games && Free(l, s)
    ensures s !in l.games[gid].members && Pid(l.ids, s) !in Pids(l.ids, l.games[gid].members)
    ensures Pid(l.ids, s) > 0
  {
    hide GameOk, SeatOk, Pids;
    assert IdentityOk(l, s);
    var members := l.games[gid].members;
    forall i | 0 <= i < |members|
      ensures members[i] != s && Pid(l.ids, members[i]) != Pid(l.ids, s)
    {
      MemberSeat(l, gid, members[i]);
      if Pid(l.ids, members[i]) == Pid(l.ids, s) {
        SamePersona(l, s, members[i]);
      }
    }
    NoPid(l.ids, members, Pid(l.ids, s));
  }

  lemma NoPid<S>(ids: map<S, Identity>, members: seq<S>, p: int)
    requires forall i | 0 <= i < |members| :: Pid(ids, members[i]) != p
    ensures p !in Pids(ids, members)
  {
  }

  /** Two live sessions never share a persona. */
  lemma SamePersona<S>(l: Lobby<S>, a: S, b: S)
    requires RegistryOk(l) && a in l.ids && b in l.ids && Pid(l.ids, a) == Pid(l.ids, b) != 0
    ensures a == b
  {
    assert IdentityOk(l, a) && IdentityOk(l, b);
  }

  // ---- joining -----------------------------------------------------------------------------

  /** The registry after a session took `slot` in game `gid`. */
  function JoinedGames<S>(l: Lobby<S>, s: S, gid: int, slot: int, now: int): map<int, Game<S>>
    requires gid in l.games
  {
    l.games[gid := Joined(l.games[gid], Pid(l.ids, s), s, slot, now)]
  }

  ghost predicate JoinReady<S>(l: Lobby<S>, s: S, gid: int, slot: int, now: int)
  {
    && Inv(l) && Free(l, s) && gid in l.games && now != 0
    && slot >= 0 && slot !in l.games[gid].slots.Values
  }

  lemma JoinKeeps<S>(l: Lobby<S>, s: S, gid: int, slot: int, now: int)
    requires JoinReady(l, s, gid, slot, now)
    ensures Inv(Join(l, s, JoinedGames(l, s, gid, slot, now), gid))
  {
    var l' := Join(l, s, JoinedGames(l, s, gid, slot, now), gid);
    var who := MemberSet(l'.games[gid]);
    hide RegistryOk, GamesOk, SeatsOk, QueueOk, InboxesOk, SeatOk, InboxOk, GameOk, Join, Unqueued, MemberSet;
    JoinIsLocal(l, s, gid, slot, now);
    JoinedSeated(l, s, gid, slot, now);
    forall m | m in l.ids && m in who
      ensures SeatOk(l', m) && InboxOk(l', m)
    {
      JoinSeat(l, s, gid, slot, now, m);
      if m == s {
        JoinerInbox(l, s, gid, slot, now);
      } else {
        MemberInbox(l, s, gid, slot, now, m);
      }
    }
    LocalKeeps(l, l', gid, who);
  }

  lemma JoinIsLocal<S>(l: Lobby<S>, s: S, gid: int, slot: int, now: int)
    requires JoinReady(l, s, gid, slot, now)
    ensures var l' := Join(l, s, JoinedGames(l, s, gid, slot, now), gid);
            Local(l, l', gid, MemberSet(l'.games[gid]))
  {
    hide RegistryOk, GamesOk, SeatsOk, QueueOk, InboxesOk, GameOk, UserNotes, UserNotesExcept, SetupNote, SeatOk;
    hide Unqueued, MemberSet, Pid;
    var l' := Join(l, s, JoinedGames(l, s, gid, slot, now), gid);
    JoinedMembers(l, s, gid, slot, now);
    NextGameAbove(l, gid);
    SlotsAreTables(l, gid);
    forall x | x in l.ids
      ensures x in MemberSet(l.games[gid]) ==> Around(l.seats[x], gid)
      ensures x !in MemberSet(l.games[gid]) ==> l.seats[x].gameID != gid
      ensures x in MemberSet(l.games[gid]) <==> x in l.games[gid].members
    {
      InMemberSet(l.games[gid], x);
      if x in l.games[gid].members {
        MemberSeat(l, gid, x);
      } else {
        Outsider(l, x, gid);
      }
    }
  }

  lemma InMemberSet<S>(g: Game<S>, x: S)
    ensures x in MemberSet(g) <==> x in g.members
  {
  }

  lemma JoinedMembers<S>(l: Lobby<S>, s: S, gid: int, slot: int, now: int)
    requires gid in l.games
    ensures MemberSet(JoinedGames(l, s, gid, slot, now)[gid]) == MemberSet(l.games[gid]) + {s}
  {
    var g, g' := l.games[gid], JoinedGames(l, s, gid, slot, now)[gid];
    assert g'.members == g.members + [s];
  }

  lemma Outsider<S>(l: Lobby<S>, x: S, gid: int)
    requires KeysOk(l) && SeatsOk(l) && x in l.ids && gid in l.games && x !in l.games[gid].members && gid != 0
    ensures l.seats[x].gameID != gid
  {
    assert SeatOk(l, x);
  }

  lemma JoinedSeated<S>(l: Lobby<S>, s: S, gid: int, slot: int, now: int)
    requires JoinReady(l, s, gid, slot, now)
    ensures var l' := Join(l, s, JoinedGames(l, s, gid, slot, now), gid);
            GameSeated(l', gid)
  {
    hide RegistryOk, GamesOk, SeatsOk, QueueOk, InboxesOk, RosterOk, HostFirst, ReadinessExact, Unqueued, Pids;
    hide UserNotes, UserNotesExcept, SetupNote, SeatOk, Pid;
    SlotsAreTables(l, gid);
    FreeIsNoMember(l, s, gid);
    JoinedKeeps(l.games[gid], l.ids, s, slot, now);
    NextGameAbove(l, gid);
    forall m | m in l.games[gid].members
      ensures m in l.seats && l.seats[m].gameID == gid
    {
      MemberSeat(l, gid, m);
    }
  }

  lemma NextGameAbove<S>(l: Lobby<S>, gid: int)
    requires GamesOk(l) && gid in l.games
    ensures 0 < gid < l.nextGame
  {
    hide GameOk;
  }

  lemma JoinSeat<S>(l: Lobby<S>, s: S, gid: int, slot: int, now: int, m: S)
    requires JoinReady(l, s, gid, slot, now) && m in Joined(l.games[gid], Pid(l.ids, s), s, slot, now).members
    ensures var l' := Join(l, s, JoinedGames(l, s, gid, slot, now), gid);
            m in l'.seats && SeatOk(l', m)
  {
    hide RegistryOk, QueueOk, InboxesOk, GameOk, UserNotes, UserNotesExcept, SetupNote;
    if m != s {
      assert m in l.games[gid].members;
      MemberSeat(l, gid, m);
      assert SeatOk(l, m);
    }
  }

  /** An existing member hears of the newcomer, then of its joining. */
  lemma MemberInbox<S>(l: Lobby<S>, s: S, gid: int, slot: int, now: int, m: S)
    requires JoinReady(l, s, gid, slot, now) && m != s && m in l.games[gid].members
    ensures var l' := Join(l, s, JoinedGames(l, s, gid, slot, now), gid);
            m in l'.inbox && m in l'.seats && InboxOk(l', m)
  {
    hide GameOk, RegistryOk, GamesOk, QueueOk, InboxesOk, InboxOk, Legal, After, ViewOf, UserNotes, SeatsOk, SeatOk, Pids, Join, Joined, Unqueued, Pid;
    var l' := Join(l, s, JoinedGames(l, s, gid, slot, now), gid);
    var mail := UserNotes(l.ids, s) + [PlayerJoining(gid, Pid(l.ids, s), slot)];
    JoinMail(l, s, gid, slot, now, m);
    MemberSeat(l, gid, m);
    FreeIsNoMember(l, s, gid);
    SlotsAreTables(l, gid);
    ViewFacts(l, m);
    JoiningView(Pid(l.ids, m), ViewOf(l, m), l.ids, s, gid, slot);
    InboxBy(l, l', m, mail);
  }

  lemma SlotsAreTables<S>(l: Lobby<S>, gid: int)
    requires GamesOk(l) && gid in l.games
    ensures l.games[gid].slots.Keys == Pids(l.ids, l.games[gid].members)
    ensures l.games[gid].id == gid && gid != 0 && GameOk(l.games[gid], l.ids)
  {
    hide Pids;
  }

  /** What joining does around an existing member. */
  lemma JoinMail<S>(l: Lobby<S>, s: S, gid: int, slot: int, now: int, m: S)
    requires JoinReady(l, s, gid, slot, now) && m != s && m in l.games[gid].members
    ensures var l' := Join(l, s, JoinedGames(l, s, gid, slot, now), gid);
            && m in l.inbox && m in l.seats && l.seats[m].gameID == gid
            && m in l'.inbox && m in l'.seats && l'.seats[m].gameID == gid && l'.ids == l.ids
            && l'.inbox[m] == l.inbox[m] + (UserNotes(l.ids, s) + [PlayerJoining(gid, Pid(l.ids, s), slot)])
            && gid in l'.games && l'.games[gid].id == gid == l.games[gid].id
            && l'.games[gid].slots == l.games[gid].slots[Pid(l.ids, s) := slot]
            && (forall x | x in l'.games[gid].members && x != s :: x in l.games[gid].members)
            && (forall x | x in l'.seats && x != s :: x in l.seats && l'.seats[x] == l.seats[x])
  {
    MemberSeat(l, gid, m);
    hide GameOk, RegistryOk, QueueOk, InboxesOk, UserNotes, UserNotesExcept, SetupNote, SeatOk, SeatsOk, Free;
  }

  lemma JoiningView<S>(self: int, v: View, ids: map<S, Identity>, s: S, gid: int, slot: int)
    requires gid != 0 && v.gid == gid && Pid(ids, s) !in v.roster && slot !in v.roster.Values
    ensures var mail := UserNotes(ids, s) + [PlayerJoining(gid, Pid(ids, s), slot)];
            && Legal(self, v, mail)
            && After(self, v, mail) == View(gid, v.roster[Pid(ids, s) := slot], v.joining + {Pid(ids, s)}, v.known + {Pid(ids, s)})
  {
    var p := Pid(ids, s);
    UserNotesView(self, v, ids, s);
    var v' := v.(known := v.known + {p});
    AfterConcat(self, v, UserNotes(ids, s), [PlayerJoining(gid, p, slot)]);
    One(self, v', PlayerJoining(gid, p, slot));
  }

  /** The newcomer hears of every member, then gets the setup. */
  lemma JoinerInbox<S>(l: Lobby<S>, s: S, gid: int, slot: int, now: int)
    requires JoinReady(l, s, gid, slot, now)
    ensures var l' := Join(l, s, JoinedGames(l, s, gid, slot, now), gid);
            s in l'.inbox && s in l'.seats && InboxOk(l', s)
  {
    var l' := Join(l, s, JoinedGames(l, s, gid, slot, now), gid);
    var g' := l'.games[gid];
    FreeIsNoMember(l, s, gid);
    JoinedKeeps(l.games[gid], l.ids, s, slot, now);
    assert InboxOk(l, s);
    forall m | m in g'.members
      ensures Pid(l.ids, m) in Pids(l.ids, g'.members)
    {
      PidIn(l.ids, g'.members, m);
    }
    hide GameOk, RegistryOk, QueueOk, InboxesOk, Legal, After, UserNotes, UserNotesExcept, SetupNote, SeatOk, Pids, Pid, SeatsOk;
    SetupMailView(Pid(l.ids, s), ViewOf(l, s), g', l.ids, s);
    InboxBy(l, l', s, UserNotesExcept(l.ids, g'.members, s) + [SetupNote(g', l.ids)]);
  }

  lemma SetupMailView<S>(self: int, v: View, g: Game<S>, ids: map<S, Identity>, s: S)
    requires GameOk(g, ids) && g.id != 0 && v.gid == 0 && s in g.members && Pid(ids, s) == self && self in v.known
    ensures var mail := UserNotesExcept(ids, g.members, s) + [SetupNote(g, ids)];
            && Legal(self, v, mail)
            && After(self, v, mail).gid == g.id && After(self, v, mail).roster == g.slots
            && After(self, v, mail).joining == Pids(ids, g.members) && self in After(self, v, mail).known
  {
    hide GameOk, Legal, After, UserNotesExcept, SetupNote;
    var notes := UserNotesExcept(ids, g.members, s);
    Announced(self, v, ids, g.members, s);
    var v' := After(self, v, notes);
    forall p | p in Pids(ids, g.members)
      ensures p in v'.known
    {
      var i := MemberIndex(ids, g.members, p);
    }
    PidIn(ids, g.members, s);
    SetupTunes(self, v', g, ids);
    AfterConcat(self, v, notes, [SetupNote(g, ids)]);
    One(self, v', SetupNote(g, ids));
  }
}
