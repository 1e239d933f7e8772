/** A member leaves its game; the host takes the game along. */
module LobbyLeaveSteps {
  import opened LobbyModel
  import opened LobbyClient
  import opened LobbyInvariant
  import opened LobbyGames
  import opened LobbyInboxes
  import opened LobbyFrames
  import opened LobbyQueueSteps
  import opened LobbyJoinSteps

  /** A member of a registered game. */
  ghost predicate LeaveReady<S>(l: Lobby<S>, t: S, gid: int)
  {
    Inv(l) && gid in l.games && t in l.seats && t in l.games[gid].members
  }

  /** What the others, and the leaver, are sent. */
  function LeaveMail<S(==)>(l: Lobby<S>, t: S, gid: int, m: S): seq<Note>
    requires gid in l.games
  {
    [PlayerRemoved(gid, Pid(l.ids, t))]
    + if t == l.games[gid].host && m != t then [GameRemoved(gid)] else []
  }

  /** The new state, seen from each session. */
  lemma LeaveShape<S>(l: Lobby<S>, t: S, gid: int)
    requires LeaveReady(l, t, gid)
    ensures var l' := Leave(l, t, gid);
            var g := l.games[gid];
            && KeysOk(l')
            && l' == l.(games := l'.games, seats := l'.seats, inbox := l'.inbox)
            && l'.games == (if t == g.host then l.games - {gid} else l.games[gid := Refresh(RemoveMember(g, l.ids, t), l.ids)])
            && (forall x | x in l.ids :: l'.seats[x] == if x == t || (x in g.members && t == g.host) then IDLE else l.seats[x])
            && (forall x | x in l.ids :: l'.inbox[x] == if x in g.members then l.inbox[x] + LeaveMail(l, t, gid, x) else l.inbox[x])
  {
    hide RegistryOk, GamesOk, SeatsOk, QueueOk, InboxesOk, Refresh, RemoveMember, Pid;
    var r := [PlayerRemoved(gid, Pid(l.ids, t))];
    assert r + [] == r;
  }

  lemma LeaveKeeps<S>(l: Lobby<S>, t: S, gid: int)
    requires LeaveReady(l, t, gid)
    ensures Inv(Leave(l, t, gid))
  {
    hide RegistryOk, GamesOk, SeatsOk, QueueOk, InboxesOk, SeatOk, InboxOk, GameOk, MemberSet, Leave, GameSeated, Local;
    var l' := Leave(l, t, gid);
    var who := MemberSet(l.games[gid]);
    LeaveIsLocal(l, t, gid);
    LeaveSeated(l, t, gid);
    forall m | m in l.ids && m in who
      ensures m in l'.seats && m in l'.inbox && SeatOk(l', m) && InboxOk(l', m)
    {
      InMemberSet(l.games[gid], m);
      LeaveSeat(l, t, gid, m);
      LeaveInbox(l, t, gid, m);
    }
    LocalKeeps(l, l', gid, who);
  }

  lemma LeaveIsLocal<S>(l: Lobby<S>, t: S, gid: int)
    requires LeaveReady(l, t, gid)
    ensures Local(l, Leave(l, t, gid), gid, MemberSet(l.games[gid]))
  {
    hide RegistryOk, GamesOk, SeatsOk, QueueOk, InboxesOk, SeatOk, Leave, Refresh, RemoveMember, LeaveMail, MemberSet;
    LeaveShape(l, t, gid);
    NextGameAbove(l, gid);
    forall x | x in l.ids
      ensures x in MemberSet(l.games[gid]) <==> x in l.games[gid].members
      ensures x in l.games[gid].members ==> Around(l.seats[x], gid)
      ensures x !in l.games[gid].members ==> l.seats[x].gameID != gid
    {
      InMemberSet(l.games[gid], x);
      if x in l.games[gid].members {
        MemberSeat(l, gid, x);
      } else {
        Outsider(l, x, gid);
      }
    }
  }

  lemma LeaveSeated<S>(l: Lobby<S>, t: S, gid: int)
    requires LeaveReady(l, t, gid)
    ensures GameSeated(Leave(l, t, gid), gid)
  {
    hide RegistryOk, GamesOk, SeatsOk, QueueOk, InboxesOk, SeatOk, GameOk, Leave, Refresh, RemoveMember, LeaveMail, Pids, Without, Pid;
    LeaveShape(l, t, gid);
    NextGameAbove(l, gid);
    SlotsAreTables(l, gid);
    var g := l.games[gid];
    if t != g.host {
      RemoveKeeps(g, l.ids, t);
      Distinct(g, l.ids);
      WithoutSpec(l.ids, g.members, t);
      forall m | m in Without(g.members, t)
        ensures m in l.seats && l.seats[m].gameID == gid
      {
        MemberSeat(l, gid, m);
      }
    }
  }

  lemma Distinct<S>(g: Game<S>, ids: map<S, Identity>)
    requires GameOk(g, ids)
    ensures MembersDistinct(ids, g.members)
  {
  }

  lemma LeaveSeat<S>(l: Lobby<S>, t: S, gid: int, m: S)
    requires LeaveReady(l, t, gid) && m in l.games[gid].members
    ensures var l' := Leave(l, t, gid); m in l'.seats && SeatOk(l', m)
  {
    hide RegistryOk, GamesOk, SeatsOk, QueueOk, InboxesOk, GameOk, Leave, Refresh, LeaveMail, Without, Pids;
    LeaveShape(l, t, gid);
    MemberSeat(l, gid, m);
    SeatIn(l, m);
    SlotsAreTables(l, gid);
    Distinct(l.games[gid], l.ids);
    WithoutSpec(l.ids, l.games[gid].members, t);
    RefreshMembers(RemoveMember(l.games[gid], l.ids, t), l.ids);
  }

  lemma RefreshMembers<S>(g: Game<S>, ids: map<S, Identity>)
    ensures Refresh(g, ids).members == g.members
  {
  }

  lemma SeatIn<S>(l: Lobby<S>, m: S)
    requires SeatsOk(l) && m in l.seats
    ensures SeatOk(l, m)
  {
  }

  lemma LeaveInbox<S>(l: Lobby<S>, t: S, gid: int, m: S)
    requires LeaveReady(l, t, gid) && m in l.games[gid].members
    ensures var l' := Leave(l, t, gid); m in l'.inbox && m in l'.seats && InboxOk(l', m)
  {
    hide RegistryOk, GamesOk, SeatsOk, QueueOk, InboxesOk, InboxOk, SeatOk, GameOk, Leave, Legal, After, ViewOf, LeaveMail, Pid, Pids;
    hide Refresh, RemoveMember, Without, InTune;
    var l' := Leave(l, t, gid);
    LeaveShape(l, t, gid);
    MemberSeat(l, gid, m);
    MemberSeat(l, gid, t);
    SlotsAreTables(l, gid);
    ViewFacts(l, m);
    RosterIs(ViewOf(l, m), l.games[gid], l.ids, l.seats);
    MembersDiffer(l, gid, m, t);
    LeaveView(l, t, gid, m, ViewOf(l, m));
    if m != t && t != l.games[gid].host {
      LeaveTunes(l, t, gid, m);
    } else {
      NoGameZero(l);
    }
    NoGameZero(l);
    InboxBy(l, l', m, LeaveMail(l, t, gid, m));
  }

  lemma RosterIs<S>(v: View, g: Game<S>, ids: map<S, Identity>, seats: map<S, Seat>)
    requires InTune(v, g, ids, seats)
    ensures v.roster == g.slots
  {
  }

  lemma MembersDiffer<S>(l: Lobby<S>, gid: int, a: S, b: S)
    requires Inv(l) && gid in l.games && a in l.games[gid].members && b in l.games[gid].members
    ensures Pid(l.ids, a) == Pid(l.ids, b) ==> a == b
  {
    hide GamesOk, QueueOk, InboxesOk, SeatOk;
    MemberSeat(l, gid, a);
    MemberSeat(l, gid, b);
    if Pid(l.ids, a) == Pid(l.ids, b) {
      SamePersona(l, a, b);
    }
  }

  lemma NoGameZero<S>(l: Lobby<S>)
    requires GamesOk(l)
    ensures 0 !in l.games
  {
    hide GameOk;
  }

  /** The removal takes the leaver out of a member's view; its own removal, or the game's, empties it. */
  lemma LeaveView<S>(l: Lobby<S>, t: S, gid: int, m: S, v: View)
    requires gid in l.games && gid != 0 && v.gid == gid && Pid(l.ids, t) in v.roster
    requires Pid(l.ids, m) == Pid(l.ids, t) ==> m == t
    ensures var self, p, mail := Pid(l.ids, m), Pid(l.ids, t), LeaveMail(l, t, gid, m);
            && Legal(self, v, mail)
            && After(self, v, mail) ==
                 if m == t || t == l.games[gid].host then View(0, map[], {}, v.known)
                 else View(gid, v.roster - {p}, v.joining - {p}, v.known)
  {
    var self, p := Pid(l.ids, m), Pid(l.ids, t);
    var removed := PlayerRemoved(gid, p);
    if t == l.games[gid].host && m != t {
      Two(self, v, removed, GameRemoved(gid));
    } else {
      assert [removed] + [] == [removed];
      One(self, v, removed);
    }
  }

  lemma LeaveTunes<S>(l: Lobby<S>, t: S, gid: int, m: S)
    requires LeaveReady(l, t, gid) && m in l.games[gid].members && m != t && t != l.games[gid].host
    requires m in l.ids && ViewOf(l, m).gid == gid && InTune(ViewOf(l, m), l.games[gid], l.ids, l.seats)
    ensures var l' := Leave(l, t, gid);
            var v := ViewOf(l, m);
            var p := Pid(l.ids, t);
            gid in l'.games && InTune(View(gid, v.roster - {p}, v.joining - {p}, v.known), l'.games[gid], l'.ids, l'.seats)
  {
    hide RegistryOk, GamesOk, SeatsOk, QueueOk, InboxesOk, SeatOk, GameOk, Leave, ViewOf, LeaveMail, Pid, Pids, Refresh, RemoveMember, Without;
    LeaveShape(l, t, gid);
    SlotsAreTables(l, gid);
    Distinct(l.games[gid], l.ids);
    RemoveKeeps(l.games[gid], l.ids, t);
    WithoutSpec(l.ids, l.games[gid].members, t);
    forall x | x in l.games[gid].members
      ensures Pid(l.ids, x) == Pid(l.ids, t) ==> x == t
    {
      MembersDiffer(l, gid, x, t);
    }
  }
}
