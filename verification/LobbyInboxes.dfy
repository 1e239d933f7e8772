/** The mail each step sends is what its recipients can take, and leaves them in tune. */
module LobbyInboxes {
  import opened LobbyModel
  import opened LobbyClient
  import opened LobbyInvariant
  import opened LobbyGames

  /** A session's view of what it was sent. */
  function ViewOf<S>(l: Lobby<S>, s: S): View
    requires s in l.inbox
  {
    After(Pid(l.ids, s), START, l.inbox[s])
  }

  /** More mail in a session's inbox: legal mail keeps it legal and moves the view on. */
  lemma Extend<S>(l: Lobby<S>, s: S, mail: seq<Note>)
    requires s in l.inbox && s in l.seats && InboxOk(l, s)
    requires Legal(Pid(l.ids, s), ViewOf(l, s), mail)
    ensures Legal(Pid(l.ids, s), START, l.inbox[s] + mail)
    ensures After(Pid(l.ids, s), START, l.inbox[s] + mail) == After(Pid(l.ids, s), ViewOf(l, s), mail)
  {
    hide Legal, After, InTune;
    AfterConcat(Pid(l.ids, s), START, l.inbox[s], mail);
  }

  /** What the invariant says of a logged-in session's view. */
  lemma ViewFacts<S>(l: Lobby<S>, s: S)
    requires KeysOk(l) && InboxesOk(l) && s in l.ids && Pid(l.ids, s) != 0
    ensures InboxOk(l, s)
    ensures ViewOf(l, s).gid == l.seats[s].gameID && Pid(l.ids, s) in ViewOf(l, s).known
    ensures l.seats[s].gameID in l.games ==> InTune(ViewOf(l, s), l.games[l.seats[s].gameID], l.ids, l.seats)
  {
    assert InboxOk(l, s);
    hide Legal, After, InTune;
  }

  /** A session that took its mail and whose new view agrees with the new state is in order. */
  lemma InboxBy<S>(l: Lobby<S>, l': Lobby<S>, s: S, mail: seq<Note>)
    requires s in l.inbox && s in l.seats && InboxOk(l, s) && Pid(l.ids, s) != 0
    requires l'.ids == l.ids && s in l'.inbox && s in l'.seats && l'.inbox[s] == l.inbox[s] + mail
    requires Legal(Pid(l.ids, s), ViewOf(l, s), mail)
    requires var v := After(Pid(l.ids, s), ViewOf(l, s), mail);
             && v.gid == l'.seats[s].gameID && Pid(l.ids, s) in v.known
             && (v.gid in l'.games ==> InTune(v, l'.games[v.gid], l'.ids, l'.seats))
    ensures InboxOk(l', s)
  {
    Extend(l, s, mail);
    hide Legal, After, InTune;
  }

  // ---- setups ------------------------------------------------------------------------------

  lemma {:induction false} RosterMapIs(roster: seq<(int, int)>, slots: map<int, int>)
    requires forall i | 0 <= i < |roster| :: roster[i].0 in slots && slots[roster[i].0] == roster[i].1
    ensures RosterMap(roster) == map p | p in slots && p in PidsOf(roster) :: slots[p]
  {
    if roster != [] {
      var init := roster[..|roster| - 1];
      var last := roster[|roster| - 1];
      RosterMapIs(init, slots);
      forall p
        ensures p in PidsOf(roster) <==> p in PidsOf(init) || p == last.0
      {
        if p in PidsOf(init) {
          var i :| 0 <= i < |init| && init[i].0 == p;
          assert roster[i].0 == p;
        }
        if p in PidsOf(roster) {
          var i :| 0 <= i < |roster| && roster[i].0 == p;
          assert i < |init| ==> init[i].0 == p;
        }
      }
    }
  }

  lemma RosterEntries<S>(g: Game<S>, ids: map<S, Identity>)
    requires TablesMatch(g, ids)
    ensures |Roster(g, ids)| == |g.members|
    ensures forall i | 0 <= i < |g.members| :: Pid(ids, g.members[i]) in g.slots
                                               && Roster(g, ids)[i] == (Pid(ids, g.members[i]), g.slots[Pid(ids, g.members[i])])
  {
    forall i | 0 <= i < |g.members|
      ensures Pid(ids, g.members[i]) in g.slots
    {
      PidIn(ids, g.members, g.members[i]);
    }
  }

  lemma RosterOfGame<S>(g: Game<S>, ids: map<S, Identity>)
    requires RosterOk(g, ids)
    ensures PidsOf(Roster(g, ids)) == Pids(ids, g.members)
    ensures RosterMap(Roster(g, ids)) == g.slots
  {
    hide Pids, Pid, Roster, PidsOf, RosterMap;
    var roster := Roster(g, ids);
    RosterEntries(g, ids);
    RosterPids(roster, ids, g.members);
    RosterMapIs(roster, g.slots);
  }

  lemma RosterPids<S>(roster: seq<(int, int)>, ids: map<S, Identity>, members: seq<S>)
    requires |roster| == |members| && forall i | 0 <= i < |members| :: roster[i].0 == Pid(ids, members[i])
    ensures PidsOf(roster) == Pids(ids, members)
  {
    forall p
      ensures p in PidsOf(roster) <==> p in Pids(ids, members)
    {
      if p in PidsOf(roster) {
        var i :| 0 <= i < |roster| && roster[i].0 == p;
        assert Pid(ids, members[i]) == p;
      }
      if p in Pids(ids, members) {
        var i := MemberIndex(ids, members, p);
        assert roster[i].0 == p;
      }
    }
  }

  /** A client in no lobby, told of all members, takes the setup and then sees exactly the game. */
  lemma SetupTunes<S>(self: int, v: View, g: Game<S>, ids: map<S, Identity>)
    requires GameOk(g, ids) && g.id != 0 && v.gid == 0
    requires self in Pids(ids, g.members) && Pids(ids, g.members) <= v.known
    ensures Accepts(self, v, SetupNote(g, ids))
    ensures Apply(self, v, SetupNote(g, ids)) == View(g.id, g.slots, Pids(ids, g.members), v.known)
  {
    hide Pids, Pid, Roster, RosterMap, PidsOf, RosterOk, ReadinessExact, HostFirst;
    RosterOfGame(g, ids);
    SetupHost(g, ids);
    SetupSlots(g, ids);
  }

  lemma SetupHost<S>(g: Game<S>, ids: map<S, Identity>)
    requires RosterOk(g, ids) && HostFirst(g, ids)
    ensures (Pid(ids, g.host), 0) in Roster(g, ids)
  {
    RosterEntries(g, ids);
    assert Roster(g, ids)[0] == (Pid(ids, g.host), 0);
  }

  lemma SetupSlots<S>(g: Game<S>, ids: map<S, Identity>)
    requires RosterOk(g, ids)
    ensures var roster := Roster(g, ids);
            forall i, j | 0 <= i < j < |roster| :: roster[i].0 != roster[j].0 && roster[i].1 != roster[j].1
  {
    hide Pids, Pid, Roster, RosterMap, PidsOf;
    RosterEntries(g, ids);
    var roster := Roster(g, ids);
    forall i, j | 0 <= i < j < |roster|
      ensures roster[i].0 != roster[j].0 && roster[i].1 != roster[j].1
    {
      assert Pid(ids, g.members[i]) != Pid(ids, g.members[j]);
    }
  }

  // ---- announcements -----------------------------------------------------------------------

  lemma {:induction false} Announced<S>(self: int, v: View, ids: map<S, Identity>, members: seq<S>, except: S)
    ensures var notes := UserNotesExcept(ids, members, except);
            && Legal(self, v, notes)
            && After(self, v, notes) == v.(known := After(self, v, notes).known)
            && v.known <= After(self, v, notes).known
            && (forall m | m in members && m != except :: Pid(ids, m) in After(self, v, notes).known)
    decreases |members|
  {
    if members != [] {
      var m := members[0];
      var rest := UserNotesExcept(ids, members[1..], except);
      if m == except {
        assert UserNotesExcept(ids, members, except) == rest;
        Announced(self, v, ids, members[1..], except);
      } else {
        var head := UserNotes(ids, m);
        var v' := v.(known := v.known + {Pid(ids, m)});
        UserNotesView(self, v, ids, m);
        AfterConcat(self, v, head, rest);
        Announced(self, v', ids, members[1..], except);
      }
      assert forall x | x in members && x != m :: x in members[1..];
    }
  }

  lemma UserNotesView<S>(self: int, v: View, ids: map<S, Identity>, m: S)
    ensures Legal(self, v, UserNotes(ids, m))
    ensures After(self, v, UserNotes(ids, m)) == v.(known := v.known + {Pid(ids, m)})
  {
    Two(self, v, UserAdded(Pid(ids, m)), ExtendedData(Uid(ids, m)));
    assert UserNotes(ids, m) == [UserAdded(Pid(ids, m))] + [ExtendedData(Uid(ids, m))];
  }

  lemma One(self: int, v: View, n: Note)
    ensures Legal(self, v, [n]) <==> Accepts(self, v, n)
    ensures After(self, v, [n]) == Apply(self, v, n)
  {
    assert [n][1..] == [];
  }

  lemma Two(self: int, v: View, a: Note, b: Note)
    ensures Legal(self, v, [a] + [b]) <==> Accepts(self, v, a) && Accepts(self, Apply(self, v, a), b)
    ensures After(self, v, [a] + [b]) == Apply(self, Apply(self, v, a), b)
  {
    AfterConcat(self, v, [a], [b]);
    One(self, v, a);
    One(self, Apply(self, v, a), b);
  }

  // ---- completions -------------------------------------------------------------------------

  /** Completions of distinct joining members are all accepted, and close exactly those joins. */
  lemma {:induction false} CompletionsTune<S>(self: int, v: View, gid: int, ids: map<S, Identity>, completed: seq<S>)
    requires gid != 0 && v.gid == gid && MembersDistinct(ids, completed)
    requires forall m | m in completed :: Pid(ids, m) in v.roster && Pid(ids, m) in v.joining
    ensures var notes := JoinedNotes(gid, ids, completed);
            Legal(self, v, notes) && After(self, v, notes) == v.(joining := v.joining - Pids(ids, completed))
    decreases |completed|
  {
    var notes := JoinedNotes(gid, ids, completed);
    if completed != [] {
      var m, rest := completed[0], completed[1..];
      TailDistinct(ids, completed);
      var v' := v.(joining := v.joining - {Pid(ids, m)});
      assert notes[0] == PlayerJoined(gid, Pid(ids, m));
      assert notes[1..] == JoinedNotes(gid, ids, rest);
      hide Pids, Pid, MembersDistinct, JoinedNotes;
      CompletionsTune(self, v', gid, ids, rest);
      assert v.joining - Pids(ids, completed) == v'.joining - Pids(ids, rest);
    } else {
      assert v.joining - Pids(ids, completed) == v.joining;
    }
  }
}
