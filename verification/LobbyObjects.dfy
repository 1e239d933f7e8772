/** Connections and registered games as the server holds them: objects updated in place. Each
    method is proved to compute its function in LobbyModel. */
module LobbyObjects {
  import opened Options
  import opened LobbyModel
  import opened LobbyInvariant
  import opened LobbyGames

  /** One connection. Notifications wait for the handler's reply; outbound is what went out. */
  class Session {
    var accountID: int
    var personaID: int
    var sessionID: int
    var persona: string
    var gameID: int
    var pending: int
    var queuedMatch: int
    var notifications: seq<Note>
    var outbound: seq<Note>
    var closed: bool

    constructor ()
      ensures Who() == Identity(0, 0, 0, "") && Place() == IDLE
      ensures notifications == [] && outbound == [] && !closed
    {
      accountID, personaID, sessionID, persona := 0, 0, 0, "";
      gameID, pending, queuedMatch := 0, 0, 0;
      notifications, outbound, closed := [], [], false;
    }

    function Who(): Identity
      reads this`accountID, this`personaID, this`sessionID, this`persona
    {
      Identity(accountID, personaID, sessionID, persona)
    }

    function Place(): Seat
      reads this`gameID, this`pending, this`queuedMatch
    {
      Seat(gameID, pending, queuedMatch)
    }

    /** Everything the client was or is about to be sent. */
    function Mail(): seq<Note>
      reads this`outbound, this`notifications
    {
      outbound + notifications
    }

    /** enqueue: a closed connection takes nothing. */
    method Enqueue(n: Note) returns (sent: bool)
      modifies this`outbound
      ensures sent == !closed
      ensures outbound == if sent then old(outbound) + [n] else old(outbound)
    {
      sent := !closed;
      if sent {
        outbound := outbound + [n];
      }
    }

    /** notify */
    method Notify(n: Note)
      modifies this`outbound
      ensures outbound == if closed then old(outbound) else old(outbound) + [n]
    {
      var _ := Enqueue(n);
    }

    /** flushNotifications: what waited goes out in order, or is dropped if the connection is closed. */
    method FlushNotifications()
      modifies this`outbound, this`notifications
      ensures notifications == []
      ensures outbound == if closed then old(outbound) else old(Mail())
    {
      var frames := notifications;
      notifications := [];
      var i := 0;
      while i < |frames|
        invariant 0 <= i <= |frames| && notifications == []
        invariant outbound == if closed then old(outbound) else old(outbound) + frames[..i]
      {
        var sent := Enqueue(frames[i]);
        if !sent {
          return;
        }
        assert frames[..i + 1] == frames[..i] + [frames[i]];
        i := i + 1;
      }
      assert frames[..|frames|] == frames;
    }
  }

  /** The identities of the given connections. */
  function IdsOf(connections: set<Session>): map<Session, Identity>
    reads connections`accountID, connections`personaID, connections`sessionID, connections`persona
  {
    map s | s in connections :: s.Who()
  }

  /** A registered game. */
  class LiveGame {
    var id: int
    var host: Session
    var members: seq<Session>
    var attrs: Attrs
    var capacity: int
    var topology: int
    var slots: map<int, int>
    var joinedAt: map<int, int>
    var playerAttrs: map<int, Attrs>
    var playerStates: map<int, int>
    var mesh: map<int, map<int, int>>
    var meshReady: map<int, bool>

    function Value(): Game<Session>
      reads this
    {
      Game(id, host, members, attrs, capacity, topology, slots, joinedAt, playerAttrs, playerStates, mesh, meshReady)
    }

    /** `ids` gives the members' identities. */
    ghost predicate Knows(ids: map<Session, Identity>)
      reads this`members, members`personaID
    {
      forall m | m in members :: m in ids && ids[m].personaID == m.personaID
    }

    /** newGame */
    constructor (id: int, host: Session, joining: seq<Session>, attrs: Attrs, capacity: int, topology: int, now: int,
                 ghost ids: map<Session, Identity>)
      requires forall m | m in joining :: m in ids && ids[m].personaID == m.personaID
      ensures Value() == NewGame(ids, id, host, joining, attrs, capacity, topology, now)
    {
      this.id, this.host, this.attrs, this.capacity, this.topology := id, host, attrs, capacity, topology;
      members, slots, joinedAt, playerAttrs, playerStates, mesh, meshReady := [], map[], map[], map[], map[], map[], map[];
      new;
      var i := 0;
      assert joining[0..] == joining;
      while i < |joining|
        invariant 0 <= i <= |joining|
        invariant Knows(ids)
        invariant AddMembers(Value(), ids, joining[i..], now) == NewGame(ids, id, host, joining, attrs, capacity, topology, now)
      {
        assert joining[i..][1..] == joining[i + 1..];
        AddedMembers(Value(), ids, joining[i], now);
        var _, _ := AddMember(joining[i], now, ids);
        i := i + 1;
      }
      assert joining[|joining|..] == [];
    }

    /** ensureMembershipState */
    method EnsureMembershipState(now: int, ghost ids: map<Session, Identity>)
      requires Knows(ids)
      modifies this`slots, this`joinedAt, this`playerStates
      ensures Value() == EnsureMembership(old(Value()), ids, now)
    {
      var i := 0;
      while i < |members|
        invariant 0 <= i <= |members|
        invariant EnsureFrom(Value(), ids, now, i) == EnsureMembership(old(Value()), ids, now)
      {
        assert members[i] in members;
        EnsureMember(members[i].personaID, i, now);
        i := i + 1;
      }
    }

    /** One member's missing slot, join time and state. */
    method EnsureMember(p: int, i: nat, now: int)
      modifies this`slots, this`joinedAt, this`playerStates
      ensures var g := old(Value());
              Value() == g.(slots := if p in g.slots then g.slots else g.slots[p := i],
                            joinedAt := if p in g.joinedAt && g.joinedAt[p] != 0 then g.joinedAt else g.joinedAt[p := now],
                            playerStates := if p in g.playerStates then g.playerStates else g.playerStates[p := 4])
    {
      if p !in slots {
        slots := slots[p := i];
      }
      if p !in joinedAt || joinedAt[p] == 0 {
        joinedAt := joinedAt[p := now];
      }
      if p !in playerStates {
        playerStates := playerStates[p := 4];
      }
    }

    /** addMember */
    method AddMember(s: Session, now: int, ghost ids: map<Session, Identity>) returns (slot: int, added: bool)
      requires Knows(ids) && s in ids && ids[s].personaID == s.personaID
      modifies this`members, this`slots, this`joinedAt, this`playerAttrs, this`playerStates
      ensures var a := LobbyModel.AddMember(old(Value()), ids, s, now);
              Value() == a.game && slot == a.slot && added == a.added
      ensures Knows(ids)
    {
      EnsureMembershipState(now, ids);
      EnsuredMembers(old(Value()), ids, now, 0);
      hide EnsureMembership, Duplicate, LeastUnused;
      var m := DuplicateOf(s, ids);
      if m != null {
        return if m.personaID in slots then slots[m.personaID] else 0, false;
      }
      if capacity > 0 && |members| >= capacity {
        return -1, false;
      }
      slot := LeastFree(slots.Values);
      Append(s, slot, now);
      return slot, true;
    }

    /** addMember's updates. */
    method Append(s: Session, slot: int, now: int)
      modifies this`members, this`slots, this`joinedAt, this`playerAttrs, this`playerStates
      ensures Value() == Joined(old(Value()), s.personaID, s, slot, now)
    {
      var p := s.personaID;
      members := members + [s];
      slots := slots[p := slot];
      joinedAt := joinedAt[p := now];
      playerAttrs := playerAttrs[p := map[]];
      playerStates := playerStates[p := 4];
    }

    /** addMember's first loop: a member that is the session or shares its persona. */
    method DuplicateOf(s: Session, ghost ids: map<Session, Identity>) returns (m: Session?)
      requires Knows(ids) && s in ids && ids[s].personaID == s.personaID
      ensures Duplicate(ids, members, s) == if m == null then None else Some(m)
      ensures m != null ==> m in members
    {
      var i := 0;
      assert members[0..] == members;
      while i < |members|
        invariant 0 <= i <= |members|
        invariant Duplicate(ids, members[i..], s) == Duplicate(ids, members, s)
      {
        assert members[i] in members;
        if members[i] == s || members[i].personaID == s.personaID {
          return members[i];
        }
        assert members[i..][1..] == members[i + 1..];
        i := i + 1;
      }
      assert members[|members|..] == [];
      return null;
    }

    /** broadcastPlayerAttributes' update of the registered game. */
    method MergeAttributes(p: int, attrs: Attrs, now: int, ghost ids: map<Session, Identity>)
      requires Knows(ids)
      modifies this`slots, this`joinedAt, this`playerStates, this`playerAttrs
      ensures Value() == MergeAttrs(EnsureMembership(old(Value()), ids, now), p, attrs)
    {
      hide EnsureMembership, MergeAttrs;
      EnsureMembershipState(now, ids);
      PutAttributes(p, attrs);
    }

    method PutAttributes(p: int, attrs: Attrs)
      modifies this`playerAttrs
      ensures Value() == MergeAttrs(old(Value()), p, attrs)
    {
      if p !in playerAttrs {
        playerAttrs := playerAttrs[p := map[]];
      }
      playerAttrs := playerAttrs[p := playerAttrs[p] + attrs];
    }

    /** removeMember */
    method RemoveMember(s: Session, ghost ids: map<Session, Identity>) returns (removed: bool)
      requires Knows(ids)
      modifies this`members, this`slots, this`joinedAt, this`playerAttrs, this`playerStates, this`mesh, this`meshReady
      ensures Value() == LobbyModel.RemoveMember(old(Value()), ids, s) && removed == (s in old(members))
      ensures Knows(ids)
    {
      hide Without;
      var i := IndexOf(members, s);
      if i == |members| {
        return false;
      }
      MemberKnown(ids, i);
      members := members[..i] + members[i + 1..];
      Erase(s.personaID);
      return true;
    }

    /** removeMember's deletions: every table, and both directions of the mesh. */
    method Erase(p: int)
      modifies this`slots, this`joinedAt, this`playerAttrs, this`playerStates, this`mesh, this`meshReady
      ensures Value() == old(Value()).(slots := old(slots) - {p}, joinedAt := old(joinedAt) - {p},
                                       playerAttrs := old(playerAttrs) - {p}, playerStates := old(playerStates) - {p},
                                       mesh := map q | q in old(mesh) && q != p :: old(mesh)[q] - {p},
                                       meshReady := old(meshReady) - {p})
    {
      slots, joinedAt := slots - {p}, joinedAt - {p};
      playerAttrs, playerStates := playerAttrs - {p}, playerStates - {p};
      mesh := map q | q in mesh && q != p :: mesh[q] - {p};
      meshReady := meshReady - {p};
    }

    /** sessionForPlayerID */
    method SessionForPlayerID(pid: int, ghost ids: map<Session, Identity>) returns (m: Session?)
      requires Knows(ids)
      ensures MemberFor(ids, members, pid) == if m == null then None else Some(m)
      ensures m != null ==> m in members
    {
      var i := 0;
      assert members[0..] == members;
      while i < |members|
        invariant 0 <= i <= |members|
        invariant MemberFor(ids, members[i..], pid) == MemberFor(ids, members, pid)
      {
        assert members[i] in members;
        if members[i].personaID == pid {
          return members[i];
        }
        assert members[i..][1..] == members[i + 1..];
        i := i + 1;
      }
      assert members[|members|..] == [];
      return null;
    }

    /** meshReadyForPlayer */
    method MeshReadyForPlayer(player: Session, ghost ids: map<Session, Identity>) returns (ready: bool)
      requires Knows(ids) && player in members
      ensures ready == ReadyFor(Value(), ids, player)
    {
      var i := 0;
      while i < |members|
        invariant 0 <= i <= |members|
        invariant forall k | 0 <= k < i && members[k] != player :: Linked(mesh, Pid(ids, player), Pid(ids, members[k]))
      {
        var m := members[i];
        assert m in members;
        if m != player && !(Edge(mesh, player.personaID, m.personaID) == 2 && Edge(mesh, m.personaID, player.personaID) == 2) {
          assert !Linked(mesh, Pid(ids, player), Pid(ids, members[i]));
          return false;
        }
        i := i + 1;
      }
      return true;
    }

    /** refreshMeshReadiness */
    method RefreshMeshReadiness(ghost ids: map<Session, Identity>)
      requires Knows(ids)
      modifies this`meshReady
      ensures Value() == Refresh(old(Value()), ids)
    {
      ghost var g := Value();
      var i := 0;
      while i < |members|
        invariant 0 <= i <= |members|
        invariant RefreshFrom(g, ids, meshReady, i) == RefreshFrom(g, ids, g.meshReady, 0)
      {
        assert members[i] in members;
        var ready := MeshReadyForPlayer(members[i], ids);
        assert ReadyFor(Value(), ids, members[i]) == ReadyFor(g, ids, members[i]);
        meshReady := meshReady[members[i].personaID := ready];
        i := i + 1;
      }
    }

    /** The reporting loop of updateMeshConnection: the caller's row, target by target. */
    method Report(s: Session, targets: seq<Target>, ghost ids: map<Session, Identity>) returns (changed: bool)
      requires Knows(ids) && s in members
      modifies this`mesh, this`meshReady
      ensures MeshReport(old(Value()), ids, s, targets) == (Value(), changed)
    {
      var p := s.personaID;
      if p !in mesh {
        mesh := mesh[p := map[]];
      }
      ghost var g := Value();
      changed := false;
      var i := 0;
      assert targets[0..] == targets;
      while i < |targets|
        invariant 0 <= i <= |targets| && p in mesh
        invariant Value() == g.(mesh := mesh)
        invariant ApplyTargets(g, ids, s, targets).0 == ApplyTargets(Value(), ids, s, targets[i..]).0
        invariant ApplyTargets(g, ids, s, targets).1 == (changed || ApplyTargets(Value(), ids, s, targets[i..]).1)
      {
        assert targets[i..][1..] == targets[i + 1..];
        if targets[i].Target? {
          var peer := SessionForPlayerID(targets[i].pid, ids);
          if peer != null && peer != s {
            mesh := mesh[p := mesh[p][peer.personaID := targets[i].status]];
            changed := true;
          }
        }
        i := i + 1;
      }
      assert targets[|targets|..] == [];
      if changed {
        RefreshMeshReadiness(ids);
      }
    }

    /** gameSetup's player list; each replicatedGamePlayer starts with ensureMembershipState. */
    method Players(now: int, ghost ids: map<Session, Identity>) returns (roster: seq<(int, int)>)
      requires Knows(ids) && TablesMatch(Value(), ids)
      modifies this`slots, this`joinedAt, this`playerStates
      ensures Value() == old(Value()) && roster == LobbyModel.Roster(Value(), ids)
    {
      hide TablesMatch, EnsureMembership, Knows;
      ghost var g := Value();
      roster := [];
      var i := 0;
      while i < |members|
        invariant 0 <= i <= |members| && Value() == g && Knows(ids)
        invariant |roster| == i && forall k | 0 <= k < i :: roster[k] == LobbyModel.Roster(g, ids)[k]
      {
        MemberKnown(ids, i);
        EnsureIdle(g, ids, now);
        EnsureMembershipState(now, ids);
        var p := members[i].personaID;
        roster := roster + [(p, if p in slots then slots[p] else 0)];
        i := i + 1;
      }
    }

    lemma MemberKnown(ids: map<Session, Identity>, i: nat)
      requires Knows(ids) && i < |members|
      ensures Pid(ids, members[i]) == members[i].personaID
    {
      assert members[i] in members;
    }

    /** gameSetup: the roster it publishes. */
    method Setup(now: int, ghost ids: map<Session, Identity>) returns (setup: Note)
      requires Knows(ids) && TablesMatch(Value(), ids) && host in ids && ids[host].personaID == host.personaID
      modifies this`slots, this`joinedAt, this`playerStates
      ensures Value() == old(Value()) && setup == SetupNote(Value(), ids)
    {
      EnsureIdle(Value(), ids, now);
      EnsureMembershipState(now, ids);
      var roster := Players(now, ids);
      setup := GameSetup(id, host.personaID, roster);
    }
  }

  lemma EnsureIdle<S>(g: Game<S>, ids: map<S, Identity>, now: int)
    requires TablesMatch(g, ids)
    ensures EnsureMembership(g, ids, now) == g
  {
    EnsureIsIdle(g, ids, now, 0);
  }

  /** Where a session is in a roster; its length if it is not there. */
  method IndexOf(members: seq<Session>, s: Session) returns (i: nat)
    ensures i <= |members| && (i < |members| <==> s in members) && (i < |members| ==> members[i] == s)
    ensures Without(members, s) == if i < |members| then members[..i] + members[i + 1..] else members
  {
    i := 0;
    while i < |members| && members[i] != s
      invariant 0 <= i <= |members| && s !in members[..i]
    {
      i := i + 1;
    }
    WithoutAt(members, s, i);
  }

  lemma {:induction false} WithoutAt<S>(members: seq<S>, s: S, i: nat)
    requires i <= |members| && s !in members[..i] && (i < |members| ==> members[i] == s)
    ensures Without(members, s) == if i < |members| then members[..i] + members[i + 1..] else members
    decreases |members|
  {
    if members != [] && i > 0 {
      var rest := members[1..];
      assert members[0] == members[..i][0];
      assert rest[..i - 1] == members[..i][1..];
      WithoutAt(rest, s, i - 1);
      assert members == [members[0]] + rest;
      if i < |members| {
        assert members[..i] + members[i + 1..] == [members[0]] + (rest[..i - 1] + rest[i..]);
      }
    }
  }

  /** addMember's slot search. */
  method LeastFree(used: set<int>) returns (slot: nat)
    ensures slot == LeastUnused(used, 0)
  {
    slot := 0;
    while slot in used
      invariant LeastUnused(used, slot) == LeastUnused(used, 0)
      decreases |set k | k in used && k >= slot|
    {
      assert (set k | k in used && k >= slot) == (set k | k in used && k >= slot + 1) + {slot};
      slot := slot + 1;
    }
  }

  lemma AddedMembers<S>(g: Game<S>, ids: map<S, Identity>, s: S, now: int)
    ensures forall m | m in LobbyModel.AddMember(g, ids, s, now).game.members :: m in g.members || m == s
  {
    EnsuredMembers(g, ids, now, 0);
  }

  lemma {:induction false} EnsuredMembers<S>(g: Game<S>, ids: map<S, Identity>, now: int, i: nat)
    requires i <= |g.members|
    ensures var g' := EnsureFrom(g, ids, now, i); g'.members == g.members && g'.capacity == g.capacity && g'.id == g.id && g'.host == g.host
    decreases |g.members| - i
  {
    if i < |g.members| {
      var p := Pid(ids, g.members[i]);
      EnsuredMembers(g.(slots := if p in g.slots then g.slots else g.slots[p := i],
                        joinedAt := if p in g.joinedAt && g.joinedAt[p] != 0 then g.joinedAt else g.joinedAt[p := now],
                        playerStates := if p in g.playerStates then g.playerStates else g.playerStates[p := 4]),
                     ids, now, i + 1);
    }
  }
}
