/** The roster operations keep a game's tables consistent. */
module LobbyGames {
  import opened Options
  import opened LobbyModel
  import opened LobbyInvariant
  import IntSets

  lemma PidIn<S>(ids: map<S, Identity>, members: seq<S>, m: S)
    requires m in members
    ensures Pid(ids, m) in Pids(ids, members)
  {
    var i :| 0 <= i < |members| && members[i] == m;
  }

  lemma PidsAppend<S>(ids: map<S, Identity>, members: seq<S>, s: S)
    ensures Pids(ids, members + [s]) == Pids(ids, members) + {Pid(ids, s)}
  {
    var more := members + [s];
    forall p | p in Pids(ids, members) + {Pid(ids, s)}
      ensures p in Pids(ids, more)
    {
      if p == Pid(ids, s) {
        assert more[|members|] == s;
      } else {
        var i :| 0 <= i < |members| && Pid(ids, members[i]) == p;
        assert more[i] == members[i];
      }
    }
  }

  /** Distinct personas make the lookup by persona exact. */
  lemma {:induction false} MemberForExact<S>(ids: map<S, Identity>, members: seq<S>, p: int)
    requires MembersDistinct(ids, members)
    ensures match MemberFor(ids, members, p)
            case None => p !in Pids(ids, members)
            case Some(m) => m in members && Pid(ids, m) == p
    ensures forall m | m in members && Pid(ids, m) == p :: MemberFor(ids, members, p) == Some(m)
    decreases |members|
  {
    if members != [] {
      var rest := members[1..];
      assert members == [members[0]] + rest;
      assert MembersDistinct(ids, rest);
      MemberForExact(ids, rest, p);
      forall m | m in rest
        ensures Pid(ids, m) != Pid(ids, members[0])
      {
        var i :| 0 <= i < |rest| && rest[i] == m;
        assert members[i + 1] == m;
      }
      if Pid(ids, members[0]) != p && p in Pids(ids, members) {
        var i :| 0 <= i < |members| && Pid(ids, members[i]) == p;
        assert rest[i - 1] == members[i];
      }
    }
  }

  /** With consistent tables ensureMembershipState finds nothing to do: slots, join times and
      player states stay as they are. */
  lemma {:induction false} EnsureIsIdle<S>(g: Game<S>, ids: map<S, Identity>, now: int, i: nat)
    requires TablesMatch(g, ids) && i <= |g.members|
    ensures EnsureFrom(g, ids, now, i) == g
    decreases |g.members| - i
  {
    if i < |g.members| {
      PidIn(ids, g.members, g.members[i]);
      EnsureIsIdle(g, ids, now, i + 1);
    }
  }

  lemma {:induction false} DuplicateExact<S>(ids: map<S, Identity>, members: seq<S>, s: S)
    ensures match Duplicate(ids, members, s)
            case None => forall i | 0 <= i < |members| :: members[i] != s && Pid(ids, members[i]) != Pid(ids, s)
            case Some(m) => m in members && (m == s || Pid(ids, m) == Pid(ids, s))
    decreases |members|
  {
    if members != [] {
      DuplicateExact(ids, members[1..], s);
      assert members == [members[0]] + members[1..];
    }
  }

  // ---- joining -----------------------------------------------------------------------------

  predicate Fills(used: set<int>, n: nat)
  {
    forall k | 0 <= k < n :: k in used
  }

  lemma {:induction false} InitialSegment(used: set<int>, n: nat)
    requires Fills(used, n)
    ensures n <= |used|
  {
    if n > 0 {
      var rest := used - {n - 1};
      assert Fills(rest, n - 1);
      InitialSegment(rest, n - 1);
    }
  }

  lemma {:induction false} ValuesAtMostKeys(m: map<int, int>)
    ensures |m.Values| <= |m.Keys|
    decreases |m|
  {
    if m.Keys != {} {
      var k := IntSets.Pick(m.Keys);
      var rest := m - {k};
      assert rest.Keys == m.Keys - {k};
      forall v | v in m.Values
        ensures v in rest.Values + {m[k]}
      {
        var j := IntSets.KeyOf(m, v);
        assert j != k ==> j in rest && rest[j] == v;
      }
      ValuesAtMostKeys(rest);
      AtMost(m.Values, rest.Values, m[k]);
    } else {
      assert m.Values == {};
    }
  }

  lemma AtMost(a: set<int>, b: set<int>, x: int)
    requires a <= b + {x}
    ensures |a| <= |b| + 1
  {
    Subset(a, b + {x});
  }

  lemma {:induction false} Subset<K>(a: set<K>, b: set<K>)
    requires a <= b
    ensures |a| <= |b|
  {
    if a != {} {
      var k := IntSets.Pick(a);
      Subset(a - {k}, b - {k});
    }
  }

  lemma {:induction false} PidsAtMost<S>(ids: map<S, Identity>, members: seq<S>)
    ensures |Pids(ids, members)| <= |members|
    decreases |members|
  {
    if members != [] {
      var rest := members[..|members| - 1];
      var last := members[|members| - 1];
      assert members == rest + [last];
      PidsAppend(ids, rest, last);
      PidsAtMost(ids, rest);
      AtMost(Pids(ids, members), Pids(ids, rest), Pid(ids, last));
    }
  }

  /** The pigeonhole bound: the least unused slot is at most the number of members. */
  lemma SlotBound<S>(g: Game<S>, ids: map<S, Identity>)
    requires TablesMatch(g, ids)
    ensures LeastUnused(g.slots.Values, 0) <= |g.members|
  {
    InitialSegment(g.slots.Values, LeastUnused(g.slots.Values, 0));
    ValuesAtMostKeys(g.slots);
    PidsAtMost(ids, g.members);
  }

  ghost predicate CanJoin<S>(g: Game<S>, ids: map<S, Identity>, s: S)
  {
    s in ids && Pid(ids, s) > 0 && s !in g.members && Pid(ids, s) !in Pids(ids, g.members)
  }

  ghost predicate HasRoom<S>(g: Game<S>)
  {
    g.capacity > 0 ==> |g.members| < g.capacity
  }

  /** addMember in full: it takes exactly the newcomers a game with room can take, gives them the
      least unused slot, which the pigeonhole bounds, and changes nothing else. */
  lemma AddMemberSpec<S>(g: Game<S>, ids: map<S, Identity>, s: S, now: int)
    requires RosterOk(g, ids) && s in ids && Pid(ids, s) > 0
    ensures var a := AddMember(g, ids, s, now);
            && (a.added <==> CanJoin(g, ids, s) && HasRoom(g))
            && (!a.added ==> a.game == g)
            && (a.added ==>
                  && a.slot == LeastUnused(g.slots.Values, 0) && 0 <= a.slot <= |g.members|
                  && a.game == Joined(g, Pid(ids, s), s, a.slot, now))
  {
    EnsureIsIdle(g, ids, now, 0);
    DuplicateExact(ids, g.members, s);
    SlotBound(g, ids);
    var d := Duplicate(ids, g.members, s);
    if d.Some? {
      PidIn(ids, g.members, d.value);
    }
  }

  /** A roster with one more member at the end. */
  function Joined<S>(g: Game<S>, p: int, s: S, slot: int, now: int): Game<S>
  {
    g.(members := g.members + [s], slots := g.slots[p := slot], joinedAt := g.joinedAt[p := now],
       playerAttrs := g.playerAttrs[p := map[]], playerStates := g.playerStates[p := 4])
  }

  lemma DistinctAppend<S>(ids: map<S, Identity>, members: seq<S>, s: S)
    requires MembersDistinct(ids, members)
    requires s in ids && Pid(ids, s) > 0 && Pid(ids, s) !in Pids(ids, members)
    ensures MembersDistinct(ids, members + [s])
  {
    forall i | 0 <= i < |members|
      ensures Pid(ids, members[i]) != Pid(ids, s)
    {
      PidIn(ids, members, members[i]);
    }
  }

  lemma JoinedTables<S>(g: Game<S>, ids: map<S, Identity>, s: S, slot: int, now: int)
    requires TablesMatch(g, ids) && now != 0 && slot >= 0 && slot !in g.slots.Values
    requires Pid(ids, s) !in Pids(ids, g.members)
    ensures TablesMatch(Joined(g, Pid(ids, s), s, slot, now), ids)
  {
    hide Pids, Pid;
    PidsAppend(ids, g.members, s);
    assert forall q | q in g.slots :: g.slots[q] in g.slots.Values;
  }

  lemma JoinedKeeps<S>(g: Game<S>, ids: map<S, Identity>, s: S, slot: int, now: int)
    requires RosterOk(g, ids) && CanJoin(g, ids, s) && now != 0
    requires slot >= 0 && slot !in g.slots.Values
    ensures RosterOk(Joined(g, Pid(ids, s), s, slot, now), ids)
    ensures HostFirst(g, ids) ==> HostFirst(Joined(g, Pid(ids, s), s, slot, now), ids)
    ensures ReadinessExact(g) ==> ReadinessExact(Joined(g, Pid(ids, s), s, slot, now))
  {
    hide Pids, MembersDistinct, TablesMatch, ReadinessExact, Linked;
    DistinctAppend(ids, g.members, s);
    JoinedTables(g, ids, s, slot, now);
    JoinedMesh(g, ids, Pid(ids, s), s, slot, now);
  }

  lemma JoinedMesh<S>(g: Game<S>, ids: map<S, Identity>, p: int, s: S, slot: int, now: int)
    requires TablesMatch(g, ids) && p !in Pids(ids, g.members)
    ensures MeshInside(g) ==> MeshInside(Joined(g, p, s, slot, now))
    ensures HostFirst(g, ids) ==> HostFirst(Joined(g, p, s, slot, now), ids)
    ensures ReadinessExact(g) ==> ReadinessExact(Joined(g, p, s, slot, now))
  {
    hide Pids, Linked;
  }

  /** A game created for one or two different sessions seats them in slots 0 and 1. */
  lemma NewGameOne<S>(ids: map<S, Identity>, id: int, s: S, attrs: Attrs, capacity: int, topology: int, now: int)
    requires s in ids && Pid(ids, s) > 0 && now != 0
    ensures var g := NewGame(ids, id, s, [s], attrs, capacity, topology, now);
            && GameOk(g, ids) && g.id == id && g.members == [s] && g.host == s && g.capacity == capacity
            && g.attrs == attrs && g.topology == topology && g.slots == map[Pid(ids, s) := 0] && g.meshReady == map[]
  {
    var e := EmptyGame(id, s, attrs, capacity, topology);
    AddMemberSpec(e, ids, s, now);
    JoinedKeeps(e, ids, s, 0, now);
    var g := AddMember(e, ids, s, now).game;
    assert [s][1..] == [];
    assert AddMembers(g, ids, [], now) == g;
    assert NewGame(ids, id, s, [s], attrs, capacity, topology, now) == g;
  }

  lemma NewGameTwo<S>(ids: map<S, Identity>, id: int, h: S, s: S, attrs: Attrs, capacity: int, topology: int, now: int)
    requires h in ids && Pid(ids, h) > 0 && s in ids && Pid(ids, s) > 0 && now != 0
    requires h != s && Pid(ids, h) != Pid(ids, s) && capacity >= 2
    ensures var g := NewGame(ids, id, h, [h, s], attrs, capacity, topology, now);
            && GameOk(g, ids) && g.id == id && g.members == [h, s] && g.host == h && g.capacity == capacity
            && g.attrs == attrs && g.topology == topology && g.slots == map[Pid(ids, h) := 0, Pid(ids, s) := 1] && g.meshReady == map[]
  {
    NewGameOne(ids, id, h, attrs, capacity, topology, now);
    var g1 := NewGame(ids, id, h, [h], attrs, capacity, topology, now);
    assert [h][1..] == [] && [h, s][1..] == [s] && [s][1..] == [];
    var seated := AddMember(EmptyGame(id, h, attrs, capacity, topology), ids, h, now).game;
    assert AddMembers(seated, ids, [], now) == seated;
    assert g1 == seated;
    AddMemberSpec(g1, ids, s, now);
    assert g1.slots.Values == {0};
    assert LeastUnused({0}, 1) == 1;
    JoinedKeeps(g1, ids, s, 1, now);
    var g2 := AddMember(g1, ids, s, now).game;
    assert AddMembers(g2, ids, [], now) == g2;
    assert AddMembers(g1, ids, [s], now) == g2;
    assert NewGame(ids, id, h, [h, s], attrs, capacity, topology, now) == g2;
  }

  // ---- leaving -----------------------------------------------------------------------------

  lemma TailDistinct<S>(ids: map<S, Identity>, members: seq<S>)
    requires members != [] && MembersDistinct(ids, members)
    ensures MembersDistinct(ids, members[1..])
    ensures members[0] in ids && Pid(ids, members[0]) > 0
    ensures forall m | m in members[1..] :: m != members[0] && Pid(ids, m) != Pid(ids, members[0])
    ensures Pids(ids, members) == {Pid(ids, members[0])} + Pids(ids, members[1..])
    ensures forall m | m in members :: m == members[0] || m in members[1..]
    ensures forall m | m in members[1..] :: m in members
  {
    var rest := members[1..];
    assert members == [members[0]] + rest;
    forall m | m in rest
      ensures Pid(ids, m) != Pid(ids, members[0])
    {
      var i :| 0 <= i < |rest| && rest[i] == m;
      assert members[i + 1] == m;
    }
    forall p | p in Pids(ids, members)
      ensures p in {Pid(ids, members[0])} + Pids(ids, rest)
    {
      var i :| 0 <= i < |members| && Pid(ids, members[i]) == p;
      assert i > 0 ==> rest[i - 1] == members[i];
    }
    forall p | p in Pids(ids, rest)
      ensures p in Pids(ids, members)
    {
      var i :| 0 <= i < |rest| && Pid(ids, rest[i]) == p;
      assert members[i + 1] == rest[i];
    }
  }

  lemma {:induction false} WithoutSpec<S>(ids: map<S, Identity>, members: seq<S>, s: S)
    requires MembersDistinct(ids, members) && s in members
    ensures MembersDistinct(ids, Without(members, s))
    ensures forall m | m in Without(members, s) :: m in members && m != s
    ensures forall m | m in members && m != s :: m in Without(members, s)
    ensures Pids(ids, Without(members, s)) == Pids(ids, members) - {Pid(ids, s)}
    ensures |Without(members, s)| == |members| - 1
    ensures members[0] != s ==> Without(members, s) != [] && Without(members, s)[0] == members[0]
    decreases |members|
  {
    hide Pids, MembersDistinct;
    var x, rest := members[0], members[1..];
    TailDistinct(ids, members);
    if x == s {
      if Pid(ids, s) in Pids(ids, rest) {
        PidWitness(ids, rest, Pid(ids, s));
      }
    } else {
      WithoutSpec(ids, rest, s);
      var kept := Without(rest, s);
      assert Without(members, s) == [x] + kept;
      forall m | m in kept
        ensures Pid(ids, m) != Pid(ids, x)
      {
        assert m in rest;
      }
      PrependDistinct(ids, x, kept);
      PidIn(ids, rest, s);
    }
  }

  lemma PidWitness<S>(ids: map<S, Identity>, members: seq<S>, p: int)
    requires p in Pids(ids, members)
    ensures exists m | m in members :: Pid(ids, m) == p
  {
    var i :| 0 <= i < |members| && Pid(ids, members[i]) == p;
    assert members[i] in members;
  }

  lemma PrependDistinct<S>(ids: map<S, Identity>, x: S, rest: seq<S>)
    requires MembersDistinct(ids, rest) && x in ids && Pid(ids, x) > 0
    requires forall m | m in rest :: Pid(ids, m) != Pid(ids, x)
    ensures MembersDistinct(ids, [x] + rest)
    ensures Pids(ids, [x] + rest) == {Pid(ids, x)} + Pids(ids, rest)
  {
    var more := [x] + rest;
    forall p | p in Pids(ids, rest)
      ensures p in Pids(ids, more)
    {
      var i :| 0 <= i < |rest| && Pid(ids, rest[i]) == p;
      assert more[i + 1] == rest[i];
    }
    assert more[0] == x;
    assert forall i | 1 <= i < |more| :: more[i] == rest[i - 1];
  }

  lemma {:induction false} RefreshSpec<S>(g: Game<S>, ids: map<S, Identity>, ready: map<int, bool>, i: nat)
    requires MembersDistinct(ids, g.members) && i <= |g.members|
    ensures var r := RefreshFrom(g, ids, ready, i);
            && r.Keys == ready.Keys + Pids(ids, g.members[i..])
            && (forall j | i <= j < |g.members| :: Pid(ids, g.members[j]) in r && r[Pid(ids, g.members[j])] == ReadyFor(g, ids, g.members[j]))
            && (forall p | p in ready && p !in Pids(ids, g.members[i..]) :: r[p] == ready[p])
    decreases |g.members| - i
  {
    hide ReadyFor;
    if i < |g.members| {
      var tail := g.members[i..];
      assert MembersDistinct(ids, tail);
      TailDistinct(ids, tail);
      assert tail[1..] == g.members[i + 1..];
      var m := g.members[i];
      var p := Pid(ids, m);
      if p in Pids(ids, tail[1..]) {
        PidWitness(ids, tail[1..], p);
      }
      RefreshSpec(g, ids, ready[p := ReadyFor(g, ids, m)], i + 1);
    }
  }

  lemma RefreshValues<S>(g: Game<S>, ids: map<S, Identity>)
    requires RosterOk(g, ids)
    ensures var ready := Refresh(g, ids).meshReady;
            && ready.Keys == Pids(ids, g.members)
            && (forall i | 0 <= i < |g.members| :: Pid(ids, g.members[i]) in ready
                                                   && ready[Pid(ids, g.members[i])] == ReadyFor(g, ids, g.members[i]))
  {
    hide RefreshFrom, ReadyFor, Pids, MembersDistinct;
    assert g.members[0..] == g.members;
    RefreshSpec(g, ids, g.meshReady, 0);
  }

  /** Rebuilding the cache makes it exact over the whole roster. */
  lemma RefreshIsExact<S>(g: Game<S>, ids: map<S, Identity>)
    requires RosterOk(g, ids)
    ensures RosterOk(Refresh(g, ids), ids) && ReadinessExact(Refresh(g, ids))
    ensures Refresh(g, ids).meshReady.Keys == Pids(ids, g.members)
    ensures HostFirst(g, ids) ==> HostFirst(Refresh(g, ids), ids)
  {
    hide Pid, Pids, RefreshFrom, ReadyFor, Linked, TablesMatch, MeshInside, HostFirst;
    RefreshValues(g, ids);
    RefreshFrame(g, ids);
    var ready := Refresh(g, ids).meshReady;
    forall p | p in ready
      ensures ready[p] <==> forall q | q in ready && q != p :: Linked(g.mesh, p, q)
    {
      var i := MemberIndex(ids, g.members, p);
      ReadyForAll(g, ids, i);
    }
  }

  lemma MemberIndex<S>(ids: map<S, Identity>, members: seq<S>, p: int) returns (i: nat)
    requires p in Pids(ids, members)
    ensures i < |members| && Pid(ids, members[i]) == p
  {
    i :| 0 <= i < |members| && Pid(ids, members[i]) == p;
  }

  lemma RefreshFrame<S>(g: Game<S>, ids: map<S, Identity>)
    requires RosterOk(g, ids) && Refresh(g, ids).meshReady.Keys == Pids(ids, g.members)
    ensures RosterOk(Refresh(g, ids), ids)
    ensures HostFirst(g, ids) ==> HostFirst(Refresh(g, ids), ids)
  {
    hide RefreshFrom, Pids;
  }

  lemma ReadyForAll<S>(g: Game<S>, ids: map<S, Identity>, i: nat)
    requires MembersDistinct(ids, g.members) && i < |g.members|
    ensures var p := Pid(ids, g.members[i]);
            ReadyFor(g, ids, g.members[i]) <==> forall q | q in Pids(ids, g.members) && q != p :: Linked(g.mesh, p, q)
  {
    hide Linked;
    var m := g.members[i];
    var p := Pid(ids, m);
    if ReadyFor(g, ids, m) {
      forall q | q in Pids(ids, g.members) && q != p
        ensures Linked(g.mesh, p, q)
      {
        var j :| 0 <= j < |g.members| && Pid(ids, g.members[j]) == q;
      }
    }
    if forall q | q in Pids(ids, g.members) && q != p :: Linked(g.mesh, p, q) {
      forall j | 0 <= j < |g.members| && g.members[j] != m
        ensures Linked(g.mesh, p, Pid(ids, g.members[j]))
      {
        PidIn(ids, g.members, g.members[j]);
      }
    }
  }

  /** A member other than the host leaves, and the cache is rebuilt. */
  lemma RemoveKeeps<S>(g: Game<S>, ids: map<S, Identity>, s: S)
    requires GameOk(g, ids) && s in g.members && s != g.host
    ensures var g' := Refresh(RemoveMember(g, ids, s), ids);
            && GameOk(g', ids) && g'.id == g.id && g'.host == g.host && g'.capacity == g.capacity
            && g'.members == Without(g.members, s) && g'.slots == g.slots - {Pid(ids, s)}
            && g'.meshReady.Keys == Pids(ids, g'.members)
  {
    RemovedRoster(g, ids, s);
    hide RosterOk, ReadinessExact, HostFirst, Pids;
    RefreshIsExact(RemoveMember(g, ids, s), ids);
  }

  lemma RemovedRoster<S>(g: Game<S>, ids: map<S, Identity>, s: S)
    requires GameOk(g, ids) && s in g.members && s != g.host
    ensures var g' := RemoveMember(g, ids, s);
            RosterOk(g', ids) && HostFirst(g', ids)
  {
    hide Pids, Without, ReadinessExact;
    WithoutSpec(ids, g.members, s);
    HostStays(g, ids, s);
  }

  lemma HostStays<S>(g: Game<S>, ids: map<S, Identity>, s: S)
    requires MembersDistinct(ids, g.members) && s in g.members && g.members[0] == g.host && s != g.host
    ensures Pid(ids, s) != Pid(ids, g.host)
  {
    TailDistinct(ids, g.members);
  }

  // ---- the mesh ----------------------------------------------------------------------------

  /** A report touches only the reporter's row, and only edges to other members. */
  lemma {:induction false} TargetsKeep<S>(g: Game<S>, ids: map<S, Identity>, s: S, targets: seq<Target>)
    requires RosterOk(g, ids) && s in g.members && Pid(ids, s) in g.mesh
    ensures var (g', changed) := ApplyTargets(g, ids, s, targets);
            && RosterOk(g', ids) && g' == g.(mesh := g'.mesh)
            && (!changed ==> g' == g)
            && g'.mesh.Keys == g.mesh.Keys
            && (forall p | p in g.mesh && p != Pid(ids, s) :: g'.mesh[p] == g.mesh[p])
    decreases |targets|
  {
    hide Pids, MembersDistinct, TablesMatch;
    if targets != [] {
      var t := targets[0];
      var peer := if t.Target? then MemberFor(ids, g.members, t.pid) else None;
      if peer.None? || peer.value == s {
        TargetsKeep(g, ids, s, targets[1..]);
      } else {
        var p := Pid(ids, s);
        var q := Pid(ids, peer.value);
        var g' := g.(mesh := g.mesh[p := g.mesh[p][q := t.status]]);
        OtherMember(g, ids, s, t.pid);
        TablesIgnoreMesh(g, g', ids);
        TargetsKeep(g', ids, s, targets[1..]);
      }
    }
  }

  lemma OtherMember<S>(g: Game<S>, ids: map<S, Identity>, s: S, pid: int)
    requires RosterOk(g, ids) && s in g.members
    ensures var peer := MemberFor(ids, g.members, pid);
            peer.Some? && peer.value != s ==>
              && peer.value in g.members && Pid(ids, peer.value) in g.slots.Keys && Pid(ids, peer.value) != Pid(ids, s)
  {
    hide Pids;
    MemberForExact(ids, g.members, pid);
    var peer := MemberFor(ids, g.members, pid);
    if peer.Some? && peer.value != s {
      PidIn(ids, g.members, peer.value);
      MemberForExact(ids, g.members, Pid(ids, s));
    }
  }

  lemma TablesIgnoreMesh<S>(g: Game<S>, g': Game<S>, ids: map<S, Identity>)
    requires TablesMatch(g, ids) && g' == g.(mesh := g'.mesh, meshReady := g'.meshReady)
    ensures TablesMatch(g', ids) && g'.slots == g.slots && g'.members == g.members
  {
  }

  lemma EmptyRow<S>(g: Game<S>, ids: map<S, Identity>, p: int)
    requires GameOk(g, ids) && p in g.slots && p !in g.mesh
    ensures GameOk(g.(mesh := g.mesh[p := map[]]), ids)
  {
    hide Pids;
    var g' := g.(mesh := g.mesh[p := map[]]);
    assert forall x, y :: Edge(g'.mesh, x, y) == Edge(g.mesh, x, y);
    assert ReadinessExact(g');
  }

  lemma MeshReportKeeps<S>(g: Game<S>, ids: map<S, Identity>, s: S, targets: seq<Target>)
    requires GameOk(g, ids) && s in g.members
    ensures var (g', changed) := MeshReport(g, ids, s, targets);
            && GameOk(g', ids) && g' == g.(mesh := g'.mesh, meshReady := g'.meshReady)
            && (changed ==> g'.meshReady.Keys == Pids(ids, g.members))
            && (!changed ==> g'.meshReady == g.meshReady)
  {
    hide Pids, MembersDistinct, TablesMatch, ReadinessExact;
    var p := Pid(ids, s);
    PidIn(ids, g.members, s);
    SlotKeys(g, ids);
    var g1 := if p in g.mesh then g else g.(mesh := g.mesh[p := map[]]);
    if p !in g.mesh {
      EmptyRow(g, ids, p);
    }
    TargetsKeep(g1, ids, s, targets);
    var (g2, changed) := ApplyTargets(g1, ids, s, targets);
    if changed {
      RefreshIsExact(g2, ids);
    }
  }

  lemma SlotKeys<S>(g: Game<S>, ids: map<S, Identity>)
    requires TablesMatch(g, ids)
    ensures g.slots.Keys == Pids(ids, g.members)
  {
  }
}
