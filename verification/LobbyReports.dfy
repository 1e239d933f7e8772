/** What a mesh report does, edge by edge and client by client. */
module LobbyReports {
  import opened Options
  import opened LobbyModel
  import opened LobbyInvariant
  import opened LobbyGames
  import opened LobbyQueueSteps
  import opened LobbyJoinSteps
  import opened LobbyLeaveSteps
  import opened LobbyRoomSteps
  import opened LobbyHistory
  import opened LobbyRuns

  /** The target is about the player. */
  predicate Names(t: Target, q: int)
  {
    t.Target? && t.pid == q
  }

  /** The target sets an edge: it is about a member other than the reporter. */
  predicate Counts<S>(g: Game<S>, ids: map<S, Identity>, s: S, t: Target)
  {
    t.Target? && t.pid in Pids(ids, g.members) && t.pid != Pid(ids, s)
  }

  // ---- edges -------------------------------------------------------------------------------

  /** The game after one target, and whether it set an edge. */
  function EnterTarget<S(==)>(g: Game<S>, ids: map<S, Identity>, s: S, t: Target): (Game<S>, bool)
    requires Pid(ids, s) in g.mesh
  {
    var p := Pid(ids, s);
    if Counts(g, ids, s, t) then (g.(mesh := g.mesh[p := g.mesh[p][t.pid := t.status]]), true) else (g, false)
  }

  lemma ApplyStep<S>(g: Game<S>, ids: map<S, Identity>, s: S, targets: seq<Target>)
    requires RosterOk(g, ids) && s in g.members && Pid(ids, s) in g.mesh && targets != []
    ensures var (g1, hit) := EnterTarget(g, ids, s, targets[0]);
            && RosterOk(g1, ids) && g1.members == g.members && Pid(ids, s) in g1.mesh
            && ApplyTargets(g, ids, s, targets).0 == ApplyTargets(g1, ids, s, targets[1..]).0
            && ApplyTargets(g, ids, s, targets).1 == (hit || ApplyTargets(g1, ids, s, targets[1..]).1)
  {
    hide Pids, MembersDistinct, TablesMatch;
    var t := targets[0];
    if t.Target? {
      PeerIs(g, ids, s, t.pid);
      OtherMember(g, ids, s, t.pid);
    }
    TablesIgnoreMesh(g, EnterTarget(g, ids, s, t).0, ids);
  }

  lemma PeerIs<S>(g: Game<S>, ids: map<S, Identity>, s: S, q: int)
    requires RosterOk(g, ids) && s in g.members
    ensures var peer := MemberFor(ids, g.members, q);
            && (peer.Some? && peer.value != s <==> q in Pids(ids, g.members) && q != Pid(ids, s))
            && (peer.Some? ==> Pid(ids, peer.value) == q)
  {
    hide Pids;
    MemberForExact(ids, g.members, q);
    MemberForExact(ids, g.members, Pid(ids, s));
    var peer := MemberFor(ids, g.members, q);
    if peer.Some? {
      PidIn(ids, g.members, peer.value);
    }
  }

  lemma EnterEdge<S>(g: Game<S>, ids: map<S, Identity>, s: S, t: Target, x: int, y: int)
    requires Pid(ids, s) in g.mesh
    ensures var (g1, hit) := EnterTarget(g, ids, s, t);
            Edge(g1.mesh, x, y) == if hit && x == Pid(ids, s) && y == t.pid then t.status else Edge(g.mesh, x, y)
  {
    hide Pids;
  }

  /** Targets that are about other players leave an edge alone. */
  lemma {:induction false} EdgeStays<S>(g: Game<S>, ids: map<S, Identity>, s: S, targets: seq<Target>, x: int, y: int)
    requires RosterOk(g, ids) && s in g.members && Pid(ids, s) in g.mesh
    requires x != Pid(ids, s) || forall i | 0 <= i < |targets| && Counts(g, ids, s, targets[i]) :: !Names(targets[i], y)
    ensures Edge(ApplyTargets(g, ids, s, targets).0.mesh, x, y) == Edge(g.mesh, x, y)
    decreases |targets|
  {
    hide RosterOk, Edge, Pid, Pids;
    if targets != [] {
      ApplyStep(g, ids, s, targets);
      EnterEdge(g, ids, s, targets[0], x, y);
      var g1 := EnterTarget(g, ids, s, targets[0]).0;
      SameCounts(g, g1, ids, s);
      EdgeStays(g1, ids, s, targets[1..], x, y);
    }
  }

  lemma SameCounts<S>(g: Game<S>, g1: Game<S>, ids: map<S, Identity>, s: S)
    requires g1.members == g.members
    ensures forall t: Target :: Counts(g1, ids, s, t) == Counts(g, ids, s, t)
  {
  }

  /** The last target about a player decides its edge. */
  lemma {:induction false} LastTargetDecides<S>(g: Game<S>, ids: map<S, Identity>, s: S, targets: seq<Target>, i: nat)
    requires RosterOk(g, ids) && s in g.members && Pid(ids, s) in g.mesh
    requires i < |targets| && Counts(g, ids, s, targets[i])
    requires forall j | i < j < |targets| :: !Names(targets[j], targets[i].pid)
    ensures Edge(ApplyTargets(g, ids, s, targets).0.mesh, Pid(ids, s), targets[i].pid) == targets[i].status
    decreases |targets|
  {
    hide RosterOk, Edge, Pid, Pids;
    ApplyStep(g, ids, s, targets);
    var g1 := EnterTarget(g, ids, s, targets[0]).0;
    SameCounts(g, g1, ids, s);
    if i == 0 {
      EnterEdge(g, ids, s, targets[0], Pid(ids, s), targets[0].pid);
      EdgeStays(g1, ids, s, targets[1..], Pid(ids, s), targets[0].pid);
    } else {
      assert targets[1..][i - 1] == targets[i];
      LastTargetDecides(g1, ids, s, targets[1..], i - 1);
    }
  }

  lemma {:induction false} ChangedExactly<S>(g: Game<S>, ids: map<S, Identity>, s: S, targets: seq<Target>)
    requires RosterOk(g, ids) && s in g.members && Pid(ids, s) in g.mesh
    ensures ApplyTargets(g, ids, s, targets).1 <==> exists i :: 0 <= i < |targets| && Counts(g, ids, s, targets[i])
    decreases |targets|
  {
    hide RosterOk, Pid, Pids, Counts;
    if targets != [] {
      ApplyStep(g, ids, s, targets);
      var g1 := EnterTarget(g, ids, s, targets[0]).0;
      SameCounts(g, g1, ids, s);
      ChangedExactly(g1, ids, s, targets[1..]);
      if exists i :: 0 <= i < |targets| && Counts(g, ids, s, targets[i]) {
        var i :| 0 <= i < |targets| && Counts(g, ids, s, targets[i]);
        if i > 0 {
          assert targets[1..][i - 1] == targets[i];
        }
      }
      if ApplyTargets(g1, ids, s, targets[1..]).1 {
        var i :| 0 <= i < |targets| - 1 && Counts(g1, ids, s, targets[1..][i]);
        assert Counts(g, ids, s, targets[i + 1]);
      }
    }
  }

  /** A member's report on a registered game. */
  ghost predicate Reports<S>(l: Lobby<S>, s: S, gid: int)
  {
    Inv(l) && gid in l.games && s in l.games[gid].members
  }

  /** The report says something about another member. */
  ghost predicate SetsEdge<S>(l: Lobby<S>, s: S, gid: int, targets: seq<Target>)
    requires gid in l.games
  {
    exists i :: 0 <= i < |targets| && Counts(l.games[gid], l.ids, s, targets[i])
  }

  /** The game a report starts from: the reporter's row exists. */
  function WithRow<S>(g: Game<S>, p: int): Game<S>
  {
    if p in g.mesh then g else g.(mesh := g.mesh[p := map[]])
  }

  lemma RowIsFree<S>(g: Game<S>, ids: map<S, Identity>, p: int)
    requires GameOk(g, ids) && p in g.slots
    ensures RosterOk(WithRow(g, p), ids) && WithRow(g, p).members == g.members && p in WithRow(g, p).mesh
    ensures forall x, y :: Edge(WithRow(g, p).mesh, x, y) == Edge(g.mesh, x, y)
  {
    hide Edge, ReadinessExact, HostFirst, MembersDistinct, TablesMatch, Pids;
    NoEdges(g, p);
    SlotKeysOf(g, ids);
    if p !in g.mesh {
      EmptyRow(g, ids, p);
    }
  }

  lemma NoEdges<S>(g: Game<S>, p: int)
    ensures forall x, y :: Edge(WithRow(g, p).mesh, x, y) == Edge(g.mesh, x, y)
  {
  }

  lemma SlotKeysOf<S>(g: Game<S>, ids: map<S, Identity>)
    requires GameOk(g, ids)
    ensures RosterOk(g, ids)
  {
  }

  lemma ReportApplies<S>(l: Lobby<S>, s: S, gid: int, targets: seq<Target>, now: int)
    requires Reports(l, s, gid)
    ensures var p := Pid(l.ids, s);
            var g1 := WithRow(l.games[gid], p);
            && GameOk(l.games[gid], l.ids) && p in l.games[gid].slots
            && RosterOk(g1, l.ids) && p in g1.mesh && g1.members == l.games[gid].members
            && MeshReport(l.games[gid], l.ids, s, targets).1 == ApplyTargets(g1, l.ids, s, targets).1
            && gid in UpdateMesh(l, s, gid, targets, now).games
            && UpdateMesh(l, s, gid, targets, now).games[gid] == MeshReport(l.games[gid], l.ids, s, targets).0
            && UpdateMesh(l, s, gid, targets, now).games[gid].mesh == ApplyTargets(g1, l.ids, s, targets).0.mesh
  {
    hide RegistryOk, GamesOk, SeatsOk, QueueOk, InboxesOk, GameOk, RosterOk, UpdateMesh, ApplyTargets, Pid, Edge;
    MemberSeat(l, gid, s);
    SlotsAreTables(l, gid);
    RowIsFree(l.games[gid], l.ids, Pid(l.ids, s));
    ReportedGames(l, s, gid, targets, now);
  }

  /** The mesh after a report: towards a member the reporter's edge has the status of the last target
      naming it; edges to members nobody named, other players' edges and edges to strangers stay. */
  lemma ReportSetsEdges<S>(l: Lobby<S>, s: S, gid: int, targets: seq<Target>, now: int)
    requires Reports(l, s, gid)
    ensures var l' := UpdateMesh(l, s, gid, targets, now);
            var p := Pid(l.ids, s);
            var others := Pids(l.ids, l.games[gid].members) - {p};
            && gid in l'.games && l'.games[gid].members == l.games[gid].members
            && (forall i | 0 <= i < |targets| && targets[i].Target? && targets[i].pid in others
                           && (forall j | i < j < |targets| :: targets[j].NotAStruct? || targets[j].pid != targets[i].pid) ::
                  Edge(l'.games[gid].mesh, p, targets[i].pid) == targets[i].status)
            && (forall q | q in others && (forall j | 0 <= j < |targets| :: targets[j].NotAStruct? || targets[j].pid != q) ::
                  Edge(l'.games[gid].mesh, p, q) == Edge(l.games[gid].mesh, p, q))
            && (forall x, y | x != p || y !in others :: Edge(l'.games[gid].mesh, x, y) == Edge(l.games[gid].mesh, x, y))
  {
    hide RegistryOk, GamesOk, SeatsOk, QueueOk, InboxesOk, GameOk, RosterOk, UpdateMesh, ApplyTargets, Pid, Pids, Edge, MeshReport;
    var p := Pid(l.ids, s);
    var g := l.games[gid];
    var g1 := WithRow(g, p);
    ReportApplies(l, s, gid, targets, now);
    ReportKeepsRoster(l, s, gid, targets, now);
    RowIsFree(g, l.ids, p);
    var others := Pids(l.ids, g.members) - {p};
    forall i | 0 <= i < |targets| && targets[i].Target? && targets[i].pid in others
               && (forall j | i < j < |targets| :: targets[j].NotAStruct? || targets[j].pid != targets[i].pid)
      ensures Edge(UpdateMesh(l, s, gid, targets, now).games[gid].mesh, p, targets[i].pid) == targets[i].status
    {
      LastTargetDecides(g1, l.ids, s, targets, i);
    }
    forall q | q in others && (forall j | 0 <= j < |targets| :: targets[j].NotAStruct? || targets[j].pid != q)
      ensures Edge(UpdateMesh(l, s, gid, targets, now).games[gid].mesh, p, q) == Edge(g.mesh, p, q)
    {
      EdgeStays(g1, l.ids, s, targets, p, q);
    }
    forall x, y | x != p || y !in others
      ensures Edge(UpdateMesh(l, s, gid, targets, now).games[gid].mesh, x, y) == Edge(g.mesh, x, y)
    {
      EdgeStays(g1, l.ids, s, targets, x, y);
    }
  }

  lemma ReportKeepsRoster<S>(l: Lobby<S>, s: S, gid: int, targets: seq<Target>, now: int)
    requires Reports(l, s, gid)
    ensures gid in UpdateMesh(l, s, gid, targets, now).games
    ensures UpdateMesh(l, s, gid, targets, now).games[gid].members == l.games[gid].members
  {
    hide RegistryOk, GamesOk, SeatsOk, QueueOk, InboxesOk, GameOk, UpdateMesh, MeshReport, Pids;
    SlotsAreTables(l, gid);
    ReportedGames(l, s, gid, targets, now);
    MeshReportKeeps(l.games[gid], l.ids, s, targets);
  }

  // ---- completions -------------------------------------------------------------------------

  /** The member has status-2 edges both ways with every other member. */
  ghost predicate FullyLinked<S>(g: Game<S>, ids: map<S, Identity>, m: S)
  {
    forall x | x in g.members && x != m ::
      Edge(g.mesh, Pid(ids, m), Pid(ids, x)) == 2 && Edge(g.mesh, Pid(ids, x), Pid(ids, m)) == 2
  }

  lemma ReadyIsLinked<S>(g: Game<S>, ids: map<S, Identity>, m: S)
    requires GameOk(g, ids) && g.meshReady.Keys == Pids(ids, g.members) && m in g.members
    ensures Pid(ids, m) in g.meshReady && (g.meshReady[Pid(ids, m)] <==> FullyLinked(g, ids, m))
  {
    PidIn(ids, g.members, m);
    LinkedByPersona(g, ids, m);
    hide Pids, RosterOk, HostFirst, FullyLinked, Linked;
  }

  lemma LinkedByPersona<S>(g: Game<S>, ids: map<S, Identity>, m: S)
    requires MembersDistinct(ids, g.members) && m in g.members
    ensures FullyLinked(g, ids, m) <==> forall q | q in Pids(ids, g.members) && q != Pid(ids, m) :: Linked(g.mesh, Pid(ids, m), q)
  {
    hide Edge;
    if FullyLinked(g, ids, m) {
      forall q | q in Pids(ids, g.members) && q != Pid(ids, m)
        ensures Linked(g.mesh, Pid(ids, m), q)
      {
        var i := MemberIndex(ids, g.members, q);
        assert g.members[i] in g.members;
      }
    }
    if forall q | q in Pids(ids, g.members) && q != Pid(ids, m) :: Linked(g.mesh, Pid(ids, m), q) {
      forall x | x in g.members && x != m
        ensures Edge(g.mesh, Pid(ids, m), Pid(ids, x)) == 2 && Edge(g.mesh, Pid(ids, x), Pid(ids, m)) == 2
      {
        PidIn(ids, g.members, x);
        MemberForExact(ids, g.members, Pid(ids, m));
        assert Linked(g.mesh, Pid(ids, m), Pid(ids, x));
      }
    }
  }

  /** Exactly one of a client's new frames is the completion of the player. */
  predicate ToldOnce(before: seq<Note>, after: seq<Note>, gid: int, p: int)
  {
    exists k :: |before| <= k < |after| && after[k] == PlayerJoined(gid, p)
                && forall j | |before| <= j < |after| && j != k :: after[j] != PlayerJoined(gid, p)
  }

  /** A report that says something about another member completes, at once, the admission of every
      member it leaves fully linked, and of nobody else; all members are told, once each. */
  lemma ReportCompletes<S>(l: Lobby<S>, s: S, gid: int, targets: seq<Target>, now: int)
    requires Reports(l, s, gid) && SetsEdge(l, s, gid, targets)
    ensures var l' := UpdateMesh(l, s, gid, targets, now);
            && gid in l'.games && l'.seats.Keys == l.seats.Keys && l'.inbox.Keys == l.inbox.Keys
            && (forall x | x in l.seats ::
                  if x in l.games[gid].members && l.seats[x].pending == gid && FullyLinked(l'.games[gid], l.ids, x)
                  then l'.seats[x] == l.seats[x].(pending := 0) else l'.seats[x] == l.seats[x])
            && (forall x | x in l.inbox && x !in l.games[gid].members :: l'.inbox[x] == l.inbox[x])
            && (forall x, m | x in l.inbox && x in l.games[gid].members && m in l.games[gid].members && m in l.seats ::
                  if l.seats[m].pending == gid && FullyLinked(l'.games[gid], l.ids, m)
                  then ToldOnce(l.inbox[x], l'.inbox[x], gid, Pid(l.ids, m))
                  else forall k | |l.inbox[x]| <= k < |l'.inbox[x]| :: l'.inbox[x][k] != PlayerJoined(gid, Pid(l.ids, m)))
  {
    hide RegistryOk, GamesOk, SeatsOk, QueueOk, InboxesOk, GameOk, UpdateMesh, MeshReport, Pids, Pid, FullyLinked, DueMembers, JoinedNotes, MembersDistinct;
    var g' := MeshReport(l.games[gid], l.ids, s, targets).0;
    var l1 := l.(games := l.games[gid := g']);
    ReportCompletesBy(l, s, gid, targets, now);
    CompleteShape(l1, gid);
    DueFacts(l1, gid);
    var done := DueMembers(l1, gid);
    JoinedNotesAre(gid, l.ids, done);
    forall m | m in l.games[gid].members
      ensures m in done <==> m in l.seats && l.seats[m].pending == gid && FullyLinked(g', l.ids, m)
    {
      DueIsLinked(l, s, gid, targets, m);
    }
    var l' := UpdateMesh(l, s, gid, targets, now);
    forall x, m | x in l.inbox && x in l.games[gid].members && m in l.games[gid].members && m in l.seats
      ensures if l.seats[m].pending == gid && FullyLinked(l'.games[gid], l.ids, m)
              then ToldOnce(l.inbox[x], l'.inbox[x], gid, Pid(l.ids, m))
              else forall k | |l.inbox[x]| <= k < |l'.inbox[x]| :: l'.inbox[x][k] != PlayerJoined(gid, Pid(l.ids, m))
    {
      NotesTell(l1, gid, done, l.inbox[x], m);
    }
  }

  /** A member's notes about the completed members name each of them once and nobody else. */
  lemma NotesTell<S>(l: Lobby<S>, gid: int, done: seq<S>, before: seq<Note>, m: S)
    requires Inv(l) && gid in l.games && m in l.games[gid].members && MembersDistinct(l.ids, done)
    requires forall x | x in done :: x in l.games[gid].members
    ensures var after := before + JoinedNotes(gid, l.ids, done);
            if m in done then ToldOnce(before, after, gid, Pid(l.ids, m))
            else forall k | |before| <= k < |after| :: after[k] != PlayerJoined(gid, Pid(l.ids, m))
  {
    hide Inv, Pid, MembersDistinct, JoinedNotes;
    JoinedNotesAre(gid, l.ids, done);
    var after := before + JoinedNotes(gid, l.ids, done);
    forall i | 0 <= i < |done|
      ensures done[i] in l.games[gid].members && (Pid(l.ids, done[i]) == Pid(l.ids, m) ==> done[i] == m)
    {
      MembersDiffer(l, gid, done[i], m);
    }
    if m in done {
      var i :| 0 <= i < |done| && done[i] == m;
      assert after[|before| + i] == PlayerJoined(gid, Pid(l.ids, m));
      forall j | |before| <= j < |after| && j != |before| + i
        ensures after[j] != PlayerJoined(gid, Pid(l.ids, m))
      {
        if j < |before| + i {
          DistinctAt(l.ids, done, j - |before|, i);
        } else {
          DistinctAt(l.ids, done, i, j - |before|);
        }
      }
    }
  }

  lemma ReportCompletesBy<S>(l: Lobby<S>, s: S, gid: int, targets: seq<Target>, now: int)
    requires Reports(l, s, gid) && SetsEdge(l, s, gid, targets)
    ensures var g' := MeshReport(l.games[gid], l.ids, s, targets).0;
            var l1 := l.(games := l.games[gid := g']);
            && UpdateMesh(l, s, gid, targets, now) == Complete(l1, gid) && CompleteReady(l1, gid)
            && UpdateMesh(l, s, gid, targets, now).games[gid] == g'
            && g'.members == l.games[gid].members && g'.id == gid && GameOk(g', l.ids) && g'.meshReady.Keys == Pids(l.ids, g'.members)
  {
    hide RegistryOk, GamesOk, SeatsOk, QueueOk, InboxesOk, GameOk, Complete, MeshReport, EnsureMembership, MemberFor, Pid, Pids, ApplyTargets, RosterOk, Counts;
    var g := l.games[gid];
    SlotsAreTables(l, gid);
    Distinct(g, l.ids);
    MemberForExact(l.ids, g.members, Pid(l.ids, s));
    Idle(g, l.ids, now);
    ReportApplies(l, s, gid, targets, now);
    SameCounts(g, WithRow(g, Pid(l.ids, s)), l.ids, s);
    ChangedExactly(WithRow(g, Pid(l.ids, s)), l.ids, s, targets);
    MeshReportKeeps(g, l.ids, s, targets);
    ReplaceKeeps(l, gid, MeshReport(g, l.ids, s, targets).0);
    CompleteGames(l.(games := l.games[gid := MeshReport(g, l.ids, s, targets).0]), gid);
  }

  lemma DueIsLinked<S>(l: Lobby<S>, s: S, gid: int, targets: seq<Target>, m: S)
    requires Reports(l, s, gid) && SetsEdge(l, s, gid, targets) && m in l.games[gid].members
    ensures var g' := MeshReport(l.games[gid], l.ids, s, targets).0;
            var done := DueMembers(l.(games := l.games[gid := g']), gid);
            m in done <==> m in l.seats && l.seats[m].pending == gid && FullyLinked(g', l.ids, m)
  {
    hide RegistryOk, GamesOk, SeatsOk, QueueOk, InboxesOk, GameOk, Complete, MeshReport, Pid, Pids, FullyLinked, Completed, MembersDistinct, UpdateMesh;
    var g' := MeshReport(l.games[gid], l.ids, s, targets).0;
    ReportCompletesBy(l, s, gid, targets, 0);
    ReadyIsLinked(g', l.ids, m);
    Distinct(g', l.ids);
    CompletedSpec(g', l.ids, l.seats, g'.members);
  }

  /** A report that says nothing about another member changes no seat and tells nobody anything. */
  lemma IdleReportIsSilent<S>(l: Lobby<S>, s: S, gid: int, targets: seq<Target>, now: int)
    requires Reports(l, s, gid) && !SetsEdge(l, s, gid, targets)
    ensures var l' := UpdateMesh(l, s, gid, targets, now); l'.seats == l.seats && l'.inbox == l.inbox
  {
    hide RegistryOk, GamesOk, SeatsOk, QueueOk, InboxesOk, GameOk, Complete, MeshReport, EnsureMembership, MemberFor, Pid, Pids, ApplyTargets, RosterOk, Counts;
    var g := l.games[gid];
    SlotsAreTables(l, gid);
    Idle(g, l.ids, now);
    ReportApplies(l, s, gid, targets, now);
    SameCounts(g, WithRow(g, Pid(l.ids, s)), l.ids, s);
    ChangedExactly(WithRow(g, Pid(l.ids, s)), l.ids, s, targets);
  }

  /** A report on an unknown game, or by somebody who is not in it, changes nothing at all. */
  lemma StrangersReportNothing<S>(l: Lobby<S>, s: S, gid: int, targets: seq<Target>, now: int)
    requires Inv(l) && s in l.ids && (gid !in l.games || s !in l.games[gid].members)
    ensures UpdateMesh(l, s, gid, targets, now) == l
  {
    hide RegistryOk, GamesOk, SeatsOk, QueueOk, InboxesOk, GameOk, Complete, MeshReport, EnsureMembership, Pids;
    if gid in l.games {
      SlotsAreTables(l, gid);
      Distinct(l.games[gid], l.ids);
      MemberForExact(l.ids, l.games[gid].members, Pid(l.ids, s));
    }
  }
}
