/** The client's side of the lobby protocol: what it believes after each notification, and which
    notifications it can take. */
module LobbyClient {
  import opened LobbyModel

  /** The game the client is in (0 for none), its roster of personas and slots, the players whose
      join it has not seen completed, and the users announced to it. */
  datatype View = View(gid: int, roster: map<int, int>, joining: set<int>, known: set<int>)

  const START := View(0, map[], {}, {})

  function PidsOf(roster: seq<(int, int)>): set<int>
  {
    set i | 0 <= i < |roster| :: roster[i].0
  }

  function RosterMap(roster: seq<(int, int)>): map<int, int>
  {
    if roster == [] then map[] else RosterMap(roster[..|roster| - 1])[roster[|roster| - 1].0 := roster[|roster| - 1].1]
  }

  /** A setup replaces the roster; a client that learns of its own removal, or its game's, leaves. */
  function Apply(self: int, v: View, n: Note): View
  {
    match n
    case UserAdded(p) => v.(known := v.known + {p})
    case GameSetup(g, _, roster) => View(g, RosterMap(roster), PidsOf(roster), v.known)
    case PlayerJoining(g, p, sid) =>
      if g == v.gid then v.(roster := v.roster[p := sid], joining := v.joining + {p}) else v
    case PlayerJoined(g, p) => if g == v.gid then v.(joining := v.joining - {p}) else v
    case PlayerRemoved(g, p) =>
      if g != v.gid || g == 0 then v
      else if p == self then v.(gid := 0, roster := map[], joining := {})
      else v.(roster := v.roster - {p}, joining := v.joining - {p})
    case GameRemoved(g) => if g == v.gid then v.(gid := 0, roster := map[], joining := {}) else v
    case _ => v
  }

  /** The retail client's demands. A second setup tears its lobby down, so one may arrive only when
      it is in none; it must find itself, and the host in slot 0, among announced users in distinct
      slots. A joining player must be announced and new, a completed one joining, a removed one
      present. Removals from games the client is not in are echoes it ignores. */
  predicate Accepts(self: int, v: View, n: Note)
  {
    match n
    case GameSetup(g, host, roster) =>
      && g != 0 && v.gid == 0
      && self in PidsOf(roster) && PidsOf(roster) <= v.known
      && (host, 0) in roster
      && (forall i, j | 0 <= i < j < |roster| :: roster[i].0 != roster[j].0 && roster[i].1 != roster[j].1)
    case PlayerJoining(g, p, sid) =>
      && g != 0 && v.gid == g && p in v.known && p !in v.roster && sid !in v.roster.Values
    case PlayerJoined(g, p) => g != 0 && v.gid == g && p in v.roster && p in v.joining
    case PlayerRemoved(g, p) => g != 0 && v.gid == g ==> p in v.roster
    case GameRemoved(g) => g != 0 && v.gid == g
    case _ => true
  }

  function After(self: int, v: View, notes: seq<Note>): View
    decreases |notes|
  {
    if notes == [] then v else After(self, Apply(self, v, notes[0]), notes[1..])
  }

  predicate Legal(self: int, v: View, notes: seq<Note>)
    decreases |notes|
  {
    notes == [] || (Accepts(self, v, notes[0]) && Legal(self, Apply(self, v, notes[0]), notes[1..]))
  }

  lemma {:induction false} AfterConcat(self: int, v: View, a: seq<Note>, b: seq<Note>)
    ensures After(self, v, a + b) == After(self, After(self, v, a), b)
    ensures Legal(self, v, a + b) <==> Legal(self, v, a) && Legal(self, After(self, v, a), b)
    decreases |a|
  {
    if a == [] {
      assert a + b == b;
    } else {
      assert (a + b)[1..] == a[1..] + b;
      AfterConcat(self, Apply(self, v, a[0]), a[1..], b);
    }
  }
}
