/** Pieces of runs of the protocol, for the runs that show something happening. */
module Scenes {
  import opened Structs
  import opened SpellBook
  import opened SessionRegistry
  import opened Protocol

  lemma TwoSteps(g: Server, data: GameData, first: (SessionId, Action), second: (SessionId, Action))
    ensures Reach(g, data, [first, second]) == Do(Do(g, data, first.0, first.1), data, second.0, second.1)
  {
    var steps := [first, second];
    assert steps[..1] == [first];
    assert Reach(g, data, steps) == Do(Reach(g, data, [first]), data, second.0, second.1);
    assert Reach(g, data, [first]) == Do(Reach(g, data, [first][..0]), data, first.0, first.1);
  }

  lemma {:induction false} ReachMore(g: Server, data: GameData, steps: seq<(SessionId, Action)>,
                                     more: seq<(SessionId, Action)>)
    ensures Reach(g, data, steps + more) == Reach(Reach(g, data, steps), data, more)
    decreases |more|
  {
    if more == [] {
      assert steps + more == steps;
    } else {
      var n := |more| - 1;
      ReachMore(g, data, steps, more[..n]);
      assert (steps + more)[..|steps + more| - 1] == steps + more[..n];
    }
  }

  lemma Rewritten<K, V>(m: map<K, V>, k: K, x: V, y: V)
    ensures m[k := x][k := y] == m[k := y]
  {
  }

  lemma BothRewritten<V>(m: map<SessionId, V>, x: V, y: V)
    requires m.Keys <= {1, 2}
    ensures m[1 := x][2 := y] == map[1 := x, 2 := y]
  {
  }

  function Login(s: SessionId, user: string): seq<(SessionId, Action)> {
    [(s, Connect), (s, SelectUser(user, true, false))]
  }

  lemma LoginEnds(g: Server, data: GameData, s: SessionId, user: string)
    requires s !in g.sessions && user in g.flags && !g.flags[user]
    ensures Reach(g, data, Login(s, user))
            == g.(live := g.live + {s}, sessions := g.sessions[s := NEW_SESSION.(phase := Selected(user))])
  {
    var x := NEW_SESSION.(phase := Selected(user));
    TwoSteps(g, data, (s, Connect), (s, SelectUser(user, true, false)));
    Rewritten(g.sessions, s, NEW_SESSION, x);
  }

  function Fetch(s: SessionId): seq<(SessionId, Action)> { [(s, UpdateFlag(false, true)), (s, FetchCharacter(false))] }

  function Stored(g: Server, user: string): Option<Player> {
    if user in g.characters then Some(g.characters[user]) else None
  }

  lemma FetchEnds(g: Server, data: GameData, s: SessionId, user: string)
    requires s in g.sessions && g.sessions[s] == NEW_SESSION.(phase := Selected(user))
    ensures Reach(g, data, Fetch(s))
            == g.(flags := g.flags[user := true],
                  sessions := g.sessions[s := NEW_SESSION.(phase := Fetched(Stored(g, user)), user := Some(user))])
  {
    var flagged := NEW_SESSION.(phase := Flagged, user := Some(user));
    var x := NEW_SESSION.(phase := Fetched(Stored(g, user)), user := Some(user));
    TwoSteps(g, data, (s, UpdateFlag(false, true)), (s, FetchCharacter(false)));
    Rewritten(g.sessions, s, flagged, x);
  }
}
