/** The `logged_in` flag: exactly when a login passes its check, and two ways for a second session to pass it. */
module LoginFlag {
  import opened Structs
  import opened SpellBook
  import opened SessionRegistry
  import opened Protocol
  import opened Scenes
  import opened StepLaw

  // ---------- The flag is the last write applied to it ----------

  /** The step applies a login's update of the user's flag. */
  predicate Raises(g: Server, s: SessionId, a: Action, user: string) {
    && s in g.sessions && g.sessions[s].phase == Selected(user)
    && a.UpdateFlag? && (!a.fails || a.applied)
  }

  /** The step applies a logout's update of it. */
  predicate Clears(g: Server, s: SessionId, a: Action, user: string) {
    && s in g.sessions && g.sessions[s].phase.Ended? && g.sessions[s].user == Some(user)
    && a.Logout? && a.applied
  }

  lemma FlagAfter(g: Server, data: GameData, s: SessionId, a: Action, user: string)
    requires user in g.flags
    ensures var h := Do(g, data, s, a);
      user in h.flags
      && h.flags[user] == if Raises(g, s, a, user) then true else if Clears(g, s, a, user) then false else g.flags[user]
  {
    if LoginStep(a) {
      FlagAfterLoginStep(g, data, s, a, user);
    } else {
      FlagAfterOtherStep(g, data, s, a, user);
    }
  }

  predicate LoginStep(a: Action) {
    a.SelectUser? || a.UpdateFlag? || a.FetchCharacter? || a.RegisterLogin? || a.RegisterCreated?
  }

  lemma FlagAfterLoginStep(g: Server, data: GameData, s: SessionId, a: Action, user: string)
    requires LoginStep(a) && user in g.flags
    ensures var h := Do(g, data, s, a);
      user in h.flags && h.flags[user] == (Raises(g, s, a, user) || g.flags[user]) && !Clears(g, s, a, user)
  {
  }

  lemma FlagAfterOtherStep(g: Server, data: GameData, s: SessionId, a: Action, user: string)
    requires !LoginStep(a) && user in g.flags
    ensures var h := Do(g, data, s, a);
      user in h.flags && h.flags[user] == (g.flags[user] && !Clears(g, s, a, user)) && !Raises(g, s, a, user)
  {
  }

  ghost predicate RaisedAt(g: Server, data: GameData, steps: seq<(SessionId, Action)>, k: nat, user: string)
    requires k < |steps|
  {
    Raises(Reach(g, data, steps[..k]), steps[k].0, steps[k].1, user)
  }

  ghost predicate ClearedAt(g: Server, data: GameData, steps: seq<(SessionId, Action)>, k: nat, user: string)
    requires k < |steps|
  {
    Clears(Reach(g, data, steps[..k]), steps[k].0, steps[k].1, user)
  }

  ghost predicate NotClearedFrom(g: Server, data: GameData, steps: seq<(SessionId, Action)>, from: nat, user: string) {
    forall k :: from <= k < |steps| ==> !ClearedAt(g, data, steps, k, user)
  }

  /** An update has been applied since the last applied logout, counting the flag as it was to begin with. */
  ghost predicate Raised(g: Server, data: GameData, steps: seq<(SessionId, Action)>, user: string) {
    || (user in g.flags && g.flags[user] && NotClearedFrom(g, data, steps, 0, user))
    || (exists k :: 0 <= k < |steps| && RaisedAt(g, data, steps, k, user)
                    && NotClearedFrom(g, data, steps, k + 1, user))
  }

  lemma PrefixAgrees(g: Server, data: GameData, steps: seq<(SessionId, Action)>, n: nat, k: nat, user: string)
    requires k < n <= |steps|
    ensures RaisedAt(g, data, steps[..n], k, user) == RaisedAt(g, data, steps, k, user)
    ensures ClearedAt(g, data, steps[..n], k, user) == ClearedAt(g, data, steps, k, user)
  {
    assert steps[..n][..k] == steps[..k];
  }

  lemma NotClearedByLast(g: Server, data: GameData, steps: seq<(SessionId, Action)>, from: nat, user: string)
    requires steps != [] && from < |steps|
    ensures NotClearedFrom(g, data, steps, from, user)
            <==> NotClearedFrom(g, data, steps[..|steps| - 1], from, user)
                 && !ClearedAt(g, data, steps, |steps| - 1, user)
  {
    var n := |steps| - 1;
    forall k: nat | k < n
      ensures ClearedAt(g, data, steps[..n], k, user) == ClearedAt(g, data, steps, k, user)
    {
      PrefixAgrees(g, data, steps, n, k, user);
    }
  }

  lemma RaisedAfterLast(g: Server, data: GameData, steps: seq<(SessionId, Action)>, user: string)
    requires steps != []
    ensures var n := |steps| - 1;
      Raised(g, data, steps, user)
      <==> RaisedAt(g, data, steps, n, user)
           || (Raised(g, data, steps[..n], user) && !ClearedAt(g, data, steps, n, user))
  {
    var n := |steps| - 1;
    NotClearedByLast(g, data, steps, 0, user);
    forall k: nat | k < n
      ensures RaisedAt(g, data, steps[..n], k, user) == RaisedAt(g, data, steps, k, user)
      ensures NotClearedFrom(g, data, steps, k + 1, user)
              <==> NotClearedFrom(g, data, steps[..n], k + 1, user) && !ClearedAt(g, data, steps, n, user)
    {
      PrefixAgrees(g, data, steps, n, k, user);
      NotClearedByLast(g, data, steps, k + 1, user);
    }
    assert NotClearedFrom(g, data, steps, n + 1, user);
  }

  /** Over every interleaving the flag is set if and only if an update was applied since the last applied logout. */
  lemma {:induction false} FlagIsLastWrite(g: Server, data: GameData, steps: seq<(SessionId, Action)>, user: string)
    requires user in g.flags
    ensures var h := Reach(g, data, steps); user in h.flags && (h.flags[user] <==> Raised(g, data, steps, user))
    decreases |steps|
  {
    if steps != [] {
      var n := |steps| - 1;
      FlagIsLastWrite(g, data, steps[..n], user);
      RaisedAfterLast(g, data, steps, user);
      FlagAfter(Reach(g, data, steps[..n]), data, steps[n].0, steps[n].1, user);
    }
  }

  // ---------- Who is past the check ----------

  /** The session has passed the login check for the user and has not ended. */
  predicate PastCheck(g: Server, s: SessionId, user: string) {
    && s in g.sessions
    && var x := g.sessions[s];
       x.phase == Selected(user)
       || (x.user == Some(user) && !x.phase.Ended? && !(x.phase.Idle? && x.state.PreLogin?))
  }

  /** The session may send a login request. */
  predicate BeforeLogin(g: Server, s: SessionId) {
    s in g.sessions && g.sessions[s].phase.Idle? && g.sessions[s].state.PreLogin?
  }

  // Users are registered beforehand: no step adds a flag.

  ghost predicate UserKnown(x: Session, users: set<string>) {
    && (x.user.Some? ==> x.user.value in users)
    && (x.phase.Selected? ==> x.phase.user in users)
  }

  ghost predicate UsersKnown(g: Server, users: set<string>) {
    g.flags.Keys == users && forall s :: s in g.sessions ==> UserKnown(g.sessions[s], users)
  }

  lemma OnlyFlagSteps(g: Server, data: GameData, s: SessionId, a: Action)
    requires !a.UpdateFlag? && !a.Logout?
    ensures Do(g, data, s, a).flags == g.flags
  {
  }

  lemma FlagStepKeys(g: Server, data: GameData, s: SessionId, a: Action)
    requires a.UpdateFlag? || a.Logout?
    requires s in g.sessions ==> UserKnown(g.sessions[s], g.flags.Keys)
    ensures Do(g, data, s, a).flags.Keys == g.flags.Keys
  {
  }

  lemma StepKnowsOwn(g: Server, data: GameData, s: SessionId, a: Action, users: set<string>)
    requires UsersKnown(g, users) && s in Do(g, data, s, a).sessions
    ensures UserKnown(Do(g, data, s, a).sessions[s], users)
  {
    if AtStore(a) {
      StoreStepBrings(g, data, s, a);
    } else {
      OtherStepIsNoNews(g, data, s, a);
    }
  }

  lemma StepKnowsUsers(g: Server, data: GameData, s: SessionId, a: Action, users: set<string>)
    requires UsersKnown(g, users)
    ensures UsersKnown(Do(g, data, s, a), users)
  {
    if a.UpdateFlag? || a.Logout? {
      FlagStepKeys(g, data, s, a);
    } else {
      OnlyFlagSteps(g, data, s, a);
    }
    forall t | t in Do(g, data, s, a).sessions
      ensures UserKnown(Do(g, data, s, a).sessions[t], users)
    {
      if t == s {
        StepKnowsOwn(g, data, s, a, users);
      } else {
        StepTouchesOwn(g, data, s, a, t);
      }
    }
  }

  lemma {:induction false} ReachKnowsUsers(g: Server, data: GameData, steps: seq<(SessionId, Action)>)
    requires Initial(g)
    ensures UsersKnown(Reach(g, data, steps), g.flags.Keys)
    decreases |steps|
  {
    if steps != [] {
      var n := |steps| - 1;
      ReachKnowsUsers(g, data, steps[..n]);
      StepKnowsUsers(Reach(g, data, steps[..n]), data, steps[n].0, steps[n].1, g.flags.Keys);
    }
  }

  /** In every reachable state, a login gets past the check if and only if the password matches, the store answers, the
      user exists, and no update of its flag has been applied since the last applied logout. Otherwise it leaves no
      trace. Whoever else is past the check does not matter, and stays there. */
  lemma LoginPassesExactly(g: Server, data: GameData, steps: seq<(SessionId, Action)>, s: SessionId, t: SessionId,
                           user: string, passwordOk: bool, fails: bool)
    requires Initial(g) && BeforeLogin(Reach(g, data, steps), s)
    ensures var h := Reach(g, data, steps);
      var after := Do(h, data, s, SelectUser(user, passwordOk, fails));
      && (PastCheck(after, s, user)
          <==> passwordOk && !fails && user in g.flags && !Raised(g, data, steps, user))
      && (!PastCheck(after, s, user) ==> after == h)
      && (PastCheck(h, t, user) ==> PastCheck(after, t, user))
  {
    ReachKnowsUsers(g, data, steps);
    if user in g.flags {
      FlagIsLastWrite(g, data, steps, user);
    }
  }

  /** `t` has seen its own update of the user's flag succeed. */
  lemma {:induction false} UserHasRaised(g: Server, data: GameData, steps: seq<(SessionId, Action)>,
                                         t: SessionId, user: string) returns (k: nat)
    requires Initial(g) && t in Reach(g, data, steps).sessions
    requires Reach(g, data, steps).sessions[t].user == Some(user)
    ensures k < |steps| && RaisedAt(g, data, steps, k, user)
    decreases |steps|
  {
    var n := |steps| - 1;
    var before := Reach(g, data, steps[..n]);
    if t in before.sessions && before.sessions[t].user == Some(user) {
      k := UserHasRaised(g, data, steps[..n], t, user);
      PrefixAgrees(g, data, steps, n, k, user);
    } else {
      UserComesFromUpdate(before, data, steps[n].0, steps[n].1, t, user);
      k := n;
    }
  }

  lemma UserComesFromUpdate(g: Server, data: GameData, s: SessionId, a: Action, t: SessionId, user: string)
    requires t in g.sessions ==> g.sessions[t].user != Some(user)
    requires t in Do(g, data, s, a).sessions && Do(g, data, s, a).sessions[t].user == Some(user)
    ensures Raises(g, s, a, user)
  {
    if t != s {
      StepTouchesOwn(g, data, s, a, t);
    } else if AtStore(a) {
      StoreStepBrings(g, data, s, a);
    } else {
      OtherStepIsNoNews(g, data, s, a);
    }
  }

  lemma {:induction false} EndedForGood(g: Server, data: GameData, steps: seq<(SessionId, Action)>, k: nat,
                                        t: SessionId)
    requires k <= |steps|
    requires t in Reach(g, data, steps[..k]).sessions && Reach(g, data, steps[..k]).sessions[t].phase.Ended?
    ensures t in Reach(g, data, steps).sessions && Reach(g, data, steps).sessions[t].phase.Ended?
    decreases |steps|
  {
    if k < |steps| {
      var n := |steps| - 1;
      assert steps[..n][..k] == steps[..k];
      EndedForGood(g, data, steps[..n], k, t);
      StaysEnded(Reach(g, data, steps[..n]), data, steps[n].0, steps[n].1, t);
    } else {
      assert steps[..k] == steps;
    }
  }

  lemma StaysEnded(g: Server, data: GameData, s: SessionId, a: Action, t: SessionId)
    requires t in g.sessions && g.sessions[t].phase.Ended?
    ensures t in Do(g, data, s, a).sessions && Do(g, data, s, a).sessions[t].phase.Ended?
  {
    if LoginStep(a) {
      LoginStepStaysEnded(g, data, s, a, t);
    } else {
      OtherStepStaysEnded(g, data, s, a, t);
    }
  }

  lemma LoginStepStaysEnded(g: Server, data: GameData, s: SessionId, a: Action, t: SessionId)
    requires LoginStep(a) && t in g.sessions && g.sessions[t].phase.Ended?
    ensures t in Do(g, data, s, a).sessions && Do(g, data, s, a).sessions[t].phase.Ended?
  {
  }

  lemma OtherStepStaysEnded(g: Server, data: GameData, s: SessionId, a: Action, t: SessionId)
    requires !LoginStep(a) && t in g.sessions && g.sessions[t].phase.Ended?
    ensures t in Do(g, data, s, a).sessions && Do(g, data, s, a).sessions[t].phase.Ended?
  {
  }

  /** There are two ways past a session that is past the check: while it is between its two statements, or after
      some other session of the user has logged out. */
  lemma PassedBecause(g: Server, data: GameData, steps: seq<(SessionId, Action)>, t: SessionId, user: string)
    requires Initial(g) && user in g.flags
    requires PastCheck(Reach(g, data, steps), t, user) && !Raised(g, data, steps, user)
    ensures Reach(g, data, steps).sessions[t].phase == Selected(user)
            || exists k :: 0 <= k < |steps| && ClearedAt(g, data, steps, k, user) && steps[k].0 != t
  {
    if Reach(g, data, steps).sessions[t].phase != Selected(user) {
      var k := UserHasRaised(g, data, steps, t, user);
      assert !NotClearedFrom(g, data, steps, k + 1, user);
      var j :| k + 1 <= j < |steps| && ClearedAt(g, data, steps, j, user);
      if steps[j].0 == t {
        EndedForGood(g, data, steps, j, t);
      }
    }
  }

  // ---------- Both ways happen ----------

  function Race(user: string): seq<(SessionId, Action)> { Login(1, user) + Login(2, user) }

  lemma RaceEnds(g: Server, data: GameData, user: string)
    requires Initial(g) && user in g.flags && !g.flags[user]
    ensures var x := NEW_SESSION.(phase := Selected(user));
      Reach(g, data, Race(user)) == g.(live := g.live + {1} + {2}, sessions := map[1 := x, 2 := x])
  {
    var x := NEW_SESSION.(phase := Selected(user));
    LoginEnds(g, data, 1, user);
    LoginEnds(Reach(g, data, Login(1, user)), data, 2, user);
    ReachMore(g, data, Login(1, user), Login(2, user));
    BothRewritten(g.sessions, x, x);
  }

  /** The race: both of two sessions pass the check before either sets the flag. */
  lemma FlagDoesNotExclude(g: Server, data: GameData, user: string)
    requires Initial(g) && user in g.flags && !g.flags[user]
    ensures PastCheck(Reach(g, data, Race(user)), 1, user) && PastCheck(Reach(g, data, Race(user)), 2, user)
  {
    RaceEnds(g, data, user);
  }

  // After a race the registry refuses one of the two; when that one ends, it clears the flag under the other.

  lemma BothFetch(g: Server, data: GameData, user: string)
    requires var x := NEW_SESSION.(phase := Selected(user)); g.sessions == map[1 := x, 2 := x]
    ensures var x := NEW_SESSION.(phase := Fetched(Stored(g, user)), user := Some(user));
      Reach(g, data, Fetch(1) + Fetch(2)) == g.(flags := g.flags[user := true], sessions := map[1 := x, 2 := x])
  {
    var x := NEW_SESSION.(phase := Fetched(Stored(g, user)), user := Some(user));
    FetchEnds(g, data, 1, user);
    FetchEnds(Reach(g, data, Fetch(1)), data, 2, user);
    ReachMore(g, data, Fetch(1), Fetch(2));
    BothRewritten(g.sessions, x, x);
    Rewritten(g.flags, user, true, true);
  }

  function Winner(user: string, me: Player): Session {
    Session(ReadingMagics, InGame, Some(user), Some(me), Book([], []), false)
  }

  function Loser(user: string): Session { Session(Idle, CreateChar, Some(user), None, Book([], []), false) }

  lemma OneIsRefused(g: Server, data: GameData, user: string, me: Player)
    requires var x := NEW_SESSION.(phase := Fetched(Some(me)), user := Some(user)); g.sessions == map[1 := x, 2 := x]
    requires g.registry == map[] && 1 in g.live
    ensures Reach(g, data, [(1, RegisterLogin), (2, RegisterLogin)])
            == g.(registry := map[me.name := 1], sessions := map[1 := Winner(user, me), 2 := Loser(user)])
  {
    TwoSteps(g, data, (1, RegisterLogin), (2, RegisterLogin));
    assert g.registry[me.name := 1] == map[me.name := 1];
    BothRewritten(g.sessions, Winner(user, me), Loser(user));
  }

  lemma LoserLogsOut(g: Server, data: GameData, user: string)
    requires 2 in g.sessions && g.sessions[2] == Loser(user)
    ensures Reach(g, data, [(2, EndSession), (2, Logout(true))])
            == g.(flags := g.flags[user := false], sessions := g.sessions[2 := Loser(user).(phase := Ended)])
  {
    TwoSteps(g, data, (2, EndSession), (2, Logout(true)));
  }

  function Refusal(): seq<(SessionId, Action)> { Fetch(1) + Fetch(2) + [(1, RegisterLogin), (2, RegisterLogin)] }

  lemma RefusalEnds(g: Server, data: GameData, user: string)
    requires Initial(g) && user in g.flags && !g.flags[user] && user in g.characters
    ensures var h := Reach(g, data, Race(user) + Refusal());
      && user in h.flags
      && h.sessions == map[1 := Winner(user, g.characters[user]), 2 := Loser(user)]
  {
    RaceEnds(g, data, user);
    var raced := Reach(g, data, Race(user));
    ReachMore(g, data, Race(user), Refusal());
    BothFetch(raced, data, user);
    ReachMore(raced, data, Fetch(1) + Fetch(2), [(1, RegisterLogin), (2, RegisterLogin)]);
    OneIsRefused(Reach(raced, data, Fetch(1) + Fetch(2)), data, user, g.characters[user]);
  }

  function Return(user: string): seq<(SessionId, Action)> { [(2, EndSession), (2, Logout(true))] + Login(3, user) }

  lemma ReturnEnds(g: Server, data: GameData, user: string)
    requires 2 in g.sessions && 3 !in g.sessions && g.sessions[2] == Loser(user)
    ensures Reach(g, data, Return(user)).sessions
            == g.sessions[2 := Loser(user).(phase := Ended)][3 := NEW_SESSION.(phase := Selected(user))]
  {
    var first := [(2, EndSession), (2, Logout(true))];
    LoserLogsOut(g, data, user);
    LoginEnds(Reach(g, data, first), data, 3, user);
    ReachMore(g, data, first, Login(3, user));
  }

  /** No race at the third login: the winner of the first is in game, the loser has logged out, and the flag is clear
      for anyone. */
  lemma RefusedSessionClearsFlag(g: Server, data: GameData, user: string)
    requires Initial(g) && user in g.flags && !g.flags[user] && user in g.characters
    ensures var h := Reach(g, data, Race(user) + Refusal() + Return(user));
      && PastCheck(h, 3, user)
      && 1 in h.sessions && h.sessions[1].user == Some(user) && h.sessions[1].state.InGame?
      && h.sessions[1].Name() == Some(g.characters[user].name)
  {
    RefusalEnds(g, data, user);
    ReturnEnds(Reach(g, data, Race(user) + Refusal()), data, user);
    ReachMore(g, data, Race(user) + Refusal(), Return(user));
  }
}
