/** How a session came to where it is: nobody is in game without its own right password, a flag update that succeeded,
    and a character of its own, read or inserted, registered under its name. */
module LoginStory {
  import opened Structs
  import opened SpellBook
  import opened Commands
  import opened SessionRegistry
  import opened Protocol
  import opened StepLaw

  // ---------- The story of a session ----------

  // Each chapter is a step of the session's own after the one before it, in the state that the interleaving was in.

  ghost predicate HasSelected(g: Server, data: GameData, steps: seq<(SessionId, Action)>, s: SessionId, user: string) {
    exists k :: 0 <= k < |steps| && SelectedAt(g, data, steps, k, s, user)
  }

  ghost predicate SelectedAt(g: Server, data: GameData, steps: seq<(SessionId, Action)>, k: nat, s: SessionId,
                             user: string)
    requires k < |steps|
  {
    var h := Reach(g, data, steps[..k]);
    steps[k] == (s, SelectUser(user, true, false)) && user in h.flags && !h.flags[user]
  }

  ghost predicate HasUpdated(g: Server, data: GameData, steps: seq<(SessionId, Action)>, s: SessionId, user: string) {
    exists k :: 0 <= k < |steps| && UpdatedAt(g, data, steps, k, s, user)
  }

  ghost predicate UpdatedAt(g: Server, data: GameData, steps: seq<(SessionId, Action)>, k: nat, s: SessionId,
                            user: string)
    requires k < |steps|
  {
    steps[k].0 == s && steps[k].1.UpdateFlag? && !steps[k].1.fails && HasSelected(g, data, steps[..k], s, user)
  }

  ghost predicate HasFetched(g: Server, data: GameData, steps: seq<(SessionId, Action)>, s: SessionId, user: string,
                             me: Player)
  {
    exists k :: 0 <= k < |steps| && FetchedAt(g, data, steps, k, s, user, me)
  }

  ghost predicate FetchedAt(g: Server, data: GameData, steps: seq<(SessionId, Action)>, k: nat, s: SessionId,
                            user: string, me: Player)
    requires k < |steps|
  {
    var h := Reach(g, data, steps[..k]);
    && steps[k] == (s, FetchCharacter(false)) && user in h.characters && h.characters[user] == me
    && HasUpdated(g, data, steps[..k], s, user)
  }

  ghost predicate HasInserted(g: Server, data: GameData, steps: seq<(SessionId, Action)>, s: SessionId, user: string,
                              me: Player)
  {
    exists k :: 0 <= k < |steps| && InsertedAt(g, data, steps, k, s, user, me)
  }

  ghost predicate InsertedAt(g: Server, data: GameData, steps: seq<(SessionId, Action)>, k: nat, s: SessionId,
                             user: string, me: Player)
    requires k < |steps|
  {
    && steps[k].0 == s && steps[k].1.InsertCharacter? && !steps[k].1.fails && steps[k].1.player == me
    && user !in Reach(g, data, steps[..k]).characters
    && HasUpdated(g, data, steps[..k], s, user)
  }

  ghost predicate HasEntered(g: Server, data: GameData, steps: seq<(SessionId, Action)>, s: SessionId, user: string,
                             me: Player)
  {
    exists k :: 0 <= k < |steps| && EnteredAt(g, data, steps, k, s, user, me)
  }

  ghost predicate EnteredAt(g: Server, data: GameData, steps: seq<(SessionId, Action)>, k: nat, s: SessionId,
                            user: string, me: Player)
    requires k < |steps|
  {
    var h := Reach(g, data, steps[..k]);
    && !(me.name in h.registry && h.registry[me.name] in h.live)
    && ((steps[k] == (s, RegisterLogin) && HasFetched(g, data, steps[..k], s, user, me))
        || (steps[k] == (s, RegisterCreated) && HasInserted(g, data, steps[..k], s, user, me)))
  }

  /** What is told of a session where it stands. */
  ghost predicate Story(g: Server, data: GameData, steps: seq<(SessionId, Action)>, s: SessionId, x: Session) {
    && (x.phase.Selected? ==> HasSelected(g, data, steps, s, x.phase.user))
    && (x.user.Some? ==> HasUpdated(g, data, steps, s, x.user.value))
    && (x.phase.Fetched? && x.phase.character.Some? ==>
          x.user.Some? && HasFetched(g, data, steps, s, x.user.value, x.phase.character.value))
    && (x.phase.Inserted? ==> x.user.Some? && HasInserted(g, data, steps, s, x.user.value, x.phase.created))
    && (x.player.Some? ==> x.user.Some? && HasEntered(g, data, steps, s, x.user.value, x.player.value))
  }

  lemma ToldOn(g: Server, data: GameData, steps: seq<(SessionId, Action)>, s: SessionId, user: string, me: Player)
    requires steps != []
    ensures var before := steps[..|steps| - 1];
      && (HasSelected(g, data, before, s, user) ==> HasSelected(g, data, steps, s, user))
      && (HasUpdated(g, data, before, s, user) ==> HasUpdated(g, data, steps, s, user))
      && (HasFetched(g, data, before, s, user, me) ==> HasFetched(g, data, steps, s, user, me))
      && (HasInserted(g, data, before, s, user, me) ==> HasInserted(g, data, steps, s, user, me))
      && (HasEntered(g, data, before, s, user, me) ==> HasEntered(g, data, steps, s, user, me))
  {
    var n := |steps| - 1;
    forall k: nat | k < n
      ensures SelectedAt(g, data, steps[..n], k, s, user) == SelectedAt(g, data, steps, k, s, user)
      ensures UpdatedAt(g, data, steps[..n], k, s, user) == UpdatedAt(g, data, steps, k, s, user)
      ensures FetchedAt(g, data, steps[..n], k, s, user, me) == FetchedAt(g, data, steps, k, s, user, me)
      ensures InsertedAt(g, data, steps[..n], k, s, user, me) == InsertedAt(g, data, steps, k, s, user, me)
      ensures EnteredAt(g, data, steps[..n], k, s, user, me) == EnteredAt(g, data, steps, k, s, user, me)
    {
      assert steps[..n][..k] == steps[..k];
    }
  }

  lemma StoryGoesOn(g: Server, data: GameData, steps: seq<(SessionId, Action)>, s: SessionId, x: Session)
    requires steps != [] && Story(g, data, steps[..|steps| - 1], s, x)
    ensures Story(g, data, steps, s, x)
  {
    if x.phase.Selected? {
      ToldOn(g, data, steps, s, x.phase.user, Player("", 'm', Attributes(0, 0, 0, 0)));
    }
    if x.user.Some? {
      ToldOn(g, data, steps, s, x.user.value, Player("", 'm', Attributes(0, 0, 0, 0)));
    }
    if x.phase.Fetched? && x.phase.character.Some? {
      ToldOn(g, data, steps, s, x.user.value, x.phase.character.value);
    }
    if x.phase.Inserted? {
      ToldOn(g, data, steps, s, x.user.value, x.phase.created);
    }
    if x.player.Some? {
      ToldOn(g, data, steps, s, x.user.value, x.player.value);
    }
  }

  /** What the last step brings is a chapter after those told before. */
  lemma StoryAdvances(g: Server, data: GameData, steps: seq<(SessionId, Action)>, s: SessionId, y: Session)
    requires steps != [] && steps[|steps| - 1].0 == s
    requires var before := Reach(g, data, steps[..|steps| - 1]);
      && s in before.sessions && SessionOk(before.sessions[s], before.characters)
      && Story(g, data, steps[..|steps| - 1], s, before.sessions[s])
      && Brings(before, s, steps[|steps| - 1].1, y)
    ensures Story(g, data, steps, s, y)
  {
    var n := |steps| - 1;
    var x := Reach(g, data, steps[..n]).sessions[s];
    StoryGoesOn(g, data, steps, s, x);
    if y.phase.Selected? && y.phase != x.phase {
      assert SelectedAt(g, data, steps, n, s, y.phase.user);
    }
    if y.user != x.user {
      assert UpdatedAt(g, data, steps, n, s, y.user.value);
    }
    if y.phase.Fetched? && y.phase != x.phase && y.phase.character.Some? {
      assert FetchedAt(g, data, steps, n, s, x.user.value, y.phase.character.value);
    }
    if y.phase.Inserted? && y.phase != x.phase {
      assert InsertedAt(g, data, steps, n, s, x.user.value, y.phase.created);
    }
    if y.player != x.player {
      assert EnteredAt(g, data, steps, n, s, x.user.value, y.player.value);
    }
  }

  lemma {:induction false} EverySessionHasStory(g: Server, data: GameData, steps: seq<(SessionId, Action)>,
                                                s: SessionId)
    requires DataKeyed(data) && Initial(g) && s in Reach(g, data, steps).sessions
    ensures Story(g, data, steps, s, Reach(g, data, steps).sessions[s])
    decreases |steps|
  {
    var n := |steps| - 1;
    var before, t, a := Reach(g, data, steps[..n]), steps[n].0, steps[n].1;
    if s in before.sessions {
      EverySessionHasStory(g, data, steps[..n], s);
      EveryInterleaving(g, data, steps[..n]);
      StoryGoesOn(g, data, steps, s, before.sessions[s]);
    }
    if t != s {
      StepTouchesOwn(before, data, t, a, s);
    } else if !AtStore(a) {
      OtherStepIsNoNews(before, data, s, a);
    } else {
      StoreStepBrings(before, data, s, a);
      StoryAdvances(g, data, steps, s, Do(before, data, s, a).sessions[s]);
    }
  }

  /** Whoever is in game as a user's character, in any interleaving: its own session selected the user with the right
      password while the flag was clear, then updated the flag without an error, then read that character as the one
      stored for the user or inserted it where the user had none, and then registered its name while nobody live had
      it. */
  lemma NobodyEntersOtherwise(g: Server, data: GameData, steps: seq<(SessionId, Action)>, s: SessionId)
    requires DataKeyed(data) && Initial(g) && s in Reach(g, data, steps).sessions
    requires Reach(g, data, steps).sessions[s].player.Some?
    ensures var x := Reach(g, data, steps).sessions[s];
      x.user.Some? && HasEntered(g, data, steps, s, x.user.value, x.player.value)
  {
    EverySessionHasStory(g, data, steps, s);
  }

  /** And whoever has a user at all got it by the right password and an update that succeeded. */
  lemma NobodyHasUserOtherwise(g: Server, data: GameData, steps: seq<(SessionId, Action)>, s: SessionId)
    requires DataKeyed(data) && Initial(g) && s in Reach(g, data, steps).sessions
    requires Reach(g, data, steps).sessions[s].user.Some?
    ensures HasUpdated(g, data, steps, s, Reach(g, data, steps).sessions[s].user.value)
  {
    EverySessionHasStory(g, data, steps, s);
  }
}
