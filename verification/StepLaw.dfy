/** What a step of the protocol may do: when it is enabled, what a failure leaves, whom it touches, and what it takes to
    get from a connection into the game and to carry out a command. */
module StepLaw {
  import opened Structs
  import opened SpellBook
  import opened Commands
  import opened SessionRegistry
  import opened Protocol
  import opened Scenes

  // ---------- When a step is enabled ----------

  /** Where a session must stand for a step: a request is served between requests and in the state that its
      validation asks for, and whatever follows a suspension only after it. */
  predicate Enabled(x: Session, a: Action) {
    match a
    case SelectUser(_, _, _) => x.phase.Idle? && x.state.PreLogin?
    case UpdateFlag(_, _) => x.phase.Selected?
    case FetchCharacter(_) => x.phase.Flagged?
    case RegisterLogin => x.phase.Fetched?
    case InsertCharacter(_, _, _) => x.phase.Idle? && x.state.CreateChar?
    case RegisterCreated => x.phase.Inserted?
    case ReadMagics(_) => x.phase.ReadingMagics?
    case ReadEquipped(_) => x.phase.ReadingEquipped?
    case Serve(_, _) => x.phase.Idle? && x.state.InGame?
    case Resume => x.phase.Committed?
    case EndSession => x.phase.Idle?
    case Logout(_) => x.phase.Ended?
    case Destroy => x.phase.Ended?
    case _ => true
  }

  /** The steps by which a session logs in, and those by which it takes a character. */
  predicate AtDoor(a: Action) { a.SelectUser? || a.UpdateFlag? || a.FetchCharacter? }

  predicate Takes(a: Action) { a.RegisterLogin? || a.InsertCharacter? || a.RegisterCreated? }

  predicate AtStore(a: Action) { AtDoor(a) || Takes(a) }

  lemma DisabledLoginStep(g: Server, data: GameData, s: SessionId, a: Action)
    requires AtStore(a) && (s !in g.sessions || !Enabled(g.sessions[s], a))
    ensures Do(g, data, s, a) == g
  {
  }

  lemma DisabledOtherStep(g: Server, data: GameData, s: SessionId, a: Action)
    requires !AtStore(a) && !a.Connect? && !a.Cleanup? && (s !in g.sessions || !Enabled(g.sessions[s], a))
    ensures Do(g, data, s, a) == g
  {
  }

  /** A step of a session that does not stand there changes nothing. */
  lemma DisabledStep(g: Server, data: GameData, s: SessionId, a: Action)
    requires !a.Connect? && !a.Cleanup? && (s !in g.sessions || !Enabled(g.sessions[s], a))
    ensures Do(g, data, s, a) == g
  {
    if AtStore(a) {
      DisabledLoginStep(g, data, s, a);
    } else {
      DisabledOtherStep(g, data, s, a);
    }
  }

  // ---------- Whom it touches ----------

  lemma LoginStepTouchesOwn(g: Server, data: GameData, s: SessionId, a: Action, t: SessionId)
    requires AtStore(a) && s != t
    ensures t in Do(g, data, s, a).sessions <==> t in g.sessions
    ensures t in g.sessions ==> Do(g, data, s, a).sessions[t] == g.sessions[t]
  {
  }

  lemma OtherStepTouchesOwn(g: Server, data: GameData, s: SessionId, a: Action, t: SessionId)
    requires !AtStore(a) && s != t
    ensures t in Do(g, data, s, a).sessions <==> t in g.sessions
    ensures t in g.sessions ==> Do(g, data, s, a).sessions[t] == g.sessions[t]
  {
  }

  /** A step changes no session but its own. */
  lemma StepTouchesOwn(g: Server, data: GameData, s: SessionId, a: Action, t: SessionId)
    requires s != t
    ensures t in Do(g, data, s, a).sessions <==> t in g.sessions
    ensures t in g.sessions ==> Do(g, data, s, a).sessions[t] == g.sessions[t]
  {
    if AtStore(a) {
      LoginStepTouchesOwn(g, data, s, a, t);
    } else {
      OtherStepTouchesOwn(g, data, s, a, t);
    }
  }

  /** A session is live from its connection until it is destroyed, which only an ended one is. */
  lemma LiveExactly(g: Server, data: GameData, s: SessionId, a: Action, t: SessionId)
    ensures t in Do(g, data, s, a).live
            <==> (t in g.live && !(a.Destroy? && t == s && s in g.sessions && g.sessions[s].phase.Ended?))
                 || (a.Connect? && t == s && s !in g.sessions)
  {
  }

  /** The cleanup erases the entries of destroyed sessions, whoever they are of, and nothing else. */
  lemma CleanupExactly(g: Server, data: GameData, s: SessionId)
    ensures var h := Do(g, data, s, Cleanup);
      && h == g.(registry := h.registry)
      && (forall name :: name in h.registry <==> name in g.registry && g.registry[name] in g.live)
      && (forall name :: name in h.registry ==> h.registry[name] == g.registry[name])
  {
  }

  // ---------- What a step brings ----------

  /** A session keeps its user and player, and stands in no phase of login or creation that it did not stand in. */
  ghost predicate NoNews(x: Session, y: Session) {
    && y.user == x.user && y.player == x.player
    && (y.phase == x.phase || !(y.phase.Selected? || y.phase.Fetched? || y.phase.Inserted?))
  }

  lemma OtherStepIsNoNews(g: Server, data: GameData, s: SessionId, a: Action)
    requires !AtStore(a) && s in Do(g, data, s, a).sessions
    ensures NoNews(if s in g.sessions then g.sessions[s] else NEW_SESSION, Do(g, data, s, a).sessions[s])
  {
  }

  /** What a step that touches the store or the registry has to have been, for what it brings. */
  ghost predicate Brings(g: Server, s: SessionId, a: Action, y: Session) {
    && s in g.sessions
    && var x := g.sessions[s];
       && (y.phase.Selected? && y.phase != x.phase ==>
             a == SelectUser(y.phase.user, true, false) && y.phase.user in g.flags && !g.flags[y.phase.user])
       && (y.user != x.user ==>
             x.phase.Selected? && y.user == Some(x.phase.user) && a.UpdateFlag? && !a.fails)
       && (y.phase.Fetched? && y.phase != x.phase && y.phase.character.Some? ==>
             a == FetchCharacter(false) && x.user.Some? && x.user.value in g.characters
             && g.characters[x.user.value] == y.phase.character.value)
       && (y.phase.Inserted? && y.phase != x.phase ==>
             a.InsertCharacter? && !a.fails && a.player == y.phase.created && x.user.Some?
             && x.user.value !in g.characters)
       && (y.player != x.player ==>
             && y.player.Some?
             && ((x.phase == Fetched(y.player) && a.RegisterLogin?)
                 || (x.phase == Inserted(y.player.value) && a.RegisterCreated?))
             && !(y.player.value.name in g.registry && g.registry[y.player.value.name] in g.live))
  }

  lemma DoorStepBrings(g: Server, data: GameData, s: SessionId, a: Action)
    requires AtDoor(a) && s in g.sessions
    ensures s in Do(g, data, s, a).sessions && Brings(g, s, a, Do(g, data, s, a).sessions[s])
  {
  }

  lemma InsertBrings(g: Server, data: GameData, s: SessionId, a: Action)
    requires a.InsertCharacter? && s in g.sessions
    ensures s in Do(g, data, s, a).sessions && Brings(g, s, a, Do(g, data, s, a).sessions[s])
  {
  }

  lemma RegisterLoginBrings(g: Server, data: GameData, s: SessionId)
    requires s in g.sessions
    ensures var h := Do(g, data, s, RegisterLogin);
      s in h.sessions && Brings(g, s, RegisterLogin, h.sessions[s])
  {
  }

  lemma RegisterCreatedBrings(g: Server, data: GameData, s: SessionId)
    requires s in g.sessions
    ensures var h := Do(g, data, s, RegisterCreated);
      s in h.sessions && Brings(g, s, RegisterCreated, h.sessions[s])
  {
  }

  lemma NoNewSession(g: Server, data: GameData, s: SessionId, a: Action)
    requires !a.Connect?
    ensures s in Do(g, data, s, a).sessions ==> s in g.sessions
  {
  }

  /** What a session has of its login and its character after such a step. */
  lemma StoreStepBrings(g: Server, data: GameData, s: SessionId, a: Action)
    requires AtStore(a)
    ensures s in Do(g, data, s, a).sessions ==> Brings(g, s, a, Do(g, data, s, a).sessions[s])
  {
    NoNewSession(g, data, s, a);
    if s in g.sessions {
      if AtDoor(a) {
        DoorStepBrings(g, data, s, a);
      } else if a.InsertCharacter? {
        InsertBrings(g, data, s, a);
      } else if a.RegisterLogin? {
        RegisterLoginBrings(g, data, s);
      } else {
        RegisterCreatedBrings(g, data, s);
      }
    }
  }

  // ---------- What a failure leaves ----------

  /** A login whose password does not match or whose store fails at the first statement leaves no trace. */
  lemma FailedSelect(g: Server, data: GameData, s: SessionId, user: string, passwordOk: bool, fails: bool)
    requires !passwordOk || fails || user !in g.flags || g.flags[user]
    ensures Do(g, data, s, SelectUser(user, passwordOk, fails)) == g
  {
  }

  /** One that fails at the second leaves the session where it was before, though the flag may be set. */
  lemma FailedUpdate(g: Server, data: GameData, s: SessionId, applied: bool)
    requires s in g.sessions && g.sessions[s].phase.Selected?
    ensures var x := g.sessions[s];
      Do(g, data, s, UpdateFlag(true, applied))
      == g.(flags := if applied then g.flags[x.phase.user := true] else g.flags,
            sessions := g.sessions[s := x.(phase := Idle)])
  {
  }

  /** A character that cannot be read is taken for none, and its user is asked for a new one. */
  lemma FailedFetch(g: Server, data: GameData, s: SessionId)
    requires s in g.sessions && g.sessions[s].phase.Flagged? && g.sessions[s].user.Some?
    ensures Reach(g, data, [(s, FetchCharacter(true)), (s, RegisterLogin)])
            == g.(sessions := g.sessions[s := g.sessions[s].(phase := Idle, state := CreateChar)])
  {
    var x := g.sessions[s];
    TwoSteps(g, data, (s, FetchCharacter(true)), (s, RegisterLogin));
    Rewritten(g.sessions, s, x.(phase := Fetched(None)), x.(phase := Idle, state := CreateChar));
  }

  /** A failed insert leaves the session asking, though the row may be there; a user that has a row gets no other. */
  lemma FailedInsert(g: Server, data: GameData, s: SessionId, player: Player, fails: bool, applied: bool)
    requires s in g.sessions && g.sessions[s].phase.Idle? && g.sessions[s].state.CreateChar? && g.sessions[s].user.Some?
    requires fails || g.sessions[s].user.value in g.characters
    ensures var user := g.sessions[s].user.value;
      Do(g, data, s, InsertCharacter(player, fails, applied))
      == if user !in g.characters && applied then g.(characters := g.characters[user := player]) else g
  {
  }

  /** Rows that cannot be read are taken for empty: all of them, or the equipped ids. The session is in game all the
      same. */
  lemma FailedReads(g: Server, data: GameData, s: SessionId)
    requires s in g.sessions && g.sessions[s].player.Some?
    ensures var x := g.sessions[s];
      && (x.phase.ReadingMagics? ==>
            Do(g, data, s, ReadMagics(None))
            == g.(sessions := g.sessions[s := x.(phase := Idle, book := Book([], []), loaded := false)]))
      && (x.phase.ReadingEquipped? ==>
            Do(g, data, s, ReadEquipped(true))
            == g.(sessions := g.sessions[s := x.(phase := Idle, book := Book(x.phase.magics, []), loaded := false)]))
  {
  }

  /** A logout that is not applied does nothing, and neither does a command that the store fails, once its handler has
      resumed. */
  lemma FailedLogout(g: Server, data: GameData, s: SessionId)
    ensures Do(g, data, s, Logout(false)) == g
  {
  }

  lemma FailedServe(g: Server, data: GameData, s: SessionId, cmd: Command)
    requires s in g.sessions && g.sessions[s].phase.Idle? && g.sessions[s].state.InGame? && g.sessions[s].player.Some?
    requires Accepted(data, g.sessions[s].book, cmd)
    ensures var h := Reach(g, data, [(s, Serve(cmd, true)), (s, Resume)]);
      && h.sessions == g.sessions && forall name :: h.RowsOf(name) == g.RowsOf(name)
  {
    CommandTakesEffect(g, data, s, cmd, true);
    assert g.sessions[s := g.sessions[s].(book := g.sessions[s].book)] == g.sessions;
  }

  // ---------- What success leads to ----------

  function Entry(s: SessionId, order: seq<Magic>): seq<(SessionId, Action)> {
    [(s, RegisterLogin), (s, ReadMagics(Some(order)))]
  }

  lemma EntryEnds(g: Server, data: GameData, s: SessionId, user: string, me: Player, order: seq<Magic>)
    requires s in g.sessions && g.sessions[s] == NEW_SESSION.(phase := Fetched(Some(me)), user := Some(user))
    requires !(me.name in g.registry && g.registry[me.name] in g.live) && RowOrder(order, g.RowsOf(me.name))
    ensures Reach(g, data, Entry(s, order))
            == g.(registry := g.registry[me.name := s],
                  sessions := g.sessions[s := Session(ReadingEquipped(order), InGame, Some(user), Some(me),
                                                      Book([], []), false)])
  {
    var entered := Session(ReadingMagics, InGame, Some(user), Some(me), Book([], []), false);
    TwoSteps(g, data, (s, RegisterLogin), (s, ReadMagics(Some(order))));
    Rewritten(g.sessions, s, entered, entered.(phase := ReadingEquipped(order)));
  }

  /** A user with a character, whose flag is clear and whose name nobody in game has, gets in with the right password
      if nothing fails, and remembers its rows. */
  lemma CleanLogin(g: Server, data: GameData, s: SessionId, user: string, order: seq<Magic>)
    returns (steps: seq<(SessionId, Action)>)
    requires s !in g.sessions && user in g.flags && !g.flags[user] && user in g.characters
    requires var me := g.characters[user];
      !(me.name in g.registry && g.registry[me.name] in g.live + {s}) && RowOrder(order, g.RowsOf(me.name))
    ensures var h, me := Reach(g, data, steps), g.characters[user];
      && h.sessions == g.sessions[s := Session(Idle, InGame, Some(user), Some(me),
                                               Book(order, StoredIds(g.RowsOf(me.name))), true)]
      && h.registry == g.registry[me.name := s] && h.flags == g.flags[user := true]
      && h.rows == g.rows && h.characters == g.characters
  {
    var me := g.characters[user];
    var selected := NEW_SESSION.(phase := Selected(user));
    var fetched := NEW_SESSION.(phase := Fetched(Some(me)), user := Some(user));
    steps := Login(s, user) + Fetch(s);
    LoginEnds(g, data, s, user);
    FetchEnds(Reach(g, data, Login(s, user)), data, s, user);
    ReachMore(g, data, Login(s, user), Fetch(s));
    Rewritten(g.sessions, s, selected, fetched);
    ReadsAfterFetch(Reach(g, data, steps), data, s, user, me, order);
    ReachMore(g, data, steps, Entry(s, order) + [(s, ReadEquipped(false))]);
    var last := Session(Idle, InGame, Some(user), Some(me), Book(order, StoredIds(g.RowsOf(me.name))), true);
    Rewritten(g.sessions, s, fetched, last);
    steps := steps + (Entry(s, order) + [(s, ReadEquipped(false))]);
  }

  lemma ReadsAfterFetch(g: Server, data: GameData, s: SessionId, user: string, me: Player, order: seq<Magic>)
    requires s in g.sessions && g.sessions[s] == NEW_SESSION.(phase := Fetched(Some(me)), user := Some(user))
    requires !(me.name in g.registry && g.registry[me.name] in g.live) && RowOrder(order, g.RowsOf(me.name))
    ensures Reach(g, data, Entry(s, order) + [(s, ReadEquipped(false))])
            == g.(registry := g.registry[me.name := s],
                  sessions := g.sessions[s := Session(Idle, InGame, Some(user), Some(me),
                                                      Book(order, StoredIds(g.RowsOf(me.name))), true)])
  {
    var reading := Session(ReadingEquipped(order), InGame, Some(user), Some(me), Book([], []), false);
    var done := Session(Idle, InGame, Some(user), Some(me), Book(order, StoredIds(g.RowsOf(me.name))), true);
    EntryEnds(g, data, s, user, me, order);
    var steps := Entry(s, order) + [(s, ReadEquipped(false))];
    assert steps[..2] == Entry(s, order);
    assert Reach(g, data, steps) == Do(Reach(g, data, steps[..2]), data, s, ReadEquipped(false));
    Rewritten(g.sessions, s, reading, done);
  }

  /** An accepted command that is defined takes effect on the rows at once and on memory at the resumption, and on
      nothing else. */
  lemma CommandTakesEffect(g: Server, data: GameData, s: SessionId, cmd: Command, fails: bool)
    requires s in g.sessions && g.sessions[s].phase.Idle? && g.sessions[s].state.InGame? && g.sessions[s].player.Some?
    requires Accepted(data, g.sessions[s].book, cmd)
    requires ServerStep(data, g.sessions[s].book, g.RowsOf(g.sessions[s].player.value.name), cmd, fails).Some?
    ensures var x := g.sessions[s];
      var name := x.player.value.name;
      var next, h := ServerStep(data, x.book, g.RowsOf(name), cmd, fails).value,
                     Reach(g, data, [(s, Serve(cmd, fails)), (s, Resume)]);
      && h.sessions == g.sessions[s := x.(book := next.0)] && h.rows == g.rows[name := next.1]
      && h.registry == g.registry && h.flags == g.flags && h.characters == g.characters && h.live == g.live
  {
    var x := g.sessions[s];
    var next := ServerStep(data, x.book, g.RowsOf(x.player.value.name), cmd, fails).value;
    TwoSteps(g, data, (s, Serve(cmd, fails)), (s, Resume));
    Rewritten(g.sessions, s, x.(phase := Committed(next.0)), x.(book := next.0));
  }
}
