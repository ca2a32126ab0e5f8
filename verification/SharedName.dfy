/** The store keys characters by user alone, so nothing keeps two users from the same character name, and rows are
    keyed by name. */
module SharedName {
  import opened Structs
  import opened SpellBook
  import opened Commands
  import opened SessionRegistry
  import opened Protocol
  import opened Scenes

  ghost predicate NamesUnique(g: Server) {
    forall u, v :: u in g.characters && v in g.characters && g.characters[u].name == g.characters[v].name ==> u == v
  }

  /** The step inserts a character whose name another user's character has. */
  ghost predicate TakesName(g: Server, s: SessionId, a: Action) {
    && s in g.sessions && g.sessions[s].phase.Idle? && g.sessions[s].state.CreateChar?
    && g.sessions[s].user.Some? && g.sessions[s].user.value !in g.characters
    && a.InsertCharacter? && (!a.fails || a.applied)
    && exists u :: u in g.characters && g.characters[u].name == a.player.name
  }

  /** Names stay unique in every step but the insert of a name that is taken, which no step refuses. */
  lemma NamesStayUniqueExactly(g: Server, data: GameData, s: SessionId, a: Action)
    requires NamesUnique(g)
    ensures NamesUnique(Do(g, data, s, a)) <==> !TakesName(g, s, a)
  {
    if a.InsertCharacter? {
      InsertCreates(g, data, s, a);
      var h := Do(g, data, s, a);
      if h.characters != g.characters {
        var user := g.sessions[s].user.value;
        if u :| u in g.characters && g.characters[u].name == a.player.name {
          assert h.characters[u].name == h.characters[user].name && u != user;
        }
      }
    } else {
      OnlyInsertsCreate(g, data, s, a);
    }
  }

  lemma InsertCreates(g: Server, data: GameData, s: SessionId, a: Action)
    requires a.InsertCharacter?
    ensures var h := Do(g, data, s, a).characters;
      if && s in g.sessions && g.sessions[s].phase.Idle? && g.sessions[s].state.CreateChar?
         && g.sessions[s].user.Some? && g.sessions[s].user.value !in g.characters && (!a.fails || a.applied)
      then h == g.characters[g.sessions[s].user.value := a.player]
      else h == g.characters
  {
  }

  lemma OnlyInsertsCreate(g: Server, data: GameData, s: SessionId, a: Action)
    requires !a.InsertCharacter?
    ensures Do(g, data, s, a).characters == g.characters
  {
  }

  // ---------- A run in which it happens ----------

  /** A session that logs a user in and creates its character, up to the insert. */
  function Creation(s: SessionId, user: string, player: Player): seq<(SessionId, Action)> {
    Login(s, user) + Fetch(s) + [(s, RegisterLogin), (s, InsertCharacter(player, false, true))]
  }

  function Creator(user: string, player: Player): Session {
    Session(Inserted(player), CreateChar, Some(user), None, Book([], []), false)
  }

  lemma InsertsCharacter(g: Server, data: GameData, s: SessionId, user: string, player: Player)
    requires s in g.sessions && g.sessions[s] == NEW_SESSION.(phase := Fetched(None), user := Some(user))
    requires user !in g.characters
    ensures Reach(g, data, [(s, RegisterLogin), (s, InsertCharacter(player, false, true))])
            == g.(characters := g.characters[user := player],
                  sessions := g.sessions[s := Creator(user, player)])
  {
    var asked := NEW_SESSION.(phase := Idle, state := CreateChar, user := Some(user));
    var x := asked.(phase := Inserted(player));
    TwoSteps(g, data, (s, RegisterLogin), (s, InsertCharacter(player, false, true)));
    Rewritten(g.sessions, s, asked, x);
  }

  lemma CreationEnds(g: Server, data: GameData, s: SessionId, user: string, player: Player)
    requires s !in g.sessions && user in g.flags && !g.flags[user] && user !in g.characters
    ensures Reach(g, data, Creation(s, user, player))
            == g.(live := g.live + {s}, flags := g.flags[user := true],
                  characters := g.characters[user := player],
                  sessions := g.sessions[s := Creator(user, player)])
  {
    var selected := NEW_SESSION.(phase := Selected(user));
    var fetched := NEW_SESSION.(phase := Fetched(None), user := Some(user));
    LoginEnds(g, data, s, user);
    ReachMore(g, data, Login(s, user), Fetch(s));
    FetchEnds(Reach(g, data, Login(s, user)), data, s, user);
    ReachMore(g, data, Login(s, user) + Fetch(s), [(s, RegisterLogin), (s, InsertCharacter(player, false, true))]);
    InsertsCharacter(Reach(g, data, Login(s, user) + Fetch(s)), data, s, user, player);
    Rewritten(g.sessions, s, selected, fetched);
    Rewritten(g.sessions, s, fetched, Creator(user, player));
  }

  /** The creator enters, reads its rows, which are empty, learns a magic and leaves. */
  function Visit(id: int): seq<(SessionId, Action)> {
    [(1, RegisterCreated), (1, ReadMagics(Some([])))]
    + [(1, ReadEquipped(false)), (1, Serve(Learn(id), false))]
    + [(1, Resume), (1, EndSession)]
  }

  lemma Enters(g: Server, data: GameData, s: SessionId, user: string, player: Player, magics: seq<Magic>)
    requires s in g.sessions && g.sessions[s] == Creator(user, player) && player.name !in g.registry
    requires RowOrder(magics, g.RowsOf(player.name))
    ensures Reach(g, data, [(s, RegisterCreated), (s, ReadMagics(Some(magics)))])
            == g.(registry := g.registry[player.name := s],
                  sessions := g.sessions[s := Session(ReadingEquipped(magics), InGame, Some(user), Some(player),
                                                      Book([], []), false)])
  {
    var entered := Creator(user, player).(phase := ReadingMagics, state := InGame, player := Some(player));
    var x := entered.(phase := ReadingEquipped(magics));
    TwoSteps(g, data, (s, RegisterCreated), (s, ReadMagics(Some(magics))));
    Rewritten(g.sessions, s, entered, x);
  }

  lemma Learns(g: Server, data: GameData, user: string, player: Player, id: int)
    requires 1 in g.sessions
    requires g.sessions[1] == Session(ReadingEquipped([]), InGame, Some(user), Some(player), Book([], []), false)
    requires DataKeyed(data) && id in data && g.RowsOf(player.name) == Rows(map[], None)
    ensures var magic := AsLearnt(data[id]);
      Reach(g, data, [(1, ReadEquipped(false)), (1, Serve(Learn(id), false))])
      == g.(rows := g.rows[player.name := Rows(map[id := magic], None)],
            sessions := g.sessions[1 := Session(Committed(Book([magic], [])), InGame, Some(user), Some(player),
                                                Book([], []), true)])
  {
    var magic := AsLearnt(data[id]);
    var read := Session(Idle, InGame, Some(user), Some(player), Book([], []), true);
    var x := read.(phase := Committed(Book([magic], [])));
    TwoSteps(g, data, (1, ReadEquipped(false)), (1, Serve(Learn(id), false)));
    assert ValidLearn(data, read.book, id);
    assert Rows(map[], None).magics[id := magic] == map[id := magic];
    assert [] + [magic] == [magic];
    Rewritten(g.sessions, 1, read, x);
  }

  lemma Leaves(g: Server, data: GameData, player: Player)
    requires 1 in g.sessions && g.sessions[1].phase.Committed? && g.sessions[1].player == Some(player)
    ensures Reach(g, data, [(1, Resume), (1, EndSession)])
            == g.(registry := g.registry - {player.name},
                  sessions := g.sessions[1 := g.sessions[1].(phase := Ended, book := g.sessions[1].phase.next)])
  {
    TwoSteps(g, data, (1, Resume), (1, EndSession));
  }

  lemma EntersAndLearns(g: Server, data: GameData, user: string, player: Player, id: int)
    requires 1 in g.sessions && g.sessions[1] == Creator(user, player) && player.name !in g.registry
    requires DataKeyed(data) && id in data && g.RowsOf(player.name) == Rows(map[], None)
    ensures var h, magic := Reach(g, data, Visit(id)[..4]), AsLearnt(data[id]);
      && h.registry == g.registry[player.name := 1] && h.characters == g.characters
      && h.rows == g.rows[player.name := Rows(map[id := magic], None)]
      && h.sessions == g.sessions[1 := Session(Committed(Book([magic], [])), InGame, Some(user), Some(player),
                                               Book([], []), true)]
  {
    var enter := [(1, RegisterCreated), (1, ReadMagics(Some([])))];
    var learn := [(1, ReadEquipped(false)), (1, Serve(Learn(id), false))];
    Enters(g, data, 1, user, player, []);
    var g' := Reach(g, data, enter);
    assert g'.RowsOf(player.name) == g.RowsOf(player.name);
    ReachMore(g, data, enter, learn);
    assert Visit(id)[..4] == enter + learn;
    Learns(g', data, user, player, id);
  }

  lemma VisitEnds(g: Server, data: GameData, user: string, player: Player, id: int)
    requires 1 in g.sessions && g.sessions[1] == Creator(user, player) && player.name !in g.registry
    requires DataKeyed(data) && id in data && g.RowsOf(player.name) == Rows(map[], None)
    ensures var h := Reach(g, data, Visit(id));
      && h.RowsOf(player.name) == Rows(map[id := AsLearnt(data[id])], None)
      && h.registry == g.registry && h.characters == g.characters
      && forall s :: s in g.sessions && s != 1 ==> s in h.sessions && h.sessions[s] == g.sessions[s]
  {
    var leave := [(1, Resume), (1, EndSession)];
    var g' := Reach(g, data, Visit(id)[..4]);
    EntersAndLearns(g, data, user, player, id);
    Leaves(g', data, player);
    ReachMore(g, data, Visit(id)[..4], leave);
    assert Visit(id) == Visit(id)[..4] + leave;
    assert g.registry[player.name := 1] - {player.name} == g.registry;
  }

  function Sharing(u: string, v: string, player: Player, id: int, magic: Magic): seq<(SessionId, Action)> {
    Creation(1, u, player) + Creation(2, v, player) + Visit(id) + [(2, RegisterCreated), (2, ReadMagics(Some([magic])))]
  }

  /** Two users create characters of one name, the first learns a magic and leaves, and the second is in game with
      that magic read as its own. */
  lemma TwoUsersShareRows(g: Server, data: GameData, u: string, v: string, player: Player, id: int)
    requires Initial(g) && u != v && u in g.flags && v in g.flags && !g.flags[u] && !g.flags[v]
    requires u !in g.characters && v !in g.characters && player.name !in g.rows
    requires DataKeyed(data) && id in data
    ensures var magic := AsLearnt(data[id]); var h := Reach(g, data, Sharing(u, v, player, id, magic));
      && u in h.characters && v in h.characters && h.characters[u].name == h.characters[v].name == player.name
      && h.RowsOf(player.name) == Rows(map[id := magic], None)
      && 2 in h.sessions && h.sessions[2].user == Some(v) && h.sessions[2].Name() == Some(player.name)
      && h.sessions[2].phase == ReadingEquipped([magic])
  {
    var magic := AsLearnt(data[id]);
    var steps := Creation(1, u, player);
    CreationEnds(g, data, 1, u, player);
    CreationEnds(Reach(g, data, steps), data, 2, v, player);
    ReachMore(g, data, steps, Creation(2, v, player));
    steps := steps + Creation(2, v, player);
    var before := Reach(g, data, steps);
    VisitEnds(before, data, u, player, id);
    ReachMore(g, data, steps, Visit(id));
    SecondEnters(Reach(before, data, Visit(id)), data, v, player, magic);
    ReachMore(g, data, steps + Visit(id), [(2, RegisterCreated), (2, ReadMagics(Some([magic])))]);
  }

  lemma SecondEnters(g: Server, data: GameData, user: string, player: Player, magic: Magic)
    requires 2 in g.sessions && g.sessions[2] == Creator(user, player) && player.name !in g.registry
    requires g.RowsOf(player.name) == Rows(map[magic.magicId := magic], None)
    ensures var h := Reach(g, data, [(2, RegisterCreated), (2, ReadMagics(Some([magic])))]);
      && h.characters == g.characters && h.RowsOf(player.name) == g.RowsOf(player.name)
      && 2 in h.sessions && h.sessions[2].user == Some(user) && h.sessions[2].Name() == Some(player.name)
      && h.sessions[2].phase == ReadingEquipped([magic])
  {
    assert [magic][..0] == [];
    assert IdMap([magic]) == map[magic.magicId := magic];
    Enters(g, data, 2, user, player, [magic]);
  }
}
