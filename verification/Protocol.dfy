/** Sessions against the shared registry and the store: logins, character creation, commands and ends of sessions,
    interleaved at every call of the store. */
module Protocol {
  import opened Structs
  import opened SpellBook
  import opened Commands
  import opened SessionRegistry

  datatype GameState = PreLogin | CreateChar | InGame

  /** Where a session's coroutine is suspended. */
  datatype Phase =
    | Idle                                    // reading the next request
    | Selected(user: string)                  // login: credentials match and the flag was clear
    | Flagged                                 // login: the flag is set
    | Fetched(character: Option<Player>)      // login: about to register
    | Inserted(created: Player)               // createchar: the row is in, about to register
    | ReadingMagics
    | ReadingEquipped(magics: seq<Magic>)
    | Committed(next: Book)                   // a command is stored, memory is about to follow
    | Ended                                   // out of the read loop, registry entry removed

  datatype Session = Session(phase: Phase, state: GameState, user: Option<string>, player: Option<Player>,
                             book: Book, loaded: bool) {
    /** The name under which this session is in game and not yet removed. */
    function Name(): Option<string> {
      if player.Some? && !phase.Ended? then Some(player.value.name) else None
    }
  }

  const NEW_SESSION := Session(Idle, PreLogin, None, None, Book([], []), false)

  /** `characters` is keyed by user id alone; two users may own characters of one name, and then share rows.
      `disordered` is history: the names under which a fuse was committed whose primary did not precede its
      secondary. */
  datatype Server = Server(
    sessions: map<SessionId, Session>, registry: map<string, SessionId>, live: set<SessionId>,
    flags: map<string, bool>, characters: map<string, Player>, rows: map<string, Rows>,
    disordered: set<string>)
  {
    function With(s: SessionId, x: Session): Server { this.(sessions := sessions[s := x]) }

    function RowsOf(name: string): Rows { if name in rows then rows[name] else Rows(map[], None) }
  }

  /** A step of one session, up to its next suspension. `fails` is an error reported by the store; a failed update
      of the flag or insert of a character may still have been `applied`. */
  datatype Action =
    | Connect
    | SelectUser(user: string, passwordOk: bool, fails: bool)
    | UpdateFlag(fails: bool, applied: bool)
    | FetchCharacter(fails: bool)
    | RegisterLogin
    | InsertCharacter(player: Player, fails: bool, applied: bool)
    | RegisterCreated
    | ReadMagics(order: Option<seq<Magic>>)
    | ReadEquipped(fails: bool)
    | Serve(cmd: Command, fails: bool)
    | Resume
    | EndSession
    | Logout(applied: bool)
    | Destroy
    | Cleanup

  /** Some order of the stored magics. */
  ghost predicate RowOrder(order: seq<Magic>, rows: Rows) {
    DistinctIds(order) && IdMap(order) == rows.magics
  }

  // The steps, one by one; a step that is not enabled changes nothing.

  function DoSelectUser(g: Server, s: SessionId, x: Session, user: string, passwordOk: bool, fails: bool): Server {
    if x.phase.Idle? && x.state.PreLogin? && !fails && passwordOk && user in g.flags && !g.flags[user] then
      g.With(s, x.(phase := Selected(user)))
    else g
  }

  function DoUpdateFlag(g: Server, s: SessionId, x: Session, fails: bool, applied: bool): Server {
    if x.phase.Selected? then
      var flagged := if !fails || applied then g.(flags := g.flags[x.phase.user := true]) else g;
      flagged.With(s, if fails then x.(phase := Idle) else x.(phase := Flagged, user := Some(x.phase.user)))
    else g
  }

  function DoFetch(g: Server, s: SessionId, x: Session, fails: bool): Server {
    if x.phase.Flagged? && x.user.Some? then
      g.With(s, x.(phase := Fetched(if !fails && x.user.value in g.characters then Some(g.characters[x.user.value])
                                    else None)))
    else g
  }

  function DoRegister(g: Server, s: SessionId, x: Session, character: Player, refused: GameState): Server {
    var entered := Registered(g.registry, character.name, s, g.live);
    if entered.Some? then
      g.(registry := entered.value)
       .With(s, x.(phase := ReadingMagics, state := InGame, player := Some(character)))
    else
      g.With(s, x.(phase := Idle, state := refused))
  }

  function DoRegisterLogin(g: Server, s: SessionId, x: Session): Server {
    match x.phase
    case Fetched(None) => g.With(s, x.(phase := Idle, state := CreateChar))
    case Fetched(Some(character)) => DoRegister(g, s, x, character, CreateChar)
    case _ => g
  }

  function DoInsert(g: Server, s: SessionId, x: Session, player: Player, fails: bool, applied: bool): Server {
    if x.phase.Idle? && x.state.CreateChar? && x.user.Some? && x.user.value !in g.characters then
      var stored := g.(characters := g.characters[x.user.value := player]);
      if !fails then stored.With(s, x.(phase := Inserted(player)))
      else if applied then stored
      else g
    else g
  }

  ghost function DoReadMagics(g: Server, s: SessionId, x: Session, order: Option<seq<Magic>>): Server {
    if x.phase.ReadingMagics? && x.player.Some? then
      if order.None? then g.With(s, x.(phase := Idle, book := Book([], []), loaded := false))
      else if RowOrder(order.value, g.RowsOf(x.player.value.name)) then
        g.With(s, x.(phase := ReadingEquipped(order.value)))
      else g
    else g
  }

  function DoReadEquipped(g: Server, s: SessionId, x: Session, fails: bool): Server {
    if x.phase.ReadingEquipped? && x.player.Some? then
      var ids := if fails then [] else StoredIds(g.RowsOf(x.player.value.name));
      g.With(s, x.(phase := Idle, book := Book(x.phase.magics, ids), loaded := !fails))
    else g
  }

  /** A validated command, up to its commit. One whose write would be undefined is not a step of the model. */
  ghost function DoServe(g: Server, s: SessionId, x: Session, data: GameData, cmd: Command, fails: bool): Server {
    if x.phase.Idle? && x.state.InGame? && x.player.Some? && Accepted(data, x.book, cmd) then
      var name := x.player.value.name;
      var next := ServerStep(data, x.book, g.RowsOf(name), cmd, fails);
      if next.Some? then
        var disordered := if fails || Ordered(x.book, cmd) then g.disordered else g.disordered + {name};
        g.(rows := g.rows[name := next.value.1], disordered := disordered)
         .With(s, x.(phase := Committed(next.value.0)))
      else g
    else g
  }

  function DoResume(g: Server, s: SessionId, x: Session): Server {
    if x.phase.Committed? then g.With(s, x.(phase := Idle, book := x.phase.next)) else g
  }

  function DoEnd(g: Server, s: SessionId, x: Session): Server {
    if x.phase.Idle? then
      (if x.player.Some? then g.(registry := g.registry - {x.player.value.name}) else g).With(s, x.(phase := Ended))
    else g
  }

  function DoLogout(g: Server, x: Session, applied: bool): Server {
    if x.phase.Ended? && x.user.Some? && applied then g.(flags := g.flags[x.user.value := false]) else g
  }

  ghost function Do(g: Server, data: GameData, s: SessionId, a: Action): Server {
    if a.Connect? then
      if s in g.sessions then g else g.(live := g.live + {s}).With(s, NEW_SESSION)
    else if a.Cleanup? then g.(registry := Cleaned(g.registry, g.live))
    else if s !in g.sessions then g
    else
      var x := g.sessions[s];
      match a
      case SelectUser(user, passwordOk, fails) => DoSelectUser(g, s, x, user, passwordOk, fails)
      case UpdateFlag(fails, applied) => DoUpdateFlag(g, s, x, fails, applied)
      case FetchCharacter(fails) => DoFetch(g, s, x, fails)
      case RegisterLogin => DoRegisterLogin(g, s, x)
      case InsertCharacter(player, fails, applied) => DoInsert(g, s, x, player, fails, applied)
      case RegisterCreated => if x.phase.Inserted? then DoRegister(g, s, x, x.phase.created, x.state) else g
      case ReadMagics(order) => DoReadMagics(g, s, x, order)
      case ReadEquipped(fails) => DoReadEquipped(g, s, x, fails)
      case Serve(cmd, fails) => DoServe(g, s, x, data, cmd, fails)
      case Resume => DoResume(g, s, x)
      case EndSession => DoEnd(g, s, x)
      case Logout(applied) => DoLogout(g, x, applied)
      case Destroy => if x.phase.Ended? then g.(live := g.live - {s}) else g
      case _ => g
  }

  /** Any interleaving of any sessions' steps. */
  ghost function Reach(g: Server, data: GameData, steps: seq<(SessionId, Action)>): Server
    decreases |steps|
  {
    if steps == [] then g
    else Do(Reach(g, data, steps[..|steps| - 1]), data, steps[|steps| - 1].0, steps[|steps| - 1].1)
  }

  // ---------- The invariant ----------

  /** The registry maps exactly the names of the sessions that are in game and not yet removed. */
  ghost predicate Exact(g: Server) {
    && (forall n :: n in g.registry ==> g.registry[n] in g.sessions && g.sessions[g.registry[n]].Name() == Some(n))
    && (forall s :: s in g.sessions && g.sessions[s].Name().Some? ==>
          g.sessions[s].Name().value in g.registry && g.registry[g.sessions[s].Name().value] == s)
  }

  /** Only ended sessions are destroyed. */
  ghost predicate Alive(g: Server) {
    forall s :: s in g.sessions && !g.sessions[s].phase.Ended? ==> s in g.live
  }

  /** A character held by a session, in game or on its way, is the one stored for its user. */
  ghost predicate Owns(x: Session, characters: map<string, Player>, character: Player) {
    x.user.Some? && x.user.value in characters && characters[x.user.value] == character
  }

  ghost predicate SessionOk(x: Session, characters: map<string, Player>) {
    && (x.player.Some? <==> x.state.InGame?)
    && (x.player.Some? ==> Owns(x, characters, x.player.value))
    && (match x.phase
        case Selected(_) => x.state.PreLogin?
        case Flagged => x.state.PreLogin? && x.user.Some?
        case Fetched(None) => x.state.PreLogin? && x.user.Some?
        case Fetched(Some(character)) => x.state.PreLogin? && Owns(x, characters, character)
        case Inserted(character) => x.state.CreateChar? && Owns(x, characters, character)
        case ReadingMagics => x.player.Some?
        case ReadingEquipped(_) => x.player.Some?
        case Committed(_) => x.player.Some?
        case _ => true)
  }

  ghost predicate Holds(book: Book, rows: Rows, loaded: bool) {
    Within(book, rows) && (loaded ==> Agrees(book, rows))
  }

  /** What a session in game remembers of its rows. */
  ghost predicate BookOk(x: Session, rows: Rows) {
    match x.phase
    case Idle => Holds(x.book, rows, x.loaded)
    case ReadingEquipped(magics) => RowOrder(magics, rows)
    case Committed(next) => Holds(next, rows, x.loaded)
    case _ => true
  }

  ghost predicate Inv(g: Server) {
    && Exact(g)
    && Alive(g)
    && (forall s :: s in g.sessions ==> SessionOk(g.sessions[s], g.characters))
    && BooksOk(g)
    && (forall n :: n in g.rows && n !in g.disordered ==> RowsOk(g.rows[n]))
  }

  /** Every session in game, unless under a name whose fuses went out of order. */
  ghost predicate BooksOk(g: Server) {
    forall s :: s in g.sessions && g.sessions[s].Name().Some? && g.sessions[s].Name().value !in g.disordered ==>
      BookOk(g.sessions[s], g.RowsOf(g.sessions[s].Name().value))
  }

  /** Before anyone connects, whatever is stored, so long as it is a legal loadout for every name. */
  ghost predicate Initial(g: Server) {
    g.sessions == map[] && g.registry == map[] && g.disordered == {} && forall n :: n in g.rows ==> RowsOk(g.rows[n])
  }

  lemma RowsOfOk(g: Server, name: string)
    requires Inv(g) && name !in g.disordered
    ensures RowsOk(g.RowsOf(name))
  {
  }

  // ---------- Every step keeps it ----------

  /** Replacing one session by one of the same name. */
  lemma LocalStep(g: Server, s: SessionId, x: Session, h: Server)
    requires Inv(g) && s in g.sessions && h == g.(flags := h.flags).With(s, x)
    requires x.Name() == g.sessions[s].Name() && (x.phase.Ended? <==> g.sessions[s].phase.Ended?)
    requires SessionOk(x, g.characters)
    requires x.Name().Some? && x.Name().value !in g.disordered ==> BookOk(x, g.RowsOf(x.Name().value))
    ensures Inv(h)
  {
    forall t | t in h.sessions && h.sessions[t].Name().Some? && h.sessions[t].Name().value !in h.disordered
      ensures BookOk(h.sessions[t], h.RowsOf(h.sessions[t].Name().value))
    {
      assert h.RowsOf(h.sessions[t].Name().value) == g.RowsOf(h.sessions[t].Name().value);
    }
  }

  /** One more character row; rows of characters are never changed or deleted. */
  lemma MoreCharacters(g: Server, user: string, player: Player)
    requires Inv(g) && user !in g.characters
    ensures Inv(g.(characters := g.characters[user := player]))
  {
    var h := g.(characters := g.characters[user := player]);
    forall s | s in h.sessions
      ensures SessionOk(h.sessions[s], h.characters)
    {
      assert SessionOk(g.sessions[s], g.characters);
    }
    assert forall n :: h.RowsOf(n) == g.RowsOf(n);
  }

  /** Registering: refused if and only if somebody is in game under the name. */
  lemma RegisterExactly(g: Server, s: SessionId, name: string)
    requires Inv(g)
    ensures Registered(g.registry, name, s, g.live).None?
            <==> exists t :: t in g.sessions && g.sessions[t].Name() == Some(name)
  {
    if name in g.registry {
      assert g.sessions[g.registry[name]].Name() == Some(name);
    }
  }

  /** The registry after one session entered or left it. */
  lemma ExactAfterEnter(g: Server, s: SessionId, x: Session, name: string)
    requires Exact(g) && s in g.sessions && g.sessions[s].Name().None? && x.Name() == Some(name)
    requires forall t :: t in g.sessions ==> g.sessions[t].Name() != Some(name)
    ensures Exact(g.(registry := g.registry[name := s]).With(s, x))
  {
    var h := g.(registry := g.registry[name := s]).With(s, x);
    forall n | n in h.registry
      ensures h.registry[n] in h.sessions && h.sessions[h.registry[n]].Name() == Some(n)
    {
      if n != name {
        assert g.sessions[g.registry[n]].Name() == Some(n);
      }
    }
  }

  lemma ExactAfterLeave(g: Server, s: SessionId, x: Session)
    requires Exact(g) && s in g.sessions && g.sessions[s].Name().Some? && x.Name().None?
    ensures Exact(g.(registry := g.registry - {g.sessions[s].Name().value}).With(s, x))
  {
    var h := g.(registry := g.registry - {g.sessions[s].Name().value}).With(s, x);
    forall n | n in h.registry
      ensures h.registry[n] in h.sessions && h.sessions[h.registry[n]].Name() == Some(n)
    {
      assert g.sessions[g.registry[n]].Name() == Some(n);
    }
  }

  lemma BooksStay(g: Server, h: Server, s: SessionId, x: Session)
    requires Inv(g) && s in g.sessions && h.sessions == g.sessions[s := x] && h.rows == g.rows
    requires h.disordered == g.disordered
    requires x.Name().Some? && x.Name().value !in g.disordered ==> BookOk(x, g.RowsOf(x.Name().value))
    ensures BooksOk(h)
  {
    forall t | t in h.sessions && h.sessions[t].Name().Some? && h.sessions[t].Name().value !in h.disordered
      ensures BookOk(h.sessions[t], h.RowsOf(h.sessions[t].Name().value))
    {
      assert h.RowsOf(h.sessions[t].Name().value) == g.RowsOf(h.sessions[t].Name().value);
    }
  }

  lemma RegisterKeeps(g: Server, s: SessionId, x: Session, character: Player)
    requires Inv(g) && s in g.sessions && g.sessions[s] == x
    requires x.player.None? && Owns(x, g.characters, character) && !x.phase.Ended?
    requires x.state == PreLogin || x.state == CreateChar
    ensures Inv(DoRegister(g, s, x, character, CreateChar))
  {
    var h, name := DoRegister(g, s, x, character, CreateChar), character.name;
    RegisterExactly(g, s, name);
    if Registered(g.registry, name, s, g.live).None? {
      LocalStep(g, s, x.(phase := Idle, state := CreateChar), h);
    } else {
      var entered := x.(phase := ReadingMagics, state := InGame, player := Some(character));
      ExactAfterEnter(g, s, entered, name);
      BooksStay(g, h, s, entered);
    }
  }

  lemma ConnectKeeps(g: Server, s: SessionId)
    requires Inv(g) && s !in g.sessions
    ensures Inv(g.(live := g.live + {s}).With(s, NEW_SESSION))
  {
    var h := g.(live := g.live + {s}).With(s, NEW_SESSION);
    assert forall n :: h.RowsOf(n) == g.RowsOf(n);
  }

  /** The cleanup never finds anything to erase. */
  lemma CleanupFindsNothing(g: Server)
    requires Inv(g)
    ensures Cleaned(g.registry, g.live) == g.registry
  {
  }

  /** Other names' rows, and so what other sessions remember, are untouched. */
  lemma BooksAfterWrite(g: Server, s: SessionId, x: Session, name: string, rows: Rows, disordered: set<string>)
    requires Inv(g) && s in g.sessions && g.sessions[s].Name() == Some(name) == x.Name()
    requires g.disordered <= disordered
    requires name !in disordered ==> BookOk(x, rows)
    ensures BooksOk(g.(rows := g.rows[name := rows], disordered := disordered).With(s, x))
  {
    var h := g.(rows := g.rows[name := rows], disordered := disordered).With(s, x);
    forall t | t in h.sessions && h.sessions[t].Name().Some? && h.sessions[t].Name().value !in h.disordered
      ensures BookOk(h.sessions[t], h.RowsOf(h.sessions[t].Name().value))
    {
      if t != s {
        assert g.sessions[t].Name().value != name;
        assert h.RowsOf(h.sessions[t].Name().value) == g.RowsOf(h.sessions[t].Name().value);
      }
    }
  }

  lemma CommitKeeps(g: Server, s: SessionId, x: Session, next: Book, rows: Rows, disordered: set<string>)
    requires Inv(g) && s in g.sessions && g.sessions[s] == x && x.phase.Idle? && x.player.Some?
    requires g.disordered <= disordered
    requires x.player.value.name !in disordered ==> Holds(next, rows, x.loaded) && RowsOk(rows)
    ensures Inv(g.(rows := g.rows[x.player.value.name := rows], disordered := disordered)
                 .With(s, x.(phase := Committed(next))))
  {
    BooksAfterWrite(g, s, x.(phase := Committed(next)), x.player.value.name, rows, disordered);
  }

  lemma ServeHolds(data: GameData, x: Session, rows: Rows, cmd: Command, fails: bool)
    requires DataKeyed(data) && RowsOk(rows) && Holds(x.book, rows, x.loaded)
    requires Accepted(data, x.book, cmd) && (fails || Ordered(x.book, cmd))
    ensures var next := ServerStep(data, x.book, rows, cmd, fails);
      next.Some? && Holds(next.value.0, next.value.1, x.loaded) && RowsOk(next.value.1)
  {
    ServerStepKeeps(data, x.book, rows, cmd, fails);
  }

  lemma ServeKeeps(g: Server, data: GameData, s: SessionId, x: Session, cmd: Command, fails: bool)
    requires DataKeyed(data) && Inv(g) && s in g.sessions && g.sessions[s] == x
    ensures Inv(DoServe(g, s, x, data, cmd, fails))
  {
    if x.phase.Idle? && x.state.InGame? && x.player.Some? && Accepted(data, x.book, cmd) {
      var name := x.player.value.name;
      var next := ServerStep(data, x.book, g.RowsOf(name), cmd, fails);
      var disordered := if fails || Ordered(x.book, cmd) then g.disordered else g.disordered + {name};
      if name !in disordered {
        RowsOfOk(g, name);
        assert BookOk(x, g.RowsOf(name));
        ServeHolds(data, x, g.RowsOf(name), cmd, fails);
      }
      if next.Some? {
        CommitKeeps(g, s, x, next.value.0, next.value.1, disordered);
      }
    }
  }

  /** Only commands write rows. */
  lemma OnlyCommandsWrite(g: Server, data: GameData, s: SessionId, a: Action)
    ensures !a.Serve? ==> Do(g, data, s, a).rows == g.rows
  {
  }

  lemma EndKeeps(g: Server, s: SessionId, x: Session)
    requires Inv(g) && s in g.sessions && g.sessions[s] == x
    ensures Inv(DoEnd(g, s, x))
  {
    if x.phase.Idle? {
      var h, ended := DoEnd(g, s, x), x.(phase := Ended);
      BooksStay(g, h, s, ended);
      if x.player.Some? {
        ExactAfterLeave(g, s, ended);
      }
    }
  }

  lemma ReadsKeep(g: Server, s: SessionId, x: Session, order: Option<seq<Magic>>, fails: bool)
    requires Inv(g) && s in g.sessions && g.sessions[s] == x
    ensures Inv(DoReadMagics(g, s, x, order)) && Inv(DoReadEquipped(g, s, x, fails))
  {
    var h, h' := DoReadMagics(g, s, x, order), DoReadEquipped(g, s, x, fails);
    if h != g {
      LocalStep(g, s, h.sessions[s], h);
    }
    if h' != g {
      if x.player.value.name !in g.disordered {
        RowsOfOk(g, x.player.value.name);
      }
      LocalStep(g, s, h'.sessions[s], h');
    }
  }

  lemma LoginsKeep(g: Server, s: SessionId, x: Session, user: string, passwordOk: bool, fails: bool, applied: bool)
    requires Inv(g) && s in g.sessions && g.sessions[s] == x
    ensures Inv(DoSelectUser(g, s, x, user, passwordOk, fails))
    ensures Inv(DoUpdateFlag(g, s, x, fails, applied))
    ensures Inv(DoFetch(g, s, x, fails))
    ensures Inv(DoResume(g, s, x))
  {
    var h := DoSelectUser(g, s, x, user, passwordOk, fails);
    if h != g {
      LocalStep(g, s, h.sessions[s], h);
    }
    h := DoUpdateFlag(g, s, x, fails, applied);
    if h != g {
      LocalStep(g, s, h.sessions[s], h);
    }
    h := DoFetch(g, s, x, fails);
    if h != g {
      LocalStep(g, s, h.sessions[s], h);
    }
    h := DoResume(g, s, x);
    if h != g {
      LocalStep(g, s, h.sessions[s], h);
    }
  }

  lemma InsertKeeps(g: Server, s: SessionId, x: Session, player: Player, fails: bool, applied: bool)
    requires Inv(g) && s in g.sessions && g.sessions[s] == x
    ensures Inv(DoInsert(g, s, x, player, fails, applied))
  {
    var h := DoInsert(g, s, x, player, fails, applied);
    if h != g {
      MoreCharacters(g, x.user.value, player);
      var stored := g.(characters := g.characters[x.user.value := player]);
      if !fails {
        LocalStep(stored, s, h.sessions[s], h);
      }
    }
  }

  lemma StepKeepsInv(g: Server, data: GameData, s: SessionId, a: Action)
    requires DataKeyed(data) && Inv(g)
    ensures Inv(Do(g, data, s, a))
  {
    if a.Connect? {
      if s !in g.sessions {
        ConnectKeeps(g, s);
      }
    } else if a.Cleanup? {
      CleanupFindsNothing(g);
    } else if s in g.sessions {
      var x := g.sessions[s];
      match a
      case SelectUser(user, passwordOk, fails) => LoginsKeep(g, s, x, user, passwordOk, fails, false);
      case UpdateFlag(fails, applied) => LoginsKeep(g, s, x, "", false, fails, applied);
      case FetchCharacter(fails) => LoginsKeep(g, s, x, "", false, fails, false);
      case RegisterLogin => RegisterLoginKeeps(g, s, x);
      case InsertCharacter(player, fails, applied) => InsertKeeps(g, s, x, player, fails, applied);
      case RegisterCreated =>
        if x.phase.Inserted? {
          RegisterKeeps(g, s, x, x.phase.created);
        }
      case ReadMagics(order) => ReadsKeep(g, s, x, order, false);
      case ReadEquipped(fails) => ReadsKeep(g, s, x, None, fails);
      case Serve(cmd, fails) => ServeKeeps(g, data, s, x, cmd, fails);
      case Resume => LoginsKeep(g, s, x, "", false, false, false);
      case EndSession => EndKeeps(g, s, x);
      case Logout(applied) => LogoutKeeps(g, DoLogout(g, x, applied));
      case Destroy => DestroyKeeps(g, s);
      case _ =>
    }
  }

  lemma RegisterLoginKeeps(g: Server, s: SessionId, x: Session)
    requires Inv(g) && s in g.sessions && g.sessions[s] == x
    ensures Inv(DoRegisterLogin(g, s, x))
  {
    match x.phase
    case Fetched(None) =>
      LocalStep(g, s, x.(phase := Idle, state := CreateChar), DoRegisterLogin(g, s, x));
    case Fetched(Some(character)) => RegisterKeeps(g, s, x, character);
    case _ =>
  }

  lemma LogoutKeeps(g: Server, h: Server)
    requires Inv(g) && h == g.(flags := h.flags)
    ensures Inv(h)
  {
    assert forall n :: h.RowsOf(n) == g.RowsOf(n);
  }

  lemma DestroyKeeps(g: Server, s: SessionId)
    requires Inv(g) && s in g.sessions
    ensures Inv(if g.sessions[s].phase.Ended? then g.(live := g.live - {s}) else g)
  {
    assert forall n :: g.(live := g.live - {s}).RowsOf(n) == g.RowsOf(n);
  }

  lemma {:induction false} EveryInterleaving(g: Server, data: GameData, steps: seq<(SessionId, Action)>)
    requires DataKeyed(data) && Initial(g)
    ensures Inv(Reach(g, data, steps))
    decreases |steps|
  {
    if steps != [] {
      EveryInterleaving(g, data, steps[..|steps| - 1]);
      StepKeepsInv(Reach(g, data, steps[..|steps| - 1]), data, steps[|steps| - 1].0, steps[|steps| - 1].1);
    }
  }
}
