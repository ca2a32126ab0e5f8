/** Learn, fuse and reorder as commands on the three copies, and what every sequence of them keeps. */
module Commands {
  import Fighter
  import opened Structs
  import opened Util
  import opened Setup
  import opened Fusion
  import opened SpellBook

  datatype Command =
    | Learn(staticId: int)
    | Fuse(primaryId: int, secondaryId: int, selected: Selector)
    | Reorder(ids: seq<int>)

  ghost predicate Accepted(data: GameData, book: Book, cmd: Command) {
    match cmd
    case Learn(id) => ValidLearn(data, book, id)
    case Fuse(p, s, _) => ValidFuse(book, p, s)
    case Reorder(ids) => ValidReorder(book, ids)
  }

  /** A fuse names its primary before its secondary in the learnt list; other commands always do. */
  predicate Ordered(book: Book, cmd: Command) {
    cmd.Fuse? && Position(book, cmd.primaryId).Some? && Position(book, cmd.secondaryId).Some? ==>
      Position(book, cmd.primaryId).value < Position(book, cmd.secondaryId).value
  }

  /** What the server's handler does with an accepted command: rows first, memory once they are committed. When
      the store fails, at whatever statement, both stay. `None` is undefined behaviour. */
  ghost function ServerStep(data: GameData, book: Book, rows: Rows, cmd: Command, fails: bool): Option<(Book, Rows)>
    requires Accepted(data, book, cmd)
  {
    if fails then Some((book, rows))
    else
      match cmd
      case Learn(id) =>
        var magic := AsLearnt(data[id]);
        var stored := RowsLearnt(rows, magic);
        if stored.None? then Some((book, rows)) else Some((book.(magics := book.magics + [magic]), stored.value))
      case Fuse(p, s, selected) =>
        var fused := FuseResult(book, p, s, selected);
        var server := ServerFused(book, p, s, fused);
        if server.None? then None
        else Some((server.value, RowsFused(rows, fused, s, WithoutId(book.equipped, s))))
      case Reorder(ids) =>
        Some((book.(equipped := ids), RowsEquipped(rows, ids)))
  }

  /** What validation admits: a magic that the static data have and the book has not; two learnt magics of one kind; a
      list of learnt ids with no two passive and no six active entries. */
  lemma AcceptedExactly(data: GameData, book: Book, cmd: Command)
    ensures match cmd
            case Learn(id) =>
              Accepted(data, book, cmd)
              <==> id in data && forall i :: 0 <= i < |book.magics| ==> book.magics[i].magicId != id
            case Fuse(p, s, _) =>
              DistinctIds(book.magics) ==>
                (Accepted(data, book, cmd)
                 <==> exists i, j :: 0 <= i < |book.magics| && 0 <= j < |book.magics|
                                     && book.magics[i].magicId == p && book.magics[j].magicId == s
                                     && book.magics[i].active == book.magics[j].active)
            case Reorder(ids) =>
              var m := IdMap(book.magics);
              Accepted(data, book, cmd)
              <==> (forall i :: 0 <= i < |ids| ==> ids[i] in m)
                   && |PassiveEntries(m, ids)| <= 1 && |ActiveEntries(m, ids)| <= 5
  {
    match cmd
    case Learn(_) =>
    case Fuse(p, s, _) =>
      if i, j :| 0 <= i < |book.magics| && 0 <= j < |book.magics|
                 && book.magics[i].magicId == p && book.magics[j].magicId == s && DistinctIds(book.magics) {
        PositionIs(book, i);
        PositionIs(book, j);
      }
    case Reorder(ids) => LoadoutExactly(IdMap(book.magics), ids);
  }

  // ---------- What the rows and a session keep ----------

  /** Static data is loaded keyed by the magics' own ids. */
  ghost predicate DataKeyed(data: GameData) { forall id :: id in data ==> data[id].magicId == id }

  function StoredIds(rows: Rows): seq<int> { match rows.equipped case Some(ids) => ids case None => [] }

  ghost predicate RowsOk(rows: Rows) {
    && (forall id :: id in rows.magics ==> rows.magics[id].magicId == id)
    && LoadoutOk(rows.magics, StoredIds(rows))
  }

  ghost predicate SubMap(m: map<int, Magic>, n: map<int, Magic>) {
    forall id :: id in m ==> id in n && n[id] == m[id]
  }

  /** A session that may have read only part of its rows: what it holds is stored, and is a legal loadout. */
  ghost predicate Within(book: Book, rows: Rows) {
    && DistinctIds(book.magics)
    && SubMap(IdMap(book.magics), rows.magics)
    && LoadoutOk(IdMap(book.magics), book.equipped)
  }

  ghost predicate Ranged(magics: map<int, Magic>) { forall id :: id in magics ==> AttackRange(magics[id].stats) }

  lemma LoadoutGrows(m: map<int, Magic>, n: map<int, Magic>, ids: seq<int>)
    requires LoadoutOk(m, ids)
    requires forall i :: 0 <= i < |ids| && ids[i] in m ==> ids[i] in n && n[ids[i]].active == m[ids[i]].active
    ensures LoadoutOk(n, ids)
  {
    PassivesSame(m, n, ids);
  }

  lemma LoadoutWithout(m: map<int, Magic>, ids: seq<int>, removed: int)
    requires LoadoutOk(m, ids)
    ensures LoadoutOk(m, WithoutId(ids, removed)) && removed !in WithoutId(ids, removed)
  {
    PassivesKept(m, ids, removed);
    assert WithoutId(ids, removed) == Kept(ids, other => other == removed);
    forall i | 0 <= i < |WithoutId(ids, removed)|
      ensures WithoutId(ids, removed)[i] in m
    {
      assert WithoutId(ids, removed)[i] in ids;
    }
  }

  /** What a step must keep, whatever was read at login and whether or not the store fails. */
  ghost predicate StepKeeps(data: GameData, book: Book, rows: Rows, book': Book, rows': Rows) {
    && RowsOk(rows') && Within(book', rows')
    && (Agrees(book, rows) ==> Agrees(book', rows'))
    && (Ranged(data) && Ranged(rows.magics) ==> Ranged(rows'.magics))
  }

  lemma LearnKeeps(data: GameData, book: Book, rows: Rows, id: int)
    requires DataKeyed(data) && RowsOk(rows) && Within(book, rows)
    requires ValidLearn(data, book, id) && RowsLearnt(rows, AsLearnt(data[id])).Some?
    ensures StepKeeps(data, book, rows, book.(magics := book.magics + [AsLearnt(data[id])]),
                      RowsLearnt(rows, AsLearnt(data[id])).value)
  {
    var magic := AsLearnt(data[id]);
    var stored := RowsLearnt(rows, magic).value;
    IdMapAppend(book.magics, magic);
    LoadoutGrows(rows.magics, stored.magics, StoredIds(rows));
    IdMapKeys(book.magics, id);
    LoadoutGrows(IdMap(book.magics), IdMap(book.magics + [magic]), book.equipped);
  }

  /** On maps: the fused magic replaces the primary, the secondary goes, and the loadout loses its entries. */
  lemma FuseOnMaps(m: map<int, Magic>, rows: Rows, p: int, s: int, fused: Magic, equipped: seq<int>)
    requires RowsOk(rows) && SubMap(m, rows.magics) && LoadoutOk(m, equipped)
    requires p in m && s in m && p != s && fused.magicId == p && fused.active == m[p].active
    ensures var m', rows' := m[p := fused] - {s}, RowsFused(rows, fused, s, WithoutId(equipped, s));
      && LoadoutOk(m', WithoutId(equipped, s))
      && SubMap(m', rows'.magics) && RowsOk(rows')
      && rows'.magics == rows.magics[p := fused] - {s}
  {
    var m', equipped' := m[p := fused] - {s}, WithoutId(equipped, s);
    LoadoutWithout(m, equipped, s);
    forall i | 0 <= i < |equipped'|
      ensures equipped'[i] != s
    {
      assert equipped'[i] in equipped';
    }
    LoadoutGrows(m, m', equipped');
    LoadoutGrows(m', RowsFused(rows, fused, s, equipped').magics, equipped');
  }

  lemma OrderedFuse(book: Book, p: int, s: int, selected: Selector)
    requires DistinctIds(book.magics) && ValidFuse(book, p, s) && Ordered(book, Fuse(p, s, selected))
    ensures var fused, m := FuseResult(book, p, s, selected), IdMap(book.magics);
      var server := ServerFused(book, p, s, fused);
      && p in m && s in m && p != s && fused.magicId == p && fused.active == m[p].active
      && (AttackRange(m[p].stats) && AttackRange(m[s].stats) ==> AttackRange(fused.stats))
      && server.Some? && server == ClientFused(book, p, s, fused)
      && server.value.equipped == WithoutId(book.equipped, s)
      && DistinctIds(server.value.magics)
      && IdMap(server.value.magics) == m[p := fused] - {s}
  {
    var i, j := Position(book, p).value, Position(book, s).value;
    var fused := FuseResult(book, p, s, selected);
    FusionKeeps(book.magics[i], book.magics[j], selected);
    IdMapAt(book.magics, i);
    IdMapAt(book.magics, j);
    OrderedFuseLists(book, i, j, fused);
    OrderedFuseMap(book, i, j, fused);
  }

  lemma FuseKeeps(data: GameData, book: Book, rows: Rows, p: int, s: int, selected: Selector)
    requires RowsOk(rows) && Within(book, rows) && ValidFuse(book, p, s) && Ordered(book, Fuse(p, s, selected))
    ensures var fused := FuseResult(book, p, s, selected);
      var server := ServerFused(book, p, s, fused);
      && server.Some?
      && server == ClientFused(book, p, s, fused)
      && StepKeeps(data, book, rows, server.value, RowsFused(rows, fused, s, WithoutId(book.equipped, s)))
  {
    OrderedFuse(book, p, s, selected);
    FuseOnMaps(IdMap(book.magics), rows, p, s, FuseResult(book, p, s, selected), book.equipped);
  }

  lemma ReorderKeeps(data: GameData, book: Book, rows: Rows, ids: seq<int>)
    requires RowsOk(rows) && Within(book, rows) && ValidReorder(book, ids)
    ensures StepKeeps(data, book, rows, book.(equipped := ids), RowsEquipped(rows, ids))
  {
    var m := IdMap(book.magics);
    forall i | 0 <= i < |ids| && ids[i] in m
      ensures ids[i] in rows.magics && rows.magics[ids[i]].active == m[ids[i]].active
    {
      var id := ids[i];
      assert id in m;
    }
    LoadoutGrows(m, rows.magics, ids);
  }

  /** Every accepted command, unless it commits a fuse out of order, is well defined and keeps rows, session and
      their agreement, also when the store fails. */
  lemma ServerStepKeeps(data: GameData, book: Book, rows: Rows, cmd: Command, fails: bool)
    requires DataKeyed(data) && RowsOk(rows) && Within(book, rows)
    requires Accepted(data, book, cmd) && (fails || Ordered(book, cmd))
    ensures var next := ServerStep(data, book, rows, cmd, fails);
      next.Some? && StepKeeps(data, book, rows, next.value.0, next.value.1)
  {
    if !fails {
      match cmd
      case Learn(id) =>
        if RowsLearnt(rows, AsLearnt(data[id])).Some? {
          LearnKeeps(data, book, rows, id);
        }
      case Fuse(p, s, selected) => FuseKeeps(data, book, rows, p, s, selected);
      case Reorder(ids) => ReorderKeeps(data, book, rows, ids);
    }
  }

  // ---------- The client's mirror ----------

  /** What the client's handler does with a successful response. */
  function ClientStep(book: Book, cmd: Command, magic: Magic): Option<Book> {
    match cmd
    case Learn(_) => Some(book.(magics := book.magics + [magic]))
    case Fuse(p, s, _) => ClientFused(book, p, s, magic)
    case Reorder(ids) => Some(book.(equipped := ids))
  }

  /** The magic that a response carries. */
  function ResponseMagic(data: GameData, book: Book, cmd: Command): Magic
    requires cmd.Learn? ==> cmd.staticId in data
    requires cmd.Fuse? ==> ValidFuse(book, cmd.primaryId, cmd.secondaryId)
  {
    match cmd
    case Learn(id) => AsLearnt(data[id])
    case Fuse(p, s, selected) => FuseResult(book, p, s, selected)
    case Reorder(_) => Fighter.DEFAULT_MAGIC
  }

  /** The response to a learn carries the static magic with its description filled in, and that to a fuse what the
      primary becomes by the secondary. */
  lemma ResponseCarries(data: GameData, book: Book, cmd: Command) returns (p: nat, s: nat)
    requires Accepted(data, book, cmd) && !cmd.Reorder?
    ensures cmd.Learn? ==>
              var magic, learnt := data[cmd.staticId], ResponseMagic(data, book, cmd);
              && learnt.(description := magic.description) == magic
              && learnt.description == if magic.description == "" then magic.name else magic.description
    ensures cmd.Fuse? ==>
              && p < |book.magics| && s < |book.magics|
              && book.magics[p].magicId == cmd.primaryId && book.magics[s].magicId == cmd.secondaryId
              && ResponseMagic(data, book, cmd) == Fused(book.magics[p], book.magics[s], cmd.selected)
  {
    p, s := 0, 0;
    if cmd.Fuse? {
      p, s := FuseTakes(book, cmd.primaryId, cmd.secondaryId, cmd.selected);
    }
  }

  datatype World = World(server: Book, client: Book, rows: Rows)

  /** The store took the command. */
  ghost predicate Commits(data: GameData, w: World, cmd: Command, fails: bool)
    requires Accepted(data, w.server, cmd)
  {
    !fails && (cmd.Learn? ==> RowsLearnt(w.rows, AsLearnt(data[cmd.staticId])).Some?)
  }

  /** One request: the client sends what its own validation accepts, the server validates again and handles it,
      and the client follows a success. `None` is undefined behaviour on either side. */
  ghost function Request(data: GameData, w: World, cmd: Command, fails: bool): Option<World> {
    if !Accepted(data, w.client, cmd) || !Accepted(data, w.server, cmd) then Some(w)
    else
      var served := ServerStep(data, w.server, w.rows, cmd, fails);
      if served.None? then None
      else if !Commits(data, w, cmd, fails) then Some(World(served.value.0, w.client, served.value.1))
      else
        var followed := ClientStep(w.client, cmd, ResponseMagic(data, w.server, cmd));
        if followed.None? then None else Some(World(served.value.0, followed.value, served.value.1))
  }

  ghost function Requests(data: GameData, w: World, cmds: seq<(Command, bool)>): Option<World>
    decreases |cmds|
  {
    if cmds == [] then Some(w)
    else
      var next := Request(data, w, cmds[0].0, cmds[0].1);
      if next.None? then None else Requests(data, next.value, cmds[1..])
  }

  /** A request that either end's validation refuses, or that the store fails, changes nothing on either end. */
  lemma RefusedRequest(data: GameData, w: World, cmd: Command, fails: bool)
    requires !Accepted(data, w.client, cmd) || !Accepted(data, w.server, cmd) || fails
    ensures Request(data, w, cmd, fails) == Some(w)
  {
  }

  /** A request that is about to commit a fuse names its primary before its secondary. */
  ghost predicate CommitsInOrder(data: GameData, w: World, cmd: Command, fails: bool) {
    Accepted(data, w.server, cmd) && !fails ==> Ordered(w.server, cmd)
  }

  ghost predicate AllOrdered(data: GameData, w: World, cmds: seq<(Command, bool)>)
    decreases |cmds|
  {
    cmds == [] ||
    (&& CommitsInOrder(data, w, cmds[0].0, cmds[0].1)
     && var next := Request(data, w, cmds[0].0, cmds[0].1);
        next.Some? ==> AllOrdered(data, next.value, cmds[1..]))
  }

  ghost predicate Synced(w: World) {
    && w.client == w.server
    && Agrees(w.server, w.rows)
    && RowsOk(w.rows)
  }

  lemma AgreesIsWithin(book: Book, rows: Rows)
    requires Agrees(book, rows) && RowsOk(rows)
    ensures Within(book, rows)
  {
  }

  lemma RequestKeeps(data: GameData, w: World, cmd: Command, fails: bool)
    requires DataKeyed(data) && Synced(w) && CommitsInOrder(data, w, cmd, fails)
    ensures var next := Request(data, w, cmd, fails);
      next.Some? && Synced(next.value)
      && (Ranged(data) && Ranged(w.rows.magics) ==> Ranged(next.value.rows.magics))
  {
    if Accepted(data, w.server, cmd) {
      AgreesIsWithin(w.server, w.rows);
      ServerStepKeeps(data, w.server, w.rows, cmd, fails);
      if cmd.Fuse? && !fails {
        FuseKeeps(data, w.server, w.rows, cmd.primaryId, cmd.secondaryId, cmd.selected);
      }
    }
  }

  /** From copies that agree, a request is defined and leaves them agreeing if and only if it does not commit a fuse
      out of order. */
  lemma RequestKeepsExactly(data: GameData, w: World, cmd: Command, fails: bool)
    requires DataKeyed(data) && Synced(w)
    ensures var next := Request(data, w, cmd, fails);
      next.Some? && Synced(next.value) <==> CommitsInOrder(data, w, cmd, fails)
  {
    if CommitsInOrder(data, w, cmd, fails) {
      RequestKeeps(data, w, cmd, fails);
    } else {
      FuseExactly(w.server, w.rows, cmd.primaryId, cmd.secondaryId, cmd.selected);
    }
  }

  /** Every state on the way, from the first to the last, is defined and has the copies agreeing. */
  ghost predicate AlwaysSynced(data: GameData, w: World, cmds: seq<(Command, bool)>)
    decreases |cmds|
  {
    Synced(w) &&
    (cmds == [] ||
     var next := Request(data, w, cmds[0].0, cmds[0].1);
     next.Some? && AlwaysSynced(data, next.value, cmds[1..]))
  }

  /** Over any sequence of commands, with the store failing wherever it likes, nothing undefined happens and server
      memory, client memory and stored rows agree throughout, if and only if no fuse is committed out of order. */
  lemma {:induction false} ThreeCopiesAgreeExactly(data: GameData, w: World, cmds: seq<(Command, bool)>)
    requires DataKeyed(data) && Synced(w)
    ensures AlwaysSynced(data, w, cmds) <==> AllOrdered(data, w, cmds)
    decreases |cmds|
  {
    if cmds != [] {
      RequestKeepsExactly(data, w, cmds[0].0, cmds[0].1);
      var next := Request(data, w, cmds[0].0, cmds[0].1);
      if next.Some? && Synced(next.value) {
        ThreeCopiesAgreeExactly(data, next.value, cmds[1..]);
      }
    }
  }

  /** After any such sequence the copies agree and the loadout is legal. */
  lemma {:induction false} ThreeCopiesAgree(data: GameData, w: World, cmds: seq<(Command, bool)>)
    requires DataKeyed(data) && Synced(w) && AllOrdered(data, w, cmds)
    ensures var end := Requests(data, w, cmds);
      && end.Some? && Synced(end.value)
      && LoadoutOk(IdMap(end.value.server.magics), end.value.server.equipped)
      && (Ranged(data) && Ranged(w.rows.magics) ==> Ranged(end.value.rows.magics))
    decreases |cmds|
  {
    if cmds != [] {
      RequestKeeps(data, w, cmds[0].0, cmds[0].1);
      ThreeCopiesAgree(data, Request(data, w, cmds[0].0, cmds[0].1).value, cmds[1..]);
    }
  }

  /** Any number of fusions later the damage roll still has a valid range. */
  lemma FusedLoadoutFights(data: GameData, w: World, cmds: seq<(Command, bool)>,
                           f: Fighter.Fightable, raw: Character, equips: seq<Battlestats>)
    requires DataKeyed(data) && Synced(w) && AllOrdered(data, w, cmds)
    requires Ranged(data) && Ranged(w.rows.magics) && AttackRange(raw.stats)
    requires forall i :: 0 <= i < |equips| ==> AttackRange(equips[i])
    requires var end := Requests(data, w, cmds);
      end.Some? ==> SetUp(f, raw, end.value.server.magics, equips, end.value.server.equipped)
    ensures AttackRange(f.charData.stats)
  {
    ThreeCopiesAgree(data, w, cmds);
    var book, rows := Requests(data, w, cmds).value.server, Requests(data, w, cmds).value.rows;
    forall m | m in book.magics
      ensures AttackRange(m.stats)
    {
      var i :| 0 <= i < |book.magics| && book.magics[i] == m;
      IdMapAt(book.magics, i);
      assert m == rows.magics[m.magicId];
    }
    SetUpKeepsAttackRange(f, raw, book.magics, equips, book.equipped);
  }

  /** A login that reads everything restores the session up to the order of its magics. */
  lemma ReloginRestores(book: Book, again: Book, rows: Rows)
    requires Agrees(book, rows) && Agrees(again, rows)
    ensures again.equipped == book.equipped && multiset(again.magics) == multiset(book.magics)
  {
    SameMapSameMagics(book.magics, again.magics);
  }

  lemma {:induction false} SameMapSameMagics(xs: seq<Magic>, ys: seq<Magic>)
    requires DistinctIds(xs) && DistinctIds(ys) && IdMap(xs) == IdMap(ys)
    ensures multiset(xs) == multiset(ys)
  {
    forall m: Magic
      ensures multiset(xs)[m] == multiset(ys)[m]
    {
      MagicOnce(xs, m);
      MagicOnce(ys, m);
    }
  }

  lemma {:induction false} MagicOnce(xs: seq<Magic>, m: Magic)
    requires DistinctIds(xs)
    ensures multiset(xs)[m] == if m.magicId in IdMap(xs) && IdMap(xs)[m.magicId] == m then 1 else 0
  {
    if xs != [] {
      var n := |xs| - 1;
      assert xs == xs[..n] + [xs[n]];
      MagicOnce(xs[..n], m);
      IdMapKeys(xs[..n], xs[n].magicId);
    }
  }

  lemma ScriptedFuse(data: GameData, w: World, one: Magic, two: Magic, selected: Selector)
    requires w.server.magics == [one, two] && w.client == w.server
    requires one.magicId == 1 && two.magicId == 2 && one.active == two.active
    ensures Request(data, w, Fuse(2, 1, selected), false) == None
  {
    assert w.server.magics[0] == one && w.server.magics[1] == two;
    PositionIs(w.server, 0);
    PositionIs(w.server, 1);
    FusionKeeps(two, one, selected);
    DisorderedFuse(w.server, 1, 0, FuseResult(w.server, 2, 1, selected));
  }

  /** The repository's own script learns 1, learns 2 and fuses 1 into 2: the primary stands behind the secondary,
      and the server writes past the end of its list. */
  lemma ScriptedFuseIsUndefined(data: GameData, selected: Selector)
    requires DataKeyed(data) && 1 in data && 2 in data && data[1].active == data[2].active
    ensures var nothing := Book([], []);
      Requests(data, World(nothing, nothing, Rows(map[], None)),
               [(Learn(1), false), (Learn(2), false), (Fuse(2, 1, selected), false)]) == None
  {
    var nothing := Book([], []);
    var w0 := World(nothing, nothing, Rows(map[], None));
    var one, two := AsLearnt(data[1]), AsLearnt(data[2]);
    var w1 := Request(data, w0, Learn(1), false).value;
    assert w1.server.magics == [one] && w1.client == w1.server;
    var w2 := Request(data, w1, Learn(2), false).value;
    assert w2.server.magics == [one, two] && w2.client == w2.server;
    ScriptedFuse(data, w2, one, two, selected);
    var last := [(Fuse(2, 1, selected), false)];
    assert Requests(data, w2, last) == None;
    assert Requests(data, w1, [(Learn(2), false)] + last) == None by {
      assert ([(Learn(2), false)] + last)[1..] == last;
    }
    var cmds := [(Learn(1), false)] + ([(Learn(2), false)] + last);
    assert cmds[1..] == [(Learn(2), false)] + last;
    assert cmds == [(Learn(1), false), (Learn(2), false), (Fuse(2, 1, selected), false)];
  }
}
