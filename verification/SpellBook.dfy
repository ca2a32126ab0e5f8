/** A character's magics and loadout as three parties keep them: the server session, the database rows, and the
    client session. */
module SpellBook {
  import opened Structs
  import opened Util
  import opened Fusion

  /** A session's share: learnt magics in order, and equipped ids. */
  datatype Book = Book(magics: seq<Magic>, equipped: seq<int>)

  /** One character's rows: its magics keyed by id, and the row of equipped ids if there is one. */
  datatype Rows = Rows(magics: map<int, Magic>, equipped: Option<seq<int>>)

  type GameData = map<int, Magic>

  // ---------- Lists as id-to-magic maps ----------

  function IdMap(magics: seq<Magic>): map<int, Magic> {
    if magics == [] then map[]
    else
      var last := magics[|magics| - 1];
      IdMap(magics[..|magics| - 1])[last.magicId := last]
  }

  ghost predicate DistinctIds(magics: seq<Magic>) {
    forall i, j :: 0 <= i < j < |magics| ==> magics[i].magicId != magics[j].magicId
  }

  lemma {:induction false} IdMapKeys(magics: seq<Magic>, id: int)
    ensures id in IdMap(magics) <==> exists i :: 0 <= i < |magics| && magics[i].magicId == id
    ensures id in IdMap(magics) ==> IdMap(magics)[id] in magics && IdMap(magics)[id].magicId == id
  {
    if magics != [] {
      var n := |magics| - 1;
      IdMapKeys(magics[..n], id);
      if magics[n].magicId != id && id in IdMap(magics) {
        var i :| 0 <= i < n && magics[..n][i].magicId == id;
        assert magics[i].magicId == id;
      }
    }
  }

  lemma {:induction false} IdMapAt(magics: seq<Magic>, i: nat)
    requires DistinctIds(magics) && i < |magics|
    ensures magics[i].magicId in IdMap(magics) && IdMap(magics)[magics[i].magicId] == magics[i]
  {
    if i < |magics| - 1 {
      IdMapAt(magics[..|magics| - 1], i);
    }
  }

  lemma IdMapAppend(magics: seq<Magic>, magic: Magic)
    ensures IdMap(magics + [magic]) == IdMap(magics)[magic.magicId := magic]
  {
    assert (magics + [magic])[..|magics|] == magics;
  }

  lemma IdMapDetermined(magics: seq<Magic>, m: map<int, Magic>)
    requires DistinctIds(magics)
    requires forall i :: 0 <= i < |magics| ==> magics[i].magicId in m && m[magics[i].magicId] == magics[i]
    requires forall id :: id in m ==> exists i :: 0 <= i < |magics| && magics[i].magicId == id
    ensures IdMap(magics) == m
  {
    forall id
      ensures id in m <==> id in IdMap(magics)
      ensures id in m ==> m[id] == IdMap(magics)[id]
    {
      IdMapKeys(magics, id);
      if id in m {
        var i :| 0 <= i < |magics| && magics[i].magicId == id;
        IdMapAt(magics, i);
      }
    }
  }

  // ---------- Loadout ----------

  function Passives(magics: map<int, Magic>, ids: seq<int>): (n: nat)
    ensures n <= |ids|
  {
    if ids == [] then 0
    else
      var last := ids[|ids| - 1];
      Passives(magics, ids[..|ids| - 1]) + if last in magics && magics[last].active == 0 then 1 else 0
  }

  /** Every equipped id is learnt, and at most one entry is passive and five are active. */
  ghost predicate LoadoutOk(magics: map<int, Magic>, ids: seq<int>) {
    && (forall i :: 0 <= i < |ids| ==> ids[i] in magics)
    && Passives(magics, ids) <= 1
    && |ids| - Passives(magics, ids) <= 5
  }

  lemma {:induction false} PassivesSame(magics: map<int, Magic>, others: map<int, Magic>, ids: seq<int>)
    requires forall i :: 0 <= i < |ids| ==> ids[i] in magics && ids[i] in others
                                            && magics[ids[i]].active == others[ids[i]].active
    ensures Passives(magics, ids) == Passives(others, ids)
  {
    if ids != [] {
      PassivesSame(magics, others, ids[..|ids| - 1]);
    }
  }

  /** Equipped entries that are learnt and passive. */
  ghost function PassiveEntries(magics: map<int, Magic>, ids: seq<int>): set<int> {
    set i | 0 <= i < |ids| && ids[i] in magics && magics[ids[i]].active == 0
  }

  /** Equipped entries that are learnt and active. */
  ghost function ActiveEntries(magics: map<int, Magic>, ids: seq<int>): set<int> {
    set i | 0 <= i < |ids| && ids[i] in magics && magics[ids[i]].active != 0
  }

  lemma {:induction false} CountsEntries(magics: map<int, Magic>, ids: seq<int>)
    requires forall i :: 0 <= i < |ids| ==> ids[i] in magics
    ensures Passives(magics, ids) == |PassiveEntries(magics, ids)|
    ensures |ids| - Passives(magics, ids) == |ActiveEntries(magics, ids)|
  {
    if ids != [] {
      var n := |ids| - 1;
      var fewer := ids[..n];
      CountsEntries(magics, fewer);
      if magics[ids[n]].active == 0 {
        assert PassiveEntries(magics, ids) == PassiveEntries(magics, fewer) + {n};
        assert ActiveEntries(magics, ids) == ActiveEntries(magics, fewer);
      } else {
        assert PassiveEntries(magics, ids) == PassiveEntries(magics, fewer);
        assert ActiveEntries(magics, ids) == ActiveEntries(magics, fewer) + {n};
      }
    } else {
      assert PassiveEntries(magics, ids) == {} && ActiveEntries(magics, ids) == {};
    }
  }

  /** A legal loadout: every entry is learnt, no two are passive, and no six are active. */
  lemma LoadoutExactly(magics: map<int, Magic>, ids: seq<int>)
    ensures LoadoutOk(magics, ids)
            <==> (forall i :: 0 <= i < |ids| ==> ids[i] in magics)
                 && |PassiveEntries(magics, ids)| <= 1 && |ActiveEntries(magics, ids)| <= 5
  {
    if forall i :: 0 <= i < |ids| ==> ids[i] in magics {
      CountsEntries(magics, ids);
    }
  }

  /** Dropping an id drops its entries from both counts. */
  lemma {:induction false} PassivesKept(magics: map<int, Magic>, ids: seq<int>, removed: int)
    ensures var kept := Kept(ids, id => id == removed);
      && Passives(magics, kept) <= Passives(magics, ids)
      && |kept| - Passives(magics, kept) <= |ids| - Passives(magics, ids)
  {
    if ids != [] {
      PassivesKept(magics, ids[..|ids| - 1], removed);
      var kept := Kept(ids[..|ids| - 1], id => id == removed);
      assert (kept + [ids[|ids| - 1]])[..|kept|] == kept;
    }
  }

  // ---------- What each party does ----------

  predicate ValidLearn(data: GameData, book: Book, staticId: int) {
    staticId in data && FirstWhere(book.magics, (m: Magic) => m.magicId == staticId).None?
  }

  function Position(book: Book, id: int): Option<nat> { FirstWhere(book.magics, (m: Magic) => m.magicId == id) }

  predicate ValidFuse(book: Book, primaryId: int, secondaryId: int) {
    var p, s := Position(book, primaryId), Position(book, secondaryId);
    p.Some? && s.Some? && book.magics[p.value].active == book.magics[s.value].active
  }

  ghost predicate ValidReorder(book: Book, ids: seq<int>) { LoadoutOk(IdMap(book.magics), ids) }

  function AsLearnt(magic: Magic): Magic {
    if magic.description == "" then magic.(description := magic.name) else magic
  }

  function FuseResult(book: Book, primaryId: int, secondaryId: int, selected: Selector): Magic
    requires ValidFuse(book, primaryId, secondaryId)
  {
    Fused(book.magics[Position(book, primaryId).value], book.magics[Position(book, secondaryId).value], selected)
  }

  /** The magics of an accepted fuse: the first learnt of each id, which are of one kind; the result is the one fused
      with the other. */
  lemma FuseTakes(book: Book, primaryId: int, secondaryId: int, selected: Selector) returns (p: nat, s: nat)
    requires ValidFuse(book, primaryId, secondaryId)
    ensures p < |book.magics| && book.magics[p].magicId == primaryId
    ensures s < |book.magics| && book.magics[s].magicId == secondaryId
    ensures forall i :: 0 <= i < p ==> book.magics[i].magicId != primaryId
    ensures forall i :: 0 <= i < s ==> book.magics[i].magicId != secondaryId
    ensures FuseResult(book, primaryId, secondaryId, selected) == Fused(book.magics[p], book.magics[s], selected)
  {
    p, s := Position(book, primaryId).value, Position(book, secondaryId).value;
  }

  /** A magic is learnt as the static data have it, with its name for a description if it has none. */
  lemma LearntAs(magic: Magic)
    ensures magic.description != "" ==> AsLearnt(magic) == magic
    ensures magic.description == "" ==>
              AsLearnt(magic).description == magic.name && AsLearnt(magic).(description := "") == magic
  {
  }

  function WithoutMagic(magics: seq<Magic>, id: int): seq<Magic> { Kept(magics, (m: Magic) => m.magicId == id) }

  function WithoutId(ids: seq<int>, id: int): seq<int> { Kept(ids, other => other == id) }

  /** The server: it keeps the primary's position, erases the secondary, and writes at the kept position.
      `None` is a write past the end. In C++ the erase invalidates every iterator from the erased element on, so the
      write is formally undefined whenever the primary does not stand before the secondary; the result given for
      those cases is what a vector in contiguous storage does. */
  function ServerFused(book: Book, primaryId: int, secondaryId: int, fused: Magic): Option<Book>
    requires Position(book, primaryId).Some?
  {
    var slot, magics := Position(book, primaryId).value, WithoutMagic(book.magics, secondaryId);
    if slot < |magics| then Some(Book(magics[slot := fused], WithoutId(book.equipped, secondaryId))) else None
  }

  /** The client: it erases the secondary and searches for the primary again. `None` is a write through `end()`. */
  function ClientFused(book: Book, primaryId: int, secondaryId: int, fused: Magic): Option<Book> {
    var rest := Book(WithoutMagic(book.magics, secondaryId), WithoutId(book.equipped, secondaryId));
    var slot := Position(rest, primaryId);
    if slot.Some? then Some(rest.(magics := rest.magics[slot.value := fused])) else None
  }

  /** The insert of `create_magic`, which the primary key (character, magic id) may refuse. */
  function RowsLearnt(rows: Rows, magic: Magic): Option<Rows> {
    if magic.magicId in rows.magics then None else Some(rows.(magics := rows.magics[magic.magicId := magic]))
  }

  /** The committed transaction of `fuse_magic`: update, delete, upsert. */
  function RowsFused(rows: Rows, fused: Magic, deleteId: int, equipped: seq<int>): Rows {
    var updated := if fused.magicId in rows.magics then rows.magics[fused.magicId := fused] else rows.magics;
    Rows(updated - {deleteId}, Some(equipped))
  }

  function RowsEquipped(rows: Rows, ids: seq<int>): Rows { rows.(equipped := Some(ids)) }

  // ---------- Agreement ----------

  /** The session's magics as an id-to-magic map and its equipped ids equal the stored rows. */
  ghost predicate Agrees(book: Book, rows: Rows) {
    && DistinctIds(book.magics)
    && IdMap(book.magics) == rows.magics
    && book.equipped == match rows.equipped case Some(ids) => ids case None => []
  }

  /** The list without its one element of that id. */
  lemma WithoutOne(magics: seq<Magic>, s: nat)
    requires DistinctIds(magics) && s < |magics|
    ensures WithoutMagic(magics, magics[s].magicId) == magics[..s] + magics[s + 1..]
  {
    KeptAllButOne(magics, (m: Magic) => m.magicId == magics[s].magicId, s);
  }

  lemma PositionIs(book: Book, i: nat)
    requires DistinctIds(book.magics) && i < |book.magics|
    ensures Position(book, book.magics[i].magicId) == Some(i)
  {
    var p := Position(book, book.magics[i].magicId);
    assert p.Some?;
    assert book.magics[p.value].magicId == book.magics[i].magicId;
  }

  /** A fuse whose primary precedes its secondary: both parties put the fused magic where the primary stood, in
      the list without the secondary. */
  lemma OrderedFuseLists(book: Book, p: nat, s: nat, fused: Magic)
    requires DistinctIds(book.magics) && p < s < |book.magics| && fused.magicId == book.magics[p].magicId
    ensures var primaryId, secondaryId := book.magics[p].magicId, book.magics[s].magicId;
      var after := Book((book.magics[..s] + book.magics[s + 1..])[p := fused], WithoutId(book.equipped, secondaryId));
      && Position(book, primaryId) == Some(p)
      && ServerFused(book, primaryId, secondaryId, fused) == Some(after)
      && ClientFused(book, primaryId, secondaryId, fused) == Some(after)
  {
    var rest := Book(book.magics[..s] + book.magics[s + 1..], WithoutId(book.equipped, book.magics[s].magicId));
    WithoutOne(book.magics, s);
    PositionIs(book, p);
    assert rest.magics[p] == book.magics[p];
    PositionIs(rest, p);
  }

  lemma OrderedFuseMap(book: Book, p: nat, s: nat, fused: Magic)
    requires DistinctIds(book.magics) && p < s < |book.magics| && fused.magicId == book.magics[p].magicId
    ensures var after := (book.magics[..s] + book.magics[s + 1..])[p := fused];
      && DistinctIds(after)
      && IdMap(after) == IdMap(book.magics)[fused.magicId := fused] - {book.magics[s].magicId}
  {
    var rest := book.magics[..s] + book.magics[s + 1..];
    var after := rest[p := fused];
    var m := IdMap(book.magics)[fused.magicId := fused] - {book.magics[s].magicId};
    forall i | 0 <= i < |after|
      ensures after[i].magicId in m && m[after[i].magicId] == after[i]
    {
      IdMapAt(book.magics, if i < s then i else i + 1);
    }
    forall id | id in m
      ensures exists i :: 0 <= i < |after| && after[i].magicId == id
    {
      IdMapKeys(book.magics, id);
      var k :| 0 <= k < |book.magics| && book.magics[k].magicId == id;
      assert after[if k < s then k else k - 1].magicId == id;
    }
    IdMapDetermined(after, m);
  }

  /** Any other accepted fuse goes wrong. Formally its write is undefined. Where a position survives the erase, as
      it does in contiguous storage, it is past the end or holds the magic after the primary, which the server
      overwrites and so loses though the rows keep it. */
  lemma DisorderedFuse(book: Book, p: nat, s: nat, fused: Magic)
    requires DistinctIds(book.magics) && s <= p < |book.magics| && fused.magicId == book.magics[p].magicId
    ensures var primaryId, secondaryId := book.magics[p].magicId, book.magics[s].magicId;
      Position(book, primaryId) == Some(p) &&
      match ServerFused(book, primaryId, secondaryId, fused)
      case None => p == |book.magics| - 1
      case Some(after) =>
        && p + 1 < |book.magics| && |after.magics| == |book.magics| - 1
        && after.magics[p] == fused
        && forall i :: 0 <= i < |after.magics| ==> after.magics[i].magicId != book.magics[p + 1].magicId
  {
    WithoutOne(book.magics, s);
    PositionIs(book, p);
    var rest := book.magics[..s] + book.magics[s + 1..];
    if p < |rest| {
      forall i | 0 <= i < |rest| && i != p
        ensures rest[i].magicId != book.magics[p + 1].magicId
      {
        assert rest[i] == book.magics[if i < s then i else i + 1];
      }
    }
  }

  /** After an accepted and committed fuse, these hold together or not at all: the server's write is defined and
      its book equals the client's; the server's write is defined and its book agrees with the rows; the primary
      preceded the secondary in the list. */
  lemma FuseExactly(book: Book, rows: Rows, primaryId: int, secondaryId: int, selected: Selector)
    requires Agrees(book, rows) && ValidFuse(book, primaryId, secondaryId)
    ensures var fused := FuseResult(book, primaryId, secondaryId, selected);
      var server := ServerFused(book, primaryId, secondaryId, fused);
      var client := ClientFused(book, primaryId, secondaryId, fused);
      var stored := RowsFused(rows, fused, secondaryId, WithoutId(book.equipped, secondaryId));
      var ordered := Position(book, primaryId).value < Position(book, secondaryId).value;
      && (ordered <==> server.Some? && server == client)
      && (ordered <==> server.Some? && Agrees(server.value, stored))
  {
    var p, s := Position(book, primaryId).value, Position(book, secondaryId).value;
    var fused := FuseResult(book, primaryId, secondaryId, selected);
    FusionKeeps(book.magics[p], book.magics[s], selected);
    IdMapAt(book.magics, p);
    if p < s {
      OrderedFuseLists(book, p, s, fused);
      OrderedFuseMap(book, p, s, fused);
    } else {
      DisorderedFuse(book, p, s, fused);
      if p + 1 < |book.magics| {
        DisorderedFuseDisagrees(book, rows, p, s, fused);
      }
    }
  }

  lemma DisorderedFuseDisagrees(book: Book, rows: Rows, p: nat, s: nat, fused: Magic)
    requires Agrees(book, rows) && s <= p && p + 1 < |book.magics| && fused.magicId == book.magics[p].magicId
    ensures var primaryId, secondaryId := book.magics[p].magicId, book.magics[s].magicId;
      var server := ServerFused(book, primaryId, secondaryId, fused);
      && Position(book, primaryId) == Some(p)
      && server.Some?
      && server != ClientFused(book, primaryId, secondaryId, fused)
      && !Agrees(server.value, RowsFused(rows, fused, secondaryId, WithoutId(book.equipped, secondaryId)))
  {
    var primaryId, secondaryId, lost := book.magics[p].magicId, book.magics[s].magicId, book.magics[p + 1].magicId;
    DisorderedFuse(book, p, s, fused);
    var server := ServerFused(book, primaryId, secondaryId, fused).value;
    IdMapAt(book.magics, p + 1);
    IdMapKeys(server.magics, lost);
    assert lost in RowsFused(rows, fused, secondaryId, WithoutId(book.equipped, secondaryId)).magics;
    ClientKeepsNeighbour(book, p, s, fused);
  }

  lemma ClientKeepsNeighbour(book: Book, p: nat, s: nat, fused: Magic)
    requires DistinctIds(book.magics) && s <= p && p + 1 < |book.magics|
    ensures var client := ClientFused(book, book.magics[p].magicId, book.magics[s].magicId, fused);
      client.Some? ==> |client.value.magics| > p && client.value.magics[p] == book.magics[p + 1]
  {
    WithoutOne(book.magics, s);
    var rest := book.magics[..s] + book.magics[s + 1..];
    assert rest[p] == book.magics[p + 1];
    assert Position(Book(rest, WithoutId(book.equipped, book.magics[s].magicId)), book.magics[p].magicId) != Some(p);
  }
}
