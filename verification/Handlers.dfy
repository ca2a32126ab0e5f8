/** The handlers of learn, fuse and reorder as they run: statements on the stored rows, then the session's
    memory, then the client's. */
module Handlers {
  import Fighter
  import opened Structs
  import opened Util
  import opened Fusion
  import opened SpellBook
  import opened Commands

  /** The statements of the fuse transaction, any of which may fail. */
  datatype Stage = Begin | Update | Delete | Upsert | Commit

  class DbAccessor {
    /** player_magic, whose primary key is (character_name, magic_id). */
    var playerMagic: map<string, map<int, Magic>>
    /** character_equipped_magic, whose primary key is character_name. */
    var equippedMagic: map<string, seq<int>>

    function MagicsOf(name: string): map<int, Magic>
      reads this
    {
      if name in playerMagic then playerMagic[name] else map[]
    }

    function RowsOf(name: string): Rows
      reads this
    {
      Rows(MagicsOf(name), if name in equippedMagic then Some(equippedMagic[name]) else None)
    }

    method CreateMagic(name: string, magic: Magic, fails: bool) returns (ok: bool)
      modifies this
      ensures ok <==> !fails && RowsLearnt(old(RowsOf(name)), magic).Some?
      ensures ok ==> RowsOf(name) == RowsLearnt(old(RowsOf(name)), magic).value
      ensures !ok ==> RowsOf(name) == old(RowsOf(name))
      ensures ok <==> !fails && magic.magicId !in old(MagicsOf(name))
      ensures ok ==> MagicsOf(name) == old(MagicsOf(name))[magic.magicId := magic]
                     && equippedMagic == old(equippedMagic)
      ensures forall other :: other != name ==> RowsOf(other) == old(RowsOf(other))
    {
      if fails || magic.magicId in MagicsOf(name) {
        return false;
      }
      playerMagic := playerMagic[name := MagicsOf(name)[magic.magicId := magic]];
      return true;
    }

    /** Update, delete, upsert in a transaction: all of them at the commit, or none. */
    method FuseMagic(name: string, magic: Magic, deleteId: int, ids: seq<int>, failsAt: Option<Stage>)
      returns (ok: bool)
      modifies this
      ensures ok <==> failsAt == None
      ensures RowsOf(name) == if ok then RowsFused(old(RowsOf(name)), magic, deleteId, ids) else old(RowsOf(name))
      ensures ok ==> equippedMagic == old(equippedMagic)[name := ids]
      ensures ok ==> forall id :: id in MagicsOf(name) <==> id in old(MagicsOf(name)) && id != deleteId
      ensures ok ==> forall id :: id in MagicsOf(name) ==>
                MagicsOf(name)[id] == if id == magic.magicId then magic else old(MagicsOf(name))[id]
      ensures forall other :: other != name ==> RowsOf(other) == old(RowsOf(other))
    {
      if failsAt == Some(Begin) {
        return false;
      }
      var magics, equipped := playerMagic, equippedMagic;
      if failsAt == Some(Update) {
        return false;
      }
      if magic.magicId in MagicsOf(name) {
        magics := magics[name := MagicsOf(name)[magic.magicId := magic]];
      }
      if failsAt == Some(Delete) {
        return false;
      }
      if name in magics {
        magics := magics[name := magics[name] - {deleteId}];
      }
      if failsAt == Some(Upsert) {
        return false;
      }
      equipped := equipped[name := ids];
      if failsAt.Some? {
        return false;
      }
      playerMagic, equippedMagic := magics, equipped;
      return true;
    }

    method EquipMagics(name: string, ids: seq<int>, fails: bool) returns (ok: bool)
      modifies this
      ensures ok <==> !fails
      ensures RowsOf(name) == if ok then RowsEquipped(old(RowsOf(name)), ids) else old(RowsOf(name))
      ensures ok ==> equippedMagic == old(equippedMagic)[name := ids] && playerMagic == old(playerMagic)
      ensures forall other :: other != name ==> RowsOf(other) == old(RowsOf(other))
    {
      if fails {
        return false;
      }
      equippedMagic := equippedMagic[name := ids];
      return true;
    }
  }

  class ServerProcessor {
    const data: GameData
    const db: DbAccessor
    const name: string
    var book: Book

    constructor (data: GameData, db: DbAccessor, name: string, book: Book)
      ensures this.data == data && this.db == db && this.name == name && this.book == book
    {
      this.data, this.db, this.name, this.book := data, db, name, book;
    }

    method LearnMagic(staticId: int, fails: bool) returns (success: bool, magic: Magic)
      requires Accepted(data, book, Learn(staticId))
      modifies this, db
      ensures ServerStep(data, old(book), old(db.RowsOf(name)), Learn(staticId), fails)
              == Some((book, db.RowsOf(name)))
      ensures success <==> !fails && RowsLearnt(old(db.RowsOf(name)), AsLearnt(data[staticId])).Some?
      ensures magic == AsLearnt(data[staticId])
      ensures success ==> book == Book(old(book.magics) + [magic], old(book.equipped))
                          && db.MagicsOf(name) == old(db.MagicsOf(name))[magic.magicId := magic]
      ensures !success ==> book == old(book) && db.RowsOf(name) == old(db.RowsOf(name))
      ensures forall other :: other != name ==> db.RowsOf(other) == old(db.RowsOf(other))
    {
      magic := data[staticId];
      if magic.description == "" {
        magic := magic.(description := magic.name);
      }
      success := db.CreateMagic(name, magic, fails);
      if !success {
        return;
      }
      book := book.(magics := book.magics + [magic]);
    }

    /** `defined` is false when the handler wrote past the end of its list; nothing is said of the session then. */
    method FuseMagic(primaryId: int, secondaryId: int, selected: Selector, failsAt: Option<Stage>)
      returns (success: bool, magic: Magic, defined: bool)
      requires Accepted(data, book, Fuse(primaryId, secondaryId, selected))
      modifies this, db
      ensures success <==> failsAt == None
      ensures magic == FuseResult(old(book), primaryId, secondaryId, selected)
      ensures var next := ServerStep(data, old(book), old(db.RowsOf(name)), Fuse(primaryId, secondaryId, selected),
                                     failsAt != None);
        && (defined <==> next.Some?)
        && (defined ==> next.value == (book, db.RowsOf(name)))
      ensures !success ==> book == old(book) && db.RowsOf(name) == old(db.RowsOf(name))
      ensures success ==> db.RowsOf(name).equipped == Some(WithoutId(old(book.equipped), secondaryId))
      ensures forall other :: other != name ==> db.RowsOf(other) == old(db.RowsOf(other))
    {
      var primary := FindIf(book.magics, (m: Magic) => m.magicId == primaryId);
      var secondary := FindIf(book.magics, (m: Magic) => m.magicId == secondaryId);
      magic := Fusion.Fuse(book.magics[primary.value], book.magics[secondary.value], selected);
      var equipped := VectorRemove(book.equipped, id => id == secondaryId);
      defined := true;
      success := db.FuseMagic(name, magic, secondaryId, equipped, failsAt);
      if !success {
        return;
      }
      var magics := VectorRemove(book.magics, (m: Magic) => m.magicId == secondaryId);
      defined := primary.value < |magics|;
      if defined {
        magics := magics[primary.value := magic];
      }
      book := Book(magics, equipped);
    }

    method ReorderMagic(ids: seq<int>, fails: bool) returns (success: bool)
      requires Accepted(data, book, Reorder(ids))
      modifies this, db
      ensures ServerStep(data, old(book), old(db.RowsOf(name)), Reorder(ids), fails) == Some((book, db.RowsOf(name)))
      ensures success <==> !fails
      ensures success ==> book == Book(old(book.magics), ids)
                          && db.RowsOf(name) == old(db.RowsOf(name)).(equipped := Some(ids))
      ensures !success ==> book == old(book) && db.RowsOf(name) == old(db.RowsOf(name))
      ensures forall other :: other != name ==> db.RowsOf(other) == old(db.RowsOf(other))
    {
      success := db.EquipMagics(name, ids, fails);
      if !success {
        return;
      }
      book := book.(equipped := ids);
    }
  }

  class ClientProcessor {
    var book: Book

    constructor (book: Book)
      ensures this.book == book
    {
      this.book := book;
    }

    method LearnMagic(success: bool, magic: Magic)
      modifies this
      ensures book == if success then ClientStep(old(book), Learn(magic.magicId), magic).value else old(book)
      ensures book == if success then Book(old(book.magics) + [magic], old(book.equipped)) else old(book)
    {
      if success {
        book := book.(magics := book.magics + [magic]);
      }
    }

    /** `defined` is false when the primary was not found again and the handler wrote through the end. */
    method FuseMagic(success: bool, primaryId: int, secondaryId: int, selected: Selector, magic: Magic)
      returns (defined: bool)
      modifies this
      ensures !success ==> defined && book == old(book)
      ensures success ==>
                var next := ClientStep(old(book), Fuse(primaryId, secondaryId, selected), magic);
                && (defined <==> next.Some?) && (defined ==> book == next.value)
    {
      if !success {
        return true;
      }
      var magics := VectorRemove(book.magics, (m: Magic) => m.magicId == secondaryId);
      var equipped := VectorRemove(book.equipped, id => id == secondaryId);
      var slot := FindIf(magics, (m: Magic) => m.magicId == primaryId);
      defined := slot.Some?;
      if defined {
        magics := magics[slot.value := magic];
      }
      book := Book(magics, equipped);
    }

    method ReorderMagic(success: bool, ids: seq<int>)
      modifies this
      ensures book == if success then ClientStep(old(book), Reorder(ids), Fighter.DEFAULT_MAGIC).value else old(book)
      ensures book == if success then Book(old(book.magics), ids) else old(book)
    {
      if success {
        book := book.(equipped := ids);
      }
    }
  }

  /** `message_reordermagic::validate` for a session in game: it accepts exactly the legal loadouts. The check on
      the number of entries adds nothing. */
  method ValidateReorder(magics: seq<Magic>, ids: seq<int>) returns (ok: bool)
    ensures ok <==> LoadoutOk(IdMap(magics), ids)
    ensures ok <==> (forall i :: 0 <= i < |ids| ==> ids[i] in IdMap(magics))
                    && |PassiveEntries(IdMap(magics), ids)| <= 1 && |ActiveEntries(IdMap(magics), ids)| <= 5
  {
    LoadoutExactly(IdMap(magics), ids);
    if |ids| > 6 {
      return false;
    }
    var index: map<int, nat> := map[];
    for i := 0 to |magics|
      invariant index.Keys == IdMap(magics[..i]).Keys
      invariant forall id :: id in index ==> index[id] < i && magics[index[id]] == IdMap(magics[..i])[id]
    {
      assert magics[..i + 1][..i] == magics[..i];
      index := index[magics[i].magicId := i];
    }
    assert magics[..|magics|] == magics;
    var passives := 0;
    for i := 0 to |ids|
      invariant forall k :: 0 <= k < i ==> ids[k] in index
      invariant passives == Passives(IdMap(magics), ids[..i])
    {
      assert ids[..i + 1][..i] == ids[..i];
      var id := ids[i];
      IdMapKeys(magics, id);
      if id !in index {
        return false;
      }
      if magics[index[id]].active == 0 {
        passives := passives + 1;
      }
    }
    assert ids[..|ids|] == ids;
    return passives <= 1 && |ids| - passives <= 5;
  }
}
