/** How a character becomes a fighter: attributes, equipped magics and equipment summed into its stats. */
module Setup {
  import opened Structs
  import opened Fighter
  import opened Order

  function StatsComputer(attr: Attributes): Battlestats {
    ZERO_STATS[ATTACK_MIN := attr.strength * 2][ATTACK_MAX := attr.strength * 2]
      [EVASION := attr.dexterity][SPEED := attr.dexterity][ACCURACY := attr.dexterity]
      [HP := 5 * attr.physique][DEFENCE := attr.physique]
      [MP := 5 * attr.spirit][INNER_POWER := attr.spirit]
  }

  /** The learnt magics whose id is equipped, in the order they were learnt. */
  function Equipped(magics: seq<Magic>, ids: seq<int>): seq<Magic> {
    if magics == [] then []
    else
      var earlier, last := Equipped(magics[..|magics| - 1], ids), magics[|magics| - 1];
      if last.magicId in ids then earlier + [last] else earlier
  }

  /** One key summed over some parts. */
  function Sum(parts: seq<Battlestats>, key: nat): int
    requires key < STAT_KEYS
  {
    if parts == [] then 0 else Sum(parts[..|parts| - 1], key) + parts[|parts| - 1][key]
  }

  function StatsOf(magics: seq<Magic>): seq<Battlestats> {
    seq(|magics|, i requires 0 <= i < |magics| => magics[i].stats)
  }

  /** Every key of a set-up fighter is the character's own, what its attributes give, and what its equipped
      magics and its equipment add. */
  ghost predicate SetUp(f: Fightable, raw: Character, magics: seq<Magic>, equips: seq<Battlestats>, ids: seq<int>) {
    && f.charData.(stats := raw.stats) == raw
    && f.progress == 0
    && |f.magics| == |Equipped(magics, ids)|
    && (forall m :: 0 <= m < |f.magics| ==> f.magics[m] == MagicEx(0, Equipped(magics, ids)[m]))
    && (forall key :: 0 <= key < STAT_KEYS ==>
          f.Stat(key) == raw.stats[key] + StatsComputer(raw.attrs)[key]
                         + Sum(StatsOf(Equipped(magics, ids)), key) + Sum(equips, key))
  }

  method SetupSelf(raw: Character, magics: seq<Magic>, equips: seq<Battlestats>, ids: seq<int>) returns (f: Fightable)
    ensures SetUp(f, raw, magics, equips, ids)
  {
    var stats := new int[STAT_KEYS](i requires 0 <= i < STAT_KEYS => raw.stats[i]);
    AddAssign(stats, StatsComputer(raw.attrs));
    ghost var base := stats[..];
    var spells: seq<MagicEx> := [];
    for i := 0 to |magics|
      invariant |spells| == |Equipped(magics[..i], ids)|
      invariant forall m :: 0 <= m < |spells| ==> spells[m] == MagicEx(0, Equipped(magics[..i], ids)[m])
      invariant forall key :: 0 <= key < STAT_KEYS ==>
                  stats[key] == base[key] + Sum(StatsOf(Equipped(magics[..i], ids)), key)
    {
      assert magics[..i + 1][..i] == magics[..i];
      if magics[i].magicId in ids {
        var before := Equipped(magics[..i], ids);
        assert StatsOf(before + [magics[i]])[..|before|] == StatsOf(before);
        AddAssign(stats, magics[i].stats);
        spells := spells + [MagicEx(0, magics[i])];
      }
    }
    assert magics[..|magics|] == magics;
    ghost var dressed := stats[..];
    for i := 0 to |equips|
      invariant forall key :: 0 <= key < STAT_KEYS ==> stats[key] == dressed[key] + Sum(equips[..i], key)
    {
      assert equips[..i + 1][..i] == equips[..i];
      AddAssign(stats, equips[i]);
    }
    assert equips[..|equips|] == equips;
    f := Fightable(raw.(stats := stats[..]), 0, 0, 0, spells);
  }

  /** The fighter that all this determines, numbered 0 on team 0. */
  function FighterOf(raw: Character, magics: seq<Magic>, equips: seq<Battlestats>, ids: seq<int>): (f: Fightable)
    ensures SetUp(f, raw, magics, equips, ids)
  {
    var worn := Equipped(magics, ids);
    var stats: Battlestats := seq(STAT_KEYS, key requires 0 <= key < STAT_KEYS =>
      raw.stats[key] + StatsComputer(raw.attrs)[key] + Sum(StatsOf(worn), key) + Sum(equips, key));
    Fightable(raw.(stats := stats), 0, 0, 0, seq(|worn|, m requires 0 <= m < |worn| => MagicEx(0, worn[m])))
  }

  /** Whoever sets up from the same character, magics, equipment and equipped ids gets the same fighter. */
  lemma SetUpDetermines(f: Fightable, g: Fightable, raw: Character, magics: seq<Magic>, equips: seq<Battlestats>,
                        ids: seq<int>)
    requires SetUp(f, raw, magics, equips, ids) && SetUp(g, raw, magics, equips, ids)
    ensures SameEntrant(f, g)
  {
    ReorderKeepsFighter(f, g, raw, magics, equips, ids, ids);
  }

  // ---------- What each part is worth ----------

  /** Two fighters set up alike but for their characters' attributes differ by two attack for strength, by accuracy,
      evasion and speed for dexterity, by five hp and defence for physique, by five mp and inner power for spirit, and
      in nothing else. */
  lemma AttributesCount(f: Fightable, g: Fightable, raw: Character, attrs: Attributes, magics: seq<Magic>,
                        equips: seq<Battlestats>, ids: seq<int>)
    requires SetUp(f, raw, magics, equips, ids) && SetUp(g, raw.(attrs := attrs), magics, equips, ids)
    ensures g.Stat(ATTACK_MIN) - f.Stat(ATTACK_MIN) == 2 * (attrs.strength - raw.attrs.strength)
    ensures g.Stat(ATTACK_MAX) - f.Stat(ATTACK_MAX) == 2 * (attrs.strength - raw.attrs.strength)
    ensures g.Stat(ACCURACY) - f.Stat(ACCURACY) == attrs.dexterity - raw.attrs.dexterity
    ensures g.Stat(EVASION) - f.Stat(EVASION) == attrs.dexterity - raw.attrs.dexterity
    ensures g.Stat(SPEED) - f.Stat(SPEED) == attrs.dexterity - raw.attrs.dexterity
    ensures g.Stat(HP) - f.Stat(HP) == 5 * (attrs.physique - raw.attrs.physique)
    ensures g.Stat(DEFENCE) - f.Stat(DEFENCE) == attrs.physique - raw.attrs.physique
    ensures g.Stat(MP) - f.Stat(MP) == 5 * (attrs.spirit - raw.attrs.spirit)
    ensures g.Stat(INNER_POWER) - f.Stat(INNER_POWER) == attrs.spirit - raw.attrs.spirit
    ensures forall key :: DEFENCE < key < STAT_KEYS ==> g.Stat(key) == f.Stat(key)
  {
  }

  /** Attributes of 0 give nothing. */
  lemma NoAttributesGiveNothing(f: Fightable, raw: Character)
    requires raw.attrs == Attributes(0, 0, 0, 0) && SetUp(f, raw, [], [], [])
    ensures forall key :: 0 <= key < STAT_KEYS ==> f.Stat(key) == raw.stats[key]
  {
    assert Equipped([], []) == [];
  }

  /** One more magic learnt adds its stats to every key if it is equipped, and comes last among the spells; if it is
      not, it changes nothing. */
  lemma MagicCounts(f: Fightable, g: Fightable, raw: Character, magics: seq<Magic>, more: Magic,
                    equips: seq<Battlestats>, ids: seq<int>)
    requires SetUp(f, raw, magics, equips, ids) && SetUp(g, raw, magics + [more], equips, ids)
    ensures forall key :: 0 <= key < STAT_KEYS ==>
              g.Stat(key) == f.Stat(key) + if more.magicId in ids then more.stats[key] else 0
    ensures g.magics == if more.magicId in ids then f.magics + [MagicEx(0, more)] else f.magics
  {
    assert (magics + [more])[..|magics|] == magics;
    var worn := Equipped(magics, ids);
    if more.magicId in ids {
      assert StatsOf(worn + [more])[..|worn|] == StatsOf(worn);
      assert StatsOf(worn + [more])[|worn|] == more.stats;
    }
  }

  /** One more piece of equipment adds its stats to every key. */
  lemma EquipmentCounts(f: Fightable, g: Fightable, raw: Character, magics: seq<Magic>, equips: seq<Battlestats>,
                        more: Battlestats, ids: seq<int>)
    requires SetUp(f, raw, magics, equips, ids) && SetUp(g, raw, magics, equips + [more], ids)
    ensures forall key :: 0 <= key < STAT_KEYS ==> g.Stat(key) == f.Stat(key) + more[key]
    ensures g.magics == f.magics
  {
    assert (equips + [more])[..|equips|] == equips;
  }

  /** The equipped magics stand in the order they were learnt: `at` gives their places in the list, rising, and takes
      in every place whose id is equipped. */
  lemma {:induction false} LearntOrder(magics: seq<Magic>, ids: seq<int>) returns (at: seq<nat>)
    ensures |at| == |Equipped(magics, ids)|
    ensures forall i, j :: 0 <= i < j < |at| ==> at[i] < at[j]
    ensures forall i :: 0 <= i < |at| ==> at[i] < |magics| && Equipped(magics, ids)[i] == magics[at[i]]
    ensures forall k :: 0 <= k < |magics| ==> (magics[k].magicId in ids <==> k in at)
  {
    at := [];
    if magics != [] {
      var n := |magics| - 1;
      at := LearntOrder(magics[..n], ids);
      assert forall k :: 0 <= k < n ==> magics[..n][k] == magics[k];
      if magics[n].magicId in ids {
        at := at + [n];
      }
    }
  }

  lemma {:induction false} SumOrdered(parts: seq<Battlestats>, low: nat, high: nat)
    requires low < STAT_KEYS && high < STAT_KEYS
    requires forall i :: 0 <= i < |parts| ==> parts[i][low] <= parts[i][high]
    ensures Sum(parts, low) <= Sum(parts, high)
  {
    if parts != [] {
      SumOrdered(parts[..|parts| - 1], low, high);
    }
  }

  lemma {:induction false} EquippedAreLearnt(magics: seq<Magic>, ids: seq<int>, m: nat)
    requires m < |Equipped(magics, ids)|
    ensures Equipped(magics, ids)[m] in magics && Equipped(magics, ids)[m].magicId in ids
  {
    var n := |magics| - 1;
    if m < |Equipped(magics[..n], ids)| {
      EquippedAreLearnt(magics[..n], ids, m);
    }
  }

  predicate AttackRange(stats: Battlestats) { stats[ATTACK_MIN] <= stats[ATTACK_MAX] }

  /** Summing keeps the damage roll's range valid, whatever is equipped. */
  lemma SetUpKeepsAttackRange(f: Fightable, raw: Character, magics: seq<Magic>, equips: seq<Battlestats>, ids: seq<int>)
    requires SetUp(f, raw, magics, equips, ids)
    requires AttackRange(raw.stats)
    requires forall m :: m in magics ==> AttackRange(m.stats)
    requires forall i :: 0 <= i < |equips| ==> AttackRange(equips[i])
    ensures AttackRange(f.charData.stats)
  {
    var worn := Equipped(magics, ids);
    forall m | 0 <= m < |worn|
      ensures StatsOf(worn)[m][ATTACK_MIN] <= StatsOf(worn)[m][ATTACK_MAX]
    {
      EquippedAreLearnt(magics, ids, m);
      assert AttackRange(worn[m].stats);
    }
    SumOrdered(StatsOf(worn), ATTACK_MIN, ATTACK_MAX);
    SumOrdered(equips, ATTACK_MIN, ATTACK_MAX);
    assert f.Stat(ATTACK_MIN) <= f.Stat(ATTACK_MAX);
  }

  lemma {:induction false} SameIdsEquipSame(magics: seq<Magic>, ids: seq<int>, others: seq<int>)
    requires forall m :: m in magics ==> (m.magicId in ids <==> m.magicId in others)
    ensures Equipped(magics, ids) == Equipped(magics, others)
  {
    if magics != [] {
      SameIdsEquipSame(magics[..|magics| - 1], ids, others);
    }
  }

  /** Only which ids are equipped matters: neither their order nor repeats change the fighter, whose spells keep
      the order they were learnt in. */
  lemma ReorderKeepsFighter(f: Fightable, g: Fightable, raw: Character, magics: seq<Magic>, equips: seq<Battlestats>,
                            ids: seq<int>, others: seq<int>)
    requires SetUp(f, raw, magics, equips, ids) && SetUp(g, raw, magics, equips, others)
    requires forall m :: m in magics ==> (m.magicId in ids <==> m.magicId in others)
    ensures f.charData == g.charData && f.magics == g.magics
  {
    SameIdsEquipSame(magics, ids, others);
    forall key | 0 <= key < STAT_KEYS
      ensures f.charData.stats[key] == g.charData.stats[key]
    {
      assert f.Stat(key) == g.Stat(key);
    }
    assert f.charData.stats == g.charData.stats;
  }

  lemma {:induction false} LearntAreEquipped(magics: seq<Magic>, ids: seq<int>, m: Magic)
    requires m in magics && m.magicId in ids
    ensures m in Equipped(magics, ids)
  {
    var n := |magics| - 1;
    assert magics == magics[..n] + [magics[n]];
    if m in magics[..n] {
      LearntAreEquipped(magics[..n], ids, m);
    }
  }

  /** Two equipped lists give the same spells if and only if they hold the same of the learnt ids. */
  lemma ReorderChangesExactly(magics: seq<Magic>, ids: seq<int>, others: seq<int>)
    ensures Equipped(magics, ids) == Equipped(magics, others)
            <==> forall m :: m in magics ==> (m.magicId in ids <==> m.magicId in others)
  {
    if Equipped(magics, ids) == Equipped(magics, others) {
      forall m | m in magics
        ensures m.magicId in ids <==> m.magicId in others
      {
        if m.magicId in ids {
          EquippedHolds(magics, ids, others, m);
        }
        if m.magicId in others {
          EquippedHolds(magics, others, ids, m);
        }
      }
    } else if forall m :: m in magics ==> (m.magicId in ids <==> m.magicId in others) {
      SameIdsEquipSame(magics, ids, others);
    }
  }

  lemma EquippedHolds(magics: seq<Magic>, ids: seq<int>, others: seq<int>, m: Magic)
    requires Equipped(magics, ids) == Equipped(magics, others) && m in magics && m.magicId in ids
    ensures m.magicId in others
  {
    LearntAreEquipped(magics, ids, m);
    var i :| 0 <= i < |Equipped(magics, others)| && Equipped(magics, others)[i] == m;
    EquippedAreLearnt(magics, others, i);
  }

  /** What `message_createchar::validate` asks of a new character's attributes. */
  predicate ValidAttributes(attr: Attributes) {
    && attr.strength >= 0 && attr.dexterity >= 0 && attr.spirit >= 0 && attr.physique >= 0
    && attr.strength + attr.dexterity + attr.spirit + attr.physique <= 5
  }

  /** A character passes exactly when the fighter it becomes, with nothing equipped, has no stat below 0 and its attack,
      speed, defence and inner power, attack counted half, come to at most 5. */
  lemma ValidExactly(f: Fightable, raw: Character)
    requires raw.stats == ZERO_STATS && SetUp(f, raw, [], [], [])
    ensures ValidAttributes(raw.attrs)
            <==> f.Stat(ATTACK_MIN) >= 0 && f.Stat(SPEED) >= 0 && f.Stat(DEFENCE) >= 0 && f.Stat(INNER_POWER) >= 0
                 && f.Stat(ATTACK_MIN) + 2 * f.Stat(SPEED) + 2 * f.Stat(DEFENCE) + 2 * f.Stat(INNER_POWER) <= 10
  {
    assert Equipped([], []) == [];
  }

  /** Validation does not make a character fit to fight: with nothing equipped it is exactly when it has some
      dexterity, without which its speed is 0 and `ticks_calc` divides by it, and some physique, without which
      it starts dead though `go` counts it as living. */
  lemma NewcomerCanFight(f: Fightable, raw: Character)
    requires ValidAttributes(raw.attrs) && raw.stats == ZERO_STATS && SetUp(f, raw, [], [], [])
    ensures Enters(f) <==> raw.attrs.dexterity > 0 && raw.attrs.physique > 0
  {
    assert f.Stat(SPEED) == raw.attrs.dexterity && f.Stat(HP) == 5 * raw.attrs.physique;
    assert f.Stat(ATTACK_MIN) == f.Stat(ATTACK_MAX) == 2 * raw.attrs.strength;
    assert f.Stat(DEFENCE) == raw.attrs.physique;
  }

  /** One such character passes validation and cannot fight. */
  lemma ValidNewcomerThatCannotFight()
    ensures var attr := Attributes(5, 0, 0, 0); ValidAttributes(attr) && StatsComputer(attr)[SPEED] == 0
  {
  }
}
