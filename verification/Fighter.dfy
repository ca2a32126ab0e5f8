/** One combatant: how long it needs to act, which spell it picks, and what its blow deals. */
module Fighter {
  import opened Rounding
  import opened Structs

  const FIGHT_MAX_PROG := 1000
  const DEFENCE_EXTENSION := 100
  const INNER_BASE := 100

  const DEFAULT_MAGIC := Magic(0, "default", 1, 100, 0, 0, 0, 'j', "", ZERO_STATS)

  /** A spell in a fight, with the ticks left before it can be cast again. */
  datatype MagicEx = MagicEx(cd: int, realMagic: Magic) {
    function Heatup(): MagicEx { this.(cd := realMagic.cd) }

    function Cooldown(ticks: int): MagicEx { this.(cd := if cd - ticks < 0 then 0 else cd - ticks) }
  }

  datatype Fightable = Fightable(charData: Character, idx: nat, team: int, progress: int, magics: seq<MagicEx>) {
    function Stat(key: nat): int
      requires key < STAT_KEYS
    {
      charData.stats[key]
    }

    function SetStat(key: nat, value: int): Fightable
      requires key < STAT_KEYS
    {
      this.(charData := charData.(stats := charData.stats[key := value]))
    }

    predicate Living() { Stat(HP) > 0 }

    /** The progress this fighter has after waiting. */
    function Reach(wait: int): int { progress + Stat(SPEED) * wait }

    /** Ticks until this fighter can act: the least number that brings its progress to the mark. */
    function TicksCalc(): (ticks: int)
      requires Stat(SPEED) > 0
      ensures 0 <= ticks
      ensures ticks == 0 <==> FIGHT_MAX_PROG <= progress
      ensures FIGHT_MAX_PROG <= Reach(ticks)
      ensures 0 < ticks ==> Reach(ticks - 1) < FIGHT_MAX_PROG
    {
      if progress >= FIGHT_MAX_PROG then
        0
      else
        (FIGHT_MAX_PROG - progress + Stat(SPEED) - 1) / Stat(SPEED)
    }

    function ThreatCalc(): int { Stat(ATTACK_MIN) + Stat(ATTACK_MAX) }

    predicate Castable(i: nat)
      requires i < |magics|
    {
      magics[i].cd == 0 && magics[i].realMagic.mpCost < Stat(MP)
    }

    /** The first castable spell at or after position `from`. */
    function FirstCastable(from: nat): (pick: Option<nat>)
      requires from <= |magics|
      ensures pick.None? <==> forall i :: from <= i < |magics| ==> !Castable(i)
      ensures pick.Some? ==> from <= pick.value < |magics| && Castable(pick.value)
      ensures pick.Some? ==> forall i :: from <= i < pick.value ==> !Castable(i)
      decreases |magics| - from
    {
      if from == |magics| then None
      else if Castable(from) then Some(from)
      else FirstCastable(from + 1)
    }

    method PickMagicIdx() returns (pick: Option<nat>)
      ensures pick == FirstCastable(0)
    {
      var i := 0;
      while i < |magics|
        invariant i <= |magics|
        invariant FirstCastable(0) == FirstCastable(i)
      {
        if magics[i].cd == 0 && magics[i].realMagic.mpCost < Stat(MP) {
          return Some(i);
        }
        i := i + 1;
      }
      return None;
    }

    function ChosenMagic(pick: Option<nat>): Magic
      requires pick.Some? ==> pick.value < |magics|
    {
      if pick.Some? then magics[pick.value].realMagic else DEFAULT_MAGIC
    }
  }

  /** The smallest draw of `rng(0, 99)` that misses. */
  function HitThreshold(attacker: Fightable, defender: Fightable): int
    requires attacker.Stat(ACCURACY) + defender.Stat(ACCURACY) != 0
  {
    Trunc(attacker.Stat(ACCURACY) as real
          * (100.0 / (attacker.Stat(ACCURACY) + defender.Stat(ACCURACY)) as real))
  }

  predicate Evades(attacker: Fightable, defender: Fightable, hit: int)
    requires attacker.Stat(ACCURACY) + defender.Stat(ACCURACY) != 0
  {
    HitThreshold(attacker, defender) <= hit
  }

  /** The defender's resistance key against an inner property; an unknown property is fully absorbed. */
  function ResistanceKey(property: char): (key: Option<nat>)
    ensures key.Some? ==> GOLD_RES <= key.value <= EARTH_RES
  {
    match property
    case 'j' => Some(GOLD_RES)
    case 'm' => Some(WOOD_RES)
    case 's' => Some(WATER_RES)
    case 'h' => Some(FIRE_RES)
    case 't' => Some(EARTH_RES)
    case _ => None
  }

  function InnerReduction(property: char, defender: Fightable): real {
    match ResistanceKey(property)
    case Some(key) => defender.Stat(key) as real / 100.0
    case None => 1.0
  }

  function PhysicalReduction(defence: int): real
    requires defence + DEFENCE_EXTENSION != 0
  {
    defence as real / (defence + DEFENCE_EXTENSION) as real
  }

  /** What a blow that lands deals before truncation. */
  function RawDamage(attacker: Fightable, magic: Magic, defender: Fightable, roll: int): real
    requires defender.Stat(DEFENCE) + DEFENCE_EXTENSION != 0
  {
    roll as real * (magic.multiplier as real / 100.0) * (1.0 - PhysicalReduction(defender.Stat(DEFENCE)))
    + magic.innerDamage as real * (1.0 + attacker.Stat(INNER_POWER) as real / INNER_BASE as real)
      * (1.0 - InnerReduction(magic.innerProperty, defender))
  }

  /** `damage_calc` with its one or two draws given; `roll` is not looked at when the blow is evaded. */
  function DamageCalc(attacker: Fightable, magic: Magic, defender: Fightable, hit: int, roll: int): int
    requires attacker.Stat(ACCURACY) + defender.Stat(ACCURACY) != 0
    requires defender.Stat(DEFENCE) + DEFENCE_EXTENSION != 0
  {
    if Evades(attacker, defender, hit) then 0 else Trunc(RawDamage(attacker, magic, defender, roll))
  }
}
