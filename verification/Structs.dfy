/** Plain records of the game, and the two in-place operators on battle stats. */
module Structs {
  import opened Rounding

  // A battlestats record is walked key by key (`hana::for_each` over `keys`), so it is kept as a
  // sequence indexed by key, in declaration order.
  const HP := 0
  const MP := 1
  const ATTACK_MIN := 2
  const ATTACK_MAX := 3
  const INNER_POWER := 4
  const ACCURACY := 5
  const EVASION := 6
  const SPEED := 7
  const DEFENCE := 8
  const GOLD_RES := 15
  const WOOD_RES := 16
  const WATER_RES := 17
  const FIRE_RES := 18
  const EARTH_RES := 19
  const STAT_KEYS := 24

  type Battlestats = s: seq<int> | |s| == STAT_KEYS
    witness [0, 0, 0, 0, 0, 0, 0, 0, 0, 0, 0, 0, 0, 0, 0, 0, 0, 0, 0, 0, 0, 0, 0, 0]

  const ZERO_STATS: Battlestats := [0, 0, 0, 0, 0, 0, 0, 0, 0, 0, 0, 0, 0, 0, 0, 0, 0, 0, 0, 0, 0, 0, 0, 0]

  datatype Attributes = Attributes(strength: int, dexterity: int, physique: int, spirit: int)

  datatype Player = Player(name: string, gender: char, attrs: Attributes)

  datatype Magic = Magic(
    magicId: int, name: string, active: int, multiplier: int, innerDamage: int, cd: int,
    mpCost: int, innerProperty: char, description: string, stats: Battlestats)

  datatype Character = Character(name: string, characterId: int, attrs: Attributes, stats: Battlestats)

  datatype Option<+T> = None | Some(value: T)

  function Plus(a: Battlestats, b: Battlestats): Battlestats {
    seq(STAT_KEYS, i requires 0 <= i < STAT_KEYS => a[i] + b[i])
  }

  /** One key's share under `*=`: the nearest integer, halves away from zero. */
  function Share(stat: int, multiplier: real): (r: int)
    ensures stat as real * multiplier - 0.5 <= r as real <= stat as real * multiplier + 0.5
    ensures 0.0 <= stat as real * multiplier ==> stat as real * multiplier - 0.5 < r as real
    ensures stat as real * multiplier <= 0.0 ==> r as real < stat as real * multiplier + 0.5
  {
    LRound(stat as real * multiplier)
  }

  function Scale(a: Battlestats, multiplier: real): Battlestats {
    seq(STAT_KEYS, i requires 0 <= i < STAT_KEYS => Share(a[i], multiplier))
  }

  /** `battlestats::operator+=`: every key, in place. */
  method AddAssign(lhs: array<int>, rhs: Battlestats)
    requires lhs.Length == STAT_KEYS
    modifies lhs
    ensures lhs[..] == Plus(old(lhs[..]), rhs)
    ensures forall key :: 0 <= key < STAT_KEYS ==> lhs[key] == old(lhs[key]) + rhs[key]
  {
    for key := 0 to STAT_KEYS
      invariant forall k :: 0 <= k < key ==> lhs[k] == old(lhs[k]) + rhs[k]
      invariant forall k :: key <= k < STAT_KEYS ==> lhs[k] == old(lhs[k])
    {
      lhs[key] := lhs[key] + rhs[key];
    }
  }

  /** `battlestats::operator*=`: every key, in place, rounding each product. */
  method MulAssign(lhs: array<int>, multiplier: real)
    requires lhs.Length == STAT_KEYS
    modifies lhs
    ensures lhs[..] == Scale(old(lhs[..]), multiplier)
    ensures forall key :: 0 <= key < STAT_KEYS ==>
              old(lhs[key]) as real * multiplier - 0.5 <= lhs[key] as real <= old(lhs[key]) as real * multiplier + 0.5
  {
    ghost var scaled := Scale(lhs[..], multiplier);
    for key := 0 to STAT_KEYS
      invariant forall k :: 0 <= k < key ==> lhs[k] == scaled[k]
      invariant forall k :: key <= k < STAT_KEYS ==> lhs[k] == old(lhs[k])
    {
      lhs[key] := Share(lhs[key], multiplier);
    }
  }
}
