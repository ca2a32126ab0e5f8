/** Fusing one magic into another. */
module Fusion {
  import opened Rounding
  import opened Structs
  import opened Setup

  /** The main attribute that the weighted draw picked; any of them may be. */
  datatype Selector = Strength | Dexterity | Physique | Spirit

  /** The stats a main attribute prefers. */
  predicate Prefers(selected: Selector, key: nat) {
    match selected
    case Strength => key == ATTACK_MIN || key == ATTACK_MAX
    case Dexterity => key == ACCURACY || key == EVASION || key == SPEED
    case Physique => key == HP || key == DEFENCE
    case Spirit => key == MP || key == INNER_POWER
  }

  /** What one stat of the secondary adds to the primary's. */
  function Gain(stat: int, preferred: bool): int {
    Share(stat, 0.05) + if preferred then Share(stat, 0.15) else 0
  }

  function Gains(stats: Battlestats, selected: Selector): Battlestats {
    seq(STAT_KEYS, key requires 0 <= key < STAT_KEYS => Gain(stats[key], Prefers(selected, key)))
  }

  function Fused(primary: Magic, secondary: Magic, selected: Selector): Magic {
    primary.(stats := Plus(primary.stats, Gains(secondary.stats, selected)),
             innerDamage := primary.innerDamage + Share(secondary.innerDamage, 0.05),
             multiplier := primary.multiplier + Share(secondary.multiplier - 100, 0.05))
  }

  method ExtraStats(stats: array<int>, key: nat, secondary: int)
    requires key < stats.Length
    modifies stats
    ensures stats[..] == old(stats[..])[key := old(stats[key]) + Share(secondary, 0.15)]
  {
    stats[key] := stats[key] + Share(secondary, 0.15);
  }

  function Topped(gains: Battlestats, from: Battlestats, selected: Selector): Battlestats {
    seq(STAT_KEYS, key requires 0 <= key < STAT_KEYS =>
      gains[key] + if Prefers(selected, key) then Share(from[key], 0.15) else 0)
  }

  method TopUp(gains: array<int>, from: Battlestats, selected: Selector)
    requires gains.Length == STAT_KEYS
    modifies gains
    ensures gains[..] == Topped(old(gains[..]), from, selected)
  {
    match selected {
      case Strength =>
        ExtraStats(gains, ATTACK_MIN, from[ATTACK_MIN]);
        ExtraStats(gains, ATTACK_MAX, from[ATTACK_MAX]);
      case Dexterity =>
        ExtraStats(gains, ACCURACY, from[ACCURACY]);
        ExtraStats(gains, EVASION, from[EVASION]);
        ExtraStats(gains, SPEED, from[SPEED]);
      case Physique =>
        ExtraStats(gains, HP, from[HP]);
        ExtraStats(gains, DEFENCE, from[DEFENCE]);
      case Spirit =>
        ExtraStats(gains, MP, from[MP]);
        ExtraStats(gains, INNER_POWER, from[INNER_POWER]);
    }
  }

  lemma ToppedScaleIsGains(from: Battlestats, selected: Selector)
    ensures Topped(Scale(from, 0.05), from, selected) == Gains(from, selected)
  {
  }

  /** The secondary's stats scaled down, and topped up where the selected attribute prefers it. */
  method ComputeGains(from: Battlestats, selected: Selector) returns (gains: Battlestats)
    ensures gains == Gains(from, selected)
  {
    var stats := new int[STAT_KEYS](i requires 0 <= i < STAT_KEYS => from[i]);
    assert stats[..] == from;
    MulAssign(stats, 0.05);
    TopUp(stats, from, selected);
    ToppedScaleIsGains(from, selected);
    gains := stats[..];
  }

  /** What the secondary gives is added to the primary. */
  method Fuse(primary: Magic, secondary: Magic, selected: Selector) returns (fused: Magic)
    ensures fused == Fused(primary, secondary, selected)
  {
    var gains := ComputeGains(secondary.stats, selected);
    var stats := new int[STAT_KEYS](i requires 0 <= i < STAT_KEYS => primary.stats[i]);
    assert stats[..] == primary.stats;
    AddAssign(stats, gains);
    fused := primary.(
      stats := stats[..],
      innerDamage := primary.innerDamage + Share(secondary.innerDamage, 0.05),
      multiplier := primary.multiplier + Share(secondary.multiplier - 100, 0.05));
  }

  /** A stat that the drawn attribute prefers (attack for strength; accuracy, evasion and speed for dexterity; hp and
      defence for physique; mp and inner power for spirit) gains within 1 of a fifth of the secondary's, any other
      within a half of a twentieth: the rounded twentieth, and on top of it the rounded three twentieths. */
  lemma FusionGains(primary: Magic, secondary: Magic, selected: Selector, key: nat)
    requires key < STAT_KEYS
    ensures var preferred := (selected == Strength && key in {ATTACK_MIN, ATTACK_MAX})
                             || (selected == Dexterity && key in {ACCURACY, EVASION, SPEED})
                             || (selected == Physique && key in {HP, DEFENCE})
                             || (selected == Spirit && key in {MP, INNER_POWER});
      var x, gain := secondary.stats[key], Fused(primary, secondary, selected).stats[key] - primary.stats[key];
      && gain == LRound(x as real * 0.05) + (if preferred then LRound(x as real * 0.15) else 0)
      && (preferred ==> 0.2 * x as real - 1.0 <= gain as real <= 0.2 * x as real + 1.0)
      && (!preferred ==> 0.05 * x as real - 0.5 <= gain as real <= 0.05 * x as real + 0.5)
  {
  }

  /** The fused magic's inner damage and multiplier rise by a rounded twentieth of the secondary's, the multiplier's
      counted from 100; all but these two and the stats is the primary's. */
  lemma FusionGrows(primary: Magic, secondary: Magic, selected: Selector)
    ensures var fused := Fused(primary, secondary, selected);
      var inner, multiplier := secondary.innerDamage as real / 20.0, (secondary.multiplier - 100) as real / 20.0;
      && inner - 0.5 <= (fused.innerDamage - primary.innerDamage) as real <= inner + 0.5
      && multiplier - 0.5 <= (fused.multiplier - primary.multiplier) as real <= multiplier + 0.5
      && fused.innerDamage == primary.innerDamage + LRound(inner)
      && fused.multiplier == primary.multiplier + LRound(multiplier)
      && fused.(stats := primary.stats, innerDamage := primary.innerDamage, multiplier := primary.multiplier) == primary
  {
    assert secondary.innerDamage as real / 20.0 == secondary.innerDamage as real * 0.05;
    assert (secondary.multiplier - 100) as real / 20.0 == (secondary.multiplier - 100) as real * 0.05;
  }

  lemma GainMonotone(low: int, high: int, preferred: bool)
    requires low <= high
    ensures Gain(low, preferred) <= Gain(high, preferred)
  {
    LRoundMonotone(low as real * 0.05, high as real * 0.05);
    LRoundMonotone(low as real * 0.15, high as real * 0.15);
  }

  /** Fusion keeps the attack range valid, and who the primary is: id, kind, cooldown, cost and property. */
  lemma FusionKeeps(primary: Magic, secondary: Magic, selected: Selector)
    ensures var fused := Fused(primary, secondary, selected);
      && fused.magicId == primary.magicId && fused.active == primary.active && fused.cd == primary.cd
      && fused.mpCost == primary.mpCost && fused.innerProperty == primary.innerProperty
      && (AttackRange(primary.stats) && AttackRange(secondary.stats) ==> AttackRange(fused.stats))
  {
    if AttackRange(secondary.stats) {
      GainMonotone(secondary.stats[ATTACK_MIN], secondary.stats[ATTACK_MAX], selected == Strength);
    }
  }
}
