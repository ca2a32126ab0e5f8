/** A blow written out: which draws land, and what they deal, with no reduction, key lookup or threshold in between. */
module Blow {
  import opened Rounding
  import opened Structs
  import opened Fighter
  import opened Rounds
  import opened DamageBounds

  /** The part of a blow's inner damage that the defender's resistances let through, in hundredths: gold against 'j',
      wood against 'm', water against 's', fire against 'h', earth against 't', and nothing of any other property. */
  lemma InnerShare(property: char, d: Fightable)
    ensures property == 'j' ==> 1.0 - InnerReduction(property, d) == (100 - d.Stat(GOLD_RES)) as real / 100.0
    ensures property == 'm' ==> 1.0 - InnerReduction(property, d) == (100 - d.Stat(WOOD_RES)) as real / 100.0
    ensures property == 's' ==> 1.0 - InnerReduction(property, d) == (100 - d.Stat(WATER_RES)) as real / 100.0
    ensures property == 'h' ==> 1.0 - InnerReduction(property, d) == (100 - d.Stat(FIRE_RES)) as real / 100.0
    ensures property == 't' ==> 1.0 - InnerReduction(property, d) == (100 - d.Stat(EARTH_RES)) as real / 100.0
    ensures property != 'j' && property != 'm' && property != 's' && property != 'h' && property != 't' ==>
              1.0 - InnerReduction(property, d) == 0.0
  {
  }

  lemma PhysicalShare(defence: int)
    requires defence + 100 != 0
    ensures 1.0 - PhysicalReduction(defence) == 100.0 / (defence + 100) as real
  {
    var x := (defence + 100) as real;
    assert PhysicalReduction(defence) == defence as real / x;
    assert (1.0 - PhysicalReduction(defence)) * x == 100.0;
  }

  predicate Lands(attacker: int, defender: int, hit: nat) {
    if attacker + defender > 0 then (hit + 1) * (attacker + defender) <= 100 * attacker
    else (hit + 1) * (attacker + defender) >= 100 * attacker
  }

  function Physical(roll: int, multiplier: int, defence: int): real
    requires defence + 100 != 0
  {
    (roll * multiplier) as real / (defence + 100) as real
  }

  function Inner(innerDamage: int, power: int): real { (innerDamage * (100 + power)) as real / 100.0 }

  /** The resistance key that goes with a property, if it is one of the five. */
  predicate Matches(property: char, key: nat) {
    || (property == 'j' && key == GOLD_RES)
    || (property == 'm' && key == WOOD_RES)
    || (property == 's' && key == WATER_RES)
    || (property == 'h' && key == FIRE_RES)
    || (property == 't' && key == EARTH_RES)
  }

  /** The share of the inner damage that comes through: what the matching resistance leaves of a hundred, and nothing
      for a property that none matches. */
  ghost predicate LetsThrough(property: char, d: Fightable, share: real) {
    && (forall key :: GOLD_RES <= key <= EARTH_RES && Matches(property, key) ==>
          share == (100 - d.Stat(key)) as real / 100.0)
    && (property != 'j' && property != 'm' && property != 's' && property != 'h' && property != 't' ==> share == 0.0)
  }

  /** The law of a blow. It lands if the draw's successor, out of a hundred, is at most the attacker's share of the two
      accuracies. It then deals the roll times the multiplier, over the defender's defence and a hundred, and that
      share of the inner damage, which the attacker's inner power raises. */
  ghost predicate Deals(a: Fightable, magic: Magic, d: Fightable, hit: nat, roll: int, share: real, damage: int)
    requires d.Stat(DEFENCE) + 100 != 0
  {
    && LetsThrough(magic.innerProperty, d, share)
    && damage == if !Lands(a.Stat(ACCURACY), d.Stat(ACCURACY), hit) then 0
                 else Trunc(Physical(roll, magic.multiplier, d.Stat(DEFENCE))
                            + Inner(magic.innerDamage, a.Stat(INNER_POWER)) * share)
  }

  lemma PhysicalPart(roll: int, multiplier: int, defence: int)
    requires defence + 100 != 0
    ensures roll as real * (multiplier as real / 100.0) * (1.0 - PhysicalReduction(defence))
            == Physical(roll, multiplier, defence)
  {
    PhysicalShare(defence);
    var r, m, x := roll as real, multiplier as real, (defence + 100) as real;
    assert (roll * multiplier) as real == r * m;
    Quotient(r * m, x);
    assert r * (m / 100.0) * (100.0 / x) * x == r * m;
    assert (r * m) / x * x == r * m;
    Cancel(r * (m / 100.0) * (100.0 / x), (r * m) / x, x);
  }

  lemma Quotient(a: real, x: real)
    requires x != 0.0
    ensures a / x * x == a
  {
  }

  lemma Cancel(a: real, b: real, x: real)
    requires x != 0.0 && a * x == b * x
    ensures a == b
  {
  }

  lemma InnerPart(innerDamage: int, power: int)
    ensures innerDamage as real * (1.0 + power as real / 100.0) == Inner(innerDamage, power)
  {
    assert (innerDamage * (100 + power)) as real == innerDamage as real * (100.0 + power as real);
  }

  lemma RawParts(a: Fightable, magic: Magic, d: Fightable, roll: int)
    requires d.Stat(DEFENCE) + 100 != 0
    ensures RawDamage(a, magic, d, roll)
            == Physical(roll, magic.multiplier, d.Stat(DEFENCE))
               + Inner(magic.innerDamage, a.Stat(INNER_POWER)) * (1.0 - InnerReduction(magic.innerProperty, d))
  {
    PhysicalPart(roll, magic.multiplier, d.Stat(DEFENCE));
    InnerPart(magic.innerDamage, a.Stat(INNER_POWER));
  }

  lemma LandsOrNot(a: Fightable, d: Fightable, hit: nat)
    requires a.Stat(ACCURACY) + d.Stat(ACCURACY) != 0
    ensures Evades(a, d, hit) <==> !Lands(a.Stat(ACCURACY), d.Stat(ACCURACY), hit)
  {
    LandsExactly(a, d, hit);
  }

  lemma ShareOf(property: char, d: Fightable) returns (share: real)
    ensures share == 1.0 - InnerReduction(property, d) && LetsThrough(property, d, share)
  {
    share := 1.0 - InnerReduction(property, d);
    InnerShare(property, d);
  }

  lemma LandedDamage(a: Fightable, magic: Magic, d: Fightable, hit: nat, roll: int, share: real)
    requires a.Stat(ACCURACY) + d.Stat(ACCURACY) != 0 && d.Stat(DEFENCE) + 100 != 0 && !Evades(a, d, hit)
    requires share == 1.0 - InnerReduction(magic.innerProperty, d)
    ensures DamageCalc(a, magic, d, hit, roll)
            == Trunc(Physical(roll, magic.multiplier, d.Stat(DEFENCE))
                     + Inner(magic.innerDamage, a.Stat(INNER_POWER)) * share)
  {
    RawParts(a, magic, d, roll);
    assert DamageCalc(a, magic, d, hit, roll) == Trunc(RawDamage(a, magic, d, roll));
  }

  /** The engine's damage obeys it, whatever is drawn and whatever the stats are. */
  lemma DamageObeysLaw(a: Fightable, magic: Magic, d: Fightable, hit: nat, roll: int) returns (share: real)
    requires a.Stat(ACCURACY) + d.Stat(ACCURACY) != 0 && d.Stat(DEFENCE) + 100 != 0
    ensures Deals(a, magic, d, hit, roll, share, DamageCalc(a, magic, d, hit, roll))
  {
    share := ShareOf(magic.innerProperty, d);
    LandsOrNot(a, d, hit);
    if !Evades(a, d, hit) {
      LandedDamage(a, magic, d, hit, roll, share);
    }
  }

  /** A landed blow meets a matching resistance of 100 with its physical part alone, and one of 0 undiminished. */
  lemma MatchingResistance(a: Fightable, magic: Magic, d: Fightable, hit: nat, roll: int, key: nat)
    requires a.Stat(ACCURACY) + d.Stat(ACCURACY) != 0 && d.Stat(DEFENCE) + 100 != 0
    requires GOLD_RES <= key <= EARTH_RES && Matches(magic.innerProperty, key)
    requires Lands(a.Stat(ACCURACY), d.Stat(ACCURACY), hit)
    ensures var physical, inner := Physical(roll, magic.multiplier, d.Stat(DEFENCE)),
                                   Inner(magic.innerDamage, a.Stat(INNER_POWER));
      && (d.Stat(key) == 100 ==> DamageCalc(a, magic, d, hit, roll) == Trunc(physical))
      && (d.Stat(key) == 0 ==> DamageCalc(a, magic, d, hit, roll) == Trunc(physical + inner))
  {
    var share := ShareOf(magic.innerProperty, d);
    LandsOrNot(a, d, hit);
    LandedDamage(a, magic, d, hit, roll, share);
    AllOrNothing(Inner(magic.innerDamage, a.Stat(INNER_POWER)), share);
  }

  lemma AllOrNothing(x: real, share: real)
    ensures share == 0.0 ==> x * share == 0.0
    ensures share == 1.0 ==> x * share == x
  {
  }

  /** The other four change nothing, and none of the five does for a property that is not one of theirs. */
  lemma OtherResistances(a: Fightable, magic: Magic, d: Fightable, hit: nat, roll: int, key: nat, value: int)
    requires a.Stat(ACCURACY) + d.Stat(ACCURACY) != 0 && d.Stat(DEFENCE) + 100 != 0
    requires GOLD_RES <= key <= EARTH_RES && !Matches(magic.innerProperty, key)
    ensures DamageCalc(a, magic, d.SetStat(key, value), hit, roll) == DamageCalc(a, magic, d, hit, roll)
  {
    var d' := d.SetStat(key, value);
    assert d'.Stat(ACCURACY) == d.Stat(ACCURACY) && d'.Stat(DEFENCE) == d.Stat(DEFENCE);
    assert HitThreshold(a, d) == HitThreshold(a, d');
    assert InnerReduction(magic.innerProperty, d) == InnerReduction(magic.innerProperty, d');
    assert RawDamage(a, magic, d, roll) == RawDamage(a, magic, d', roll);
  }

  /** In a round of a fight it is the attacker's blow on the target, with the spell cast or else a plain blow of
      multiplier 100 and no inner damage. */
  lemma RoundObeysLaw(s: State, hit: nat, roll: int) returns (share: real)
    requires Fit(s) && !Over(s)
    ensures var a, d, spell := s.all[Attacker(s)], s.all[Defender(s)], Spell(s);
      var plain := Magic(0, "default", 1, 100, 0, 0, 0, 'j', "", ZERO_STATS);
      && d.Stat(DEFENCE) + 100 != 0
      && Deals(a, if spell.Some? then a.magics[spell.value].realMagic else plain, d, hit, roll, share,
               Damage(s, hit, roll))
  {
    var a, d := s.all[Attacker(s)], s.all[Defender(s)];
    assert FitFighter(d) && a.Stat(ACCURACY) + d.Stat(ACCURACY) != 0;
    share := DamageObeysLaw(a, a.ChosenMagic(Spell(s)), d, hit, roll);
  }
}
