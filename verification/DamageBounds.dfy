/** What a blow can deal, over exact reals. */
module DamageBounds {
  import opened Rounding
  import opened Structs
  import opened Fighter

  lemma Scaled(x: real, y: real, k: real)
    requires x <= y && 0.0 <= k
    ensures x * k <= y * k && k * x <= k * y
  {
  }

  /** The share of a blow that a reduction in [0, 1] leaves. */
  lemma Reduced(blow: real, reduction: real)
    requires 0.0 <= blow && 0.0 <= reduction <= 1.0
    ensures 0.0 <= blow * (1.0 - reduction) <= blow
  {
    Scaled(0.0, blow, 1.0 - reduction);
    Scaled(1.0 - reduction, 1.0, blow);
  }

  lemma PhysicalReductionRange(defence: int)
    requires 0 <= defence
    ensures 0.0 <= PhysicalReduction(defence) < 1.0
  {
    var d := (defence + DEFENCE_EXTENSION) as real;
    assert PhysicalReduction(defence) * d == defence as real;
  }

  lemma PhysicalReductionRises(less: int, more: int)
    requires 0 <= less <= more
    ensures PhysicalReduction(less) <= PhysicalReduction(more)
  {
    var x, y, c := less as real, more as real, DEFENCE_EXTENSION as real;
    var p, q := PhysicalReduction(less), PhysicalReduction(more);
    assert p == 1.0 - c / (x + c) by {
      assert p * (x + c) == x;
      assert (1.0 - c / (x + c)) * (x + c) == x;
    }
    assert q == 1.0 - c / (y + c) by {
      assert q * (y + c) == y;
      assert (1.0 - c / (y + c)) * (y + c) == y;
    }
    ShareFalls(c, x + c, y + c);
  }

  lemma ShareFalls(c: real, x: real, y: real)
    requires 0.0 < c && 0.0 < x <= y
    ensures c / y <= c / x
  {
    assert c / y * y == c && c / x * x == c;
    if c / y > c / x {
      Scaled(c / x, c / y, y);
      Scaled(x, y, c / x);
    }
  }

  /** The hit threshold of fighters with accuracy is a percentage. */
  lemma HitThresholdIsPercentage(attacker: Fightable, defender: Fightable)
    requires 0 <= attacker.Stat(ACCURACY) && 0 <= defender.Stat(ACCURACY)
    requires 0 < attacker.Stat(ACCURACY) + defender.Stat(ACCURACY)
    ensures 0 <= HitThreshold(attacker, defender) <= 100
  {
    var a, n := attacker.Stat(ACCURACY) as real, (attacker.Stat(ACCURACY) + defender.Stat(ACCURACY)) as real;
    var x := a * (100.0 / n);
    assert x == 100.0 * (a / n);
    assert a / n * n == a;
    assert 0.0 <= a / n <= 1.0;
    TruncMonotone(0.0, x);
    TruncMonotone(x, 100.0);
    assert Trunc(100.0) == 100;
  }

  lemma BelowTrunc(hit: nat, x: real)
    ensures hit < Trunc(x) <==> (hit + 1) as real <= x
  {
  }

  lemma ShareTimes(a: int, n: int) returns (x: real)
    requires n != 0
    ensures x == a as real * (100.0 / n as real) && x * n as real == (100 * a) as real
  {
    x := a as real * (100.0 / n as real);
    assert 100.0 / n as real * n as real == 100.0;
  }

  lemma ComparedInt(k: int, x: real, n: int, b: int)
    requires n != 0 && x * n as real == b as real
    ensures k as real <= x <==> if n > 0 then k * n <= b else k * n >= b
  {
    assert (k * n) as real == k as real * n as real;
    Compared(k as real, x, n as real);
  }

  /** The accuracy rule without division: a draw of `hit` lands exactly when its successor, out of a hundred, is at
      most the attacker's share of the two accuracies. */
  lemma LandsExactly(attacker: Fightable, defender: Fightable, hit: nat)
    requires attacker.Stat(ACCURACY) + defender.Stat(ACCURACY) != 0
    ensures var a, n := attacker.Stat(ACCURACY), attacker.Stat(ACCURACY) + defender.Stat(ACCURACY);
      !Evades(attacker, defender, hit) <==> if n > 0 then (hit + 1) * n <= 100 * a else (hit + 1) * n >= 100 * a
  {
    var a, n := attacker.Stat(ACCURACY), attacker.Stat(ACCURACY) + defender.Stat(ACCURACY);
    var x := ShareTimes(a, n);
    BelowTrunc(hit, x);
    ComparedInt(hit + 1, x, n, 100 * a);
  }

  lemma Compared(x: real, y: real, k: real)
    requires k != 0.0
    ensures x <= y <==> if k > 0.0 then x * k <= y * k else y * k <= x * k
  {
    assert (y - x) * k == y * k - x * k;
  }

  /** Magic and fighters for which no part of a blow is negative. */
  ghost predicate Ordinary(attacker: Fightable, magic: Magic, defender: Fightable) {
    && 0 <= magic.multiplier && 0 <= magic.innerDamage && 0 <= attacker.Stat(INNER_POWER)
    && 0 <= defender.Stat(DEFENCE)
    && (ResistanceKey(magic.innerProperty).Some? ==>
          0 <= defender.Stat(ResistanceKey(magic.innerProperty).value) <= 100)
  }

  function PhysicalBlow(magic: Magic, roll: int): real { roll as real * (magic.multiplier as real / 100.0) }

  function InnerBlow(attacker: Fightable, magic: Magic): real {
    magic.innerDamage as real * (1.0 + attacker.Stat(INNER_POWER) as real / INNER_BASE as real)
  }

  lemma BlowsNonNegative(attacker: Fightable, magic: Magic, defender: Fightable, roll: int)
    requires Ordinary(attacker, magic, defender) && 0 <= roll
    ensures 0.0 <= PhysicalBlow(magic, roll) && 0.0 <= InnerBlow(attacker, magic)
    ensures 0.0 <= PhysicalReduction(defender.Stat(DEFENCE)) <= 1.0
    ensures 0.0 <= InnerReduction(magic.innerProperty, defender) <= 1.0
  {
    Scaled(0.0, roll as real, magic.multiplier as real / 100.0);
    Scaled(0.0, magic.innerDamage as real, 1.0 + attacker.Stat(INNER_POWER) as real / INNER_BASE as real);
    PhysicalReductionRange(defender.Stat(DEFENCE));
  }

  lemma RawDamageParts(attacker: Fightable, magic: Magic, defender: Fightable, roll: int)
    requires Ordinary(attacker, magic, defender)
    ensures RawDamage(attacker, magic, defender, roll)
            == PhysicalBlow(magic, roll) * (1.0 - PhysicalReduction(defender.Stat(DEFENCE)))
               + InnerBlow(attacker, magic) * (1.0 - InnerReduction(magic.innerProperty, defender))
  {
  }

  /** A blow is weaker, part by part, the more each part is reduced; at most it is unreduced, at least nothing. */
  lemma PartsFall(a: real, b: real, p: real, q: real, p': real, q': real)
    requires 0.0 <= a && 0.0 <= b && 0.0 <= p <= p' <= 1.0 && 0.0 <= q <= q' <= 1.0
    ensures 0.0 <= a * (1.0 - p') + b * (1.0 - q') <= a * (1.0 - p) + b * (1.0 - q) <= a + b
  {
    PartFalls(a, p, p');
    PartFalls(b, q, q');
  }

  lemma PartFalls(a: real, p: real, p': real)
    requires 0.0 <= a && 0.0 <= p <= p' <= 1.0
    ensures 0.0 <= a * (1.0 - p') <= a * (1.0 - p) <= a
  {
    Reduced(a, p);
    Reduced(a, p');
    Scaled(1.0 - p', 1.0 - p, a);
  }

  /** A blow never heals and never exceeds what it would deal unreduced. */
  lemma DamageWithinBlow(attacker: Fightable, magic: Magic, defender: Fightable, roll: int)
    requires Ordinary(attacker, magic, defender) && 0 <= roll
    ensures 0 <= Trunc(RawDamage(attacker, magic, defender, roll))
              <= Trunc(PhysicalBlow(magic, roll) + InnerBlow(attacker, magic))
  {
    var a, b := PhysicalBlow(magic, roll), InnerBlow(attacker, magic);
    var p, q := PhysicalReduction(defender.Stat(DEFENCE)), InnerReduction(magic.innerProperty, defender);
    BlowsNonNegative(attacker, magic, defender, roll);
    RawDamageParts(attacker, magic, defender, roll);
    PartsFall(a, b, p, q, p, q);
    TruncMonotone(RawDamage(attacker, magic, defender, roll), a + b);
  }

  lemma DamageRisesWithRoll(attacker: Fightable, magic: Magic, defender: Fightable, roll: int, higher: int)
    requires Ordinary(attacker, magic, defender) && roll <= higher
    ensures Trunc(RawDamage(attacker, magic, defender, roll)) <= Trunc(RawDamage(attacker, magic, defender, higher))
  {
    var p := PhysicalReduction(defender.Stat(DEFENCE));
    PhysicalReductionRange(defender.Stat(DEFENCE));
    Scaled(roll as real, higher as real, magic.multiplier as real / 100.0);
    Scaled(PhysicalBlow(magic, roll), PhysicalBlow(magic, higher), 1.0 - p);
    RawDamageParts(attacker, magic, defender, roll);
    RawDamageParts(attacker, magic, defender, higher);
    TruncMonotone(RawDamage(attacker, magic, defender, roll), RawDamage(attacker, magic, defender, higher));
  }

  /** More defence and more of the matching resistance never let more through. */
  lemma DamageFallsWithProtection(attacker: Fightable, magic: Magic, weaker: Fightable, stronger: Fightable, roll: int)
    requires Ordinary(attacker, magic, weaker) && Ordinary(attacker, magic, stronger) && 0 <= roll
    requires weaker.Stat(DEFENCE) <= stronger.Stat(DEFENCE)
    requires var key := ResistanceKey(magic.innerProperty);
      key.Some? ==> weaker.Stat(key.value) <= stronger.Stat(key.value)
    ensures Trunc(RawDamage(attacker, magic, stronger, roll)) <= Trunc(RawDamage(attacker, magic, weaker, roll))
  {
    BlowsNonNegative(attacker, magic, weaker, roll);
    BlowsNonNegative(attacker, magic, stronger, roll);
    PhysicalReductionRises(weaker.Stat(DEFENCE), stronger.Stat(DEFENCE));
    RawDamageParts(attacker, magic, weaker, roll);
    RawDamageParts(attacker, magic, stronger, roll);
    PartsFall(PhysicalBlow(magic, roll), InnerBlow(attacker, magic),
              PhysicalReduction(weaker.Stat(DEFENCE)), InnerReduction(magic.innerProperty, weaker),
              PhysicalReduction(stronger.Stat(DEFENCE)), InnerReduction(magic.innerProperty, stronger));
    TruncMonotone(RawDamage(attacker, magic, stronger, roll), RawDamage(attacker, magic, weaker, roll));
  }
}
