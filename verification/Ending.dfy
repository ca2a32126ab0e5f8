/** When `go` returns, whatever is drawn. */
module Ending {
  import opened Rounding
  import opened Structs
  import opened Fighter
  import opened Rounds
  import opened FightLaw
  import opened FightRuns
  import opened Rng
  import opened Replay
  import opened Engine
  import opened FightOutcome
  import opened Order
  import opened DamageBounds

  ghost predicate AccuraciesNonNegative(all: seq<Fightable>) {
    forall i :: 0 <= i < |all| ==> all[i].Stat(ACCURACY) >= 0
  }

  predicate Aims(f: Fightable, team: int) { f.Living() && f.team == team && f.Stat(ACCURACY) > 0 }

  /** Some living fighter of the team has accuracy. */
  ghost predicate TeamAims(all: seq<Fightable>, team: int) {
    exists i :: 0 <= i < |all| && Aims(all[i], team)
  }

  /** Whatever spell `a` strikes `d` with and whatever it rolls, a blow that lands deals something. */
  ghost predicate BlowsWound(a: Fightable, d: Fightable) {
    && d.Stat(DEFENCE) + DEFENCE_EXTENSION != 0
    && (forall roll :: a.Stat(ATTACK_MIN) <= roll <= a.Stat(ATTACK_MAX) ==>
          Trunc(RawDamage(a, DEFAULT_MAGIC, d, roll)) >= 1)
    && (forall roll, m :: a.Stat(ATTACK_MIN) <= roll <= a.Stat(ATTACK_MAX) && 0 <= m < |a.magics| ==>
          Trunc(RawDamage(a, a.magics[m].realMagic, d, roll)) >= 1)
  }

  ghost predicate AllBlowsWound(all: seq<Fightable>) {
    forall i, j :: 0 <= i < |all| && 0 <= j < |all| && Opposed(all[i], all[j]) ==> BlowsWound(all[i], all[j])
  }

  // ---------- One round ----------

  /** What a played round leaves of everything these conditions look at. */
  lemma NextKeeps(s: FitState, hit: int, roll: int, i: nat)
    requires !Over(s) && i < |s.all|
    ensures var t := Next(s, hit, roll);
      && |t.all| == |s.all| && SameFighter(s.all[i], t.all[i])
      && (!s.all[i].Living() ==> t.all[i] == s.all[i])
      && t.all[i].Stat(HP) == s.all[i].Stat(HP) - if i == Defender(s) then Damage(s, hit, roll) else 0
  {
    NextIsLegal(s, hit, roll);
    OneFighter(s, EventOf(s, Damage(s, hit, roll)), Next(s, hit, roll), i);
    LedgerStep(s, EventOf(s, Damage(s, hit, roll)), Next(s, hit, roll), i);
  }

  /** Alike in everything a blow depends on. */
  ghost predicate SameSkill(f: Fightable, g: Fightable) {
    && (forall key :: 0 <= key < STAT_KEYS && key != HP && key != MP ==> f.Stat(key) == g.Stat(key))
    && |f.magics| == |g.magics|
    && (forall m :: 0 <= m < |f.magics| ==> f.magics[m].realMagic == g.magics[m].realMagic)
  }

  lemma SameBlows(a: Fightable, d: Fightable, a': Fightable, d': Fightable)
    requires SameSkill(a, a') && SameSkill(d, d') && BlowsWound(a, d)
    ensures BlowsWound(a', d')
  {
    assert a.Stat(ATTACK_MIN) == a'.Stat(ATTACK_MIN) && a.Stat(ATTACK_MAX) == a'.Stat(ATTACK_MAX);
    assert d.Stat(DEFENCE) == d'.Stat(DEFENCE);
    forall magic, roll
      ensures RawDamage(a, magic, d, roll) == RawDamage(a', magic, d', roll)
    {
      StatsDecideBlow(a, d, a', d', magic, roll);
    }
  }

  lemma NextKeepsAccuracies(s: FitState, hit: int, roll: int)
    requires !Over(s) && AccuraciesNonNegative(s.all)
    ensures AccuraciesNonNegative(Next(s, hit, roll).all)
  {
    forall i | 0 <= i < |Next(s, hit, roll).all|
      ensures Next(s, hit, roll).all[i].Stat(ACCURACY) >= 0
    {
      NextKeeps(s, hit, roll, Attacker(s));
      NextKeeps(s, hit, roll, i);
    }
  }

  lemma NextKeepsBlows(s: FitState, hit: int, roll: int)
    requires !Over(s) && AllBlowsWound(s.all)
    ensures AllBlowsWound(Next(s, hit, roll).all)
  {
    var t := Next(s, hit, roll);
    NextKeeps(s, hit, roll, Attacker(s));
    forall i, j | 0 <= i < |t.all| && 0 <= j < |t.all| && Opposed(t.all[i], t.all[j])
      ensures BlowsWound(t.all[i], t.all[j])
    {
      NextKeeps(s, hit, roll, i);
      NextKeeps(s, hit, roll, j);
      assert Opposed(s.all[i], s.all[j]);
      assert SameSkill(s.all[i], t.all[i]) && SameSkill(s.all[j], t.all[j]);
      SameBlows(s.all[i], s.all[j], t.all[i], t.all[j]);
    }
  }

  // ---------- Both teams aim: a stalemate is possible ----------

  /** Each team has a living fighter with accuracy. */
  ghost predicate Stalemate(s: FitState) {
    AccuraciesNonNegative(s.all) && TeamAims(s.all, 0) && TeamAims(s.all, 1)
  }

  lemma HighDrawMisses(attacker: Fightable, defender: Fightable)
    requires attacker.Stat(ACCURACY) >= 0 && defender.Stat(ACCURACY) > 0
    ensures Evades(attacker, defender, 99)
  {
    LandsExactly(attacker, defender, 99);
  }

  /** A fighter with accuracy evades a draw of 99. */
  lemma AimsOn(s: FitState, roll: int, team: int)
    requires !Over(s) && AccuraciesNonNegative(s.all) && TeamAims(s.all, team)
    ensures TeamAims(Next(s, 99, roll).all, team)
  {
    var i :| 0 <= i < |s.all| && Aims(s.all[i], team);
    NextKeeps(s, 99, roll, i);
    if i == Defender(s) {
      HighDrawMisses(s.all[Attacker(s)], s.all[i]);
    }
    assert s.all[i].Stat(ACCURACY) == Next(s, 99, roll).all[i].Stat(ACCURACY);
    assert Aims(Next(s, 99, roll).all[i], team);
  }

  lemma TeamAimsCounts(s: FitState, team: int)
    requires 0 <= team <= 1 && TeamAims(s.all, team)
    ensures s.alive[team] != 0
  {
  }

  lemma BothAimOn(s: FitState, roll: int)
    requires Stalemate(s)
    ensures !Over(s) && Stalemate(Next(s, 99, roll))
  {
    TeamAimsCounts(s, 0);
    TeamAimsCounts(s, 1);
    NextKeepsAccuracies(s, 99, roll);
    AimsOn(s, roll, 0);
    AimsOn(s, roll, 1);
  }

  /** While each team has a living fighter with accuracy, draws of 99 keep the fight going for as long as there are
      any, on the server and on the client. */
  lemma EvasionsNeverEnd(s: FitState, draws: seq<nat>)
    requires Stalemate(s)
    requires forall i :: 0 <= i < |draws| ==> draws[i] == 99
    ensures ServerRun(FightGame(), s, draws).CutOff?
    ensures ClientRun(FightGame(), s, draws).CutOff?
  {
    var inv := (s: FitState) => Stalemate(s);
    forall s: FitState, roll | inv(s)
      ensures StallsAt(FightGame(), inv, 99, s, roll)
    {
      BothAimOn(s, roll);
    }
    assert Stalls(FightGame(), inv, 99);
    StalledServer(FightGame(), inv, 99, s, draws);
    StalledClient(FightGame(), inv, 99, s, draws);
  }

  // ---------- One team does not: the fight ends ----------

  /** `f` stands on a team whose enemies, if they live, never land a blow. */
  ghost predicate OneSided(s: FitState, f: nat) {
    && AccuraciesNonNegative(s.all)
    && f < |s.all| && s.all[f].Living() && s.all[f].progress <= FIGHT_MAX_PROG - 1 + s.all[f].Stat(SPEED)
    && !TeamAims(s.all, 1 - s.all[f].team)
  }

  ghost predicate Lopsided(s: FitState, f: nat) { OneSided(s, f) && AllBlowsWound(s.all) }

  lemma NoAccuracyNeverLands(attacker: Fightable, defender: Fightable, hit: nat)
    requires attacker.Stat(ACCURACY) == 0 && defender.Stat(ACCURACY) > 0
    ensures Evades(attacker, defender, hit)
  {
    LandsExactly(attacker, defender, hit);
    LongerWaitsMore(defender.Stat(ACCURACY), 1, hit + 1);
  }

  lemma NoAccuracyAlwaysHit(attacker: Fightable, defender: Fightable, hit: nat)
    requires attacker.Stat(ACCURACY) > 0 && defender.Stat(ACCURACY) == 0 && hit <= 99
    ensures !Evades(attacker, defender, hit)
  {
    LandsExactly(attacker, defender, hit);
    LongerWaitsMore(attacker.Stat(ACCURACY), hit + 1, 100);
  }

  lemma OwnBlowLands(s: FitState, f: nat, hit: nat)
    requires OneSided(s, f) && !Over(s) && hit <= 99 && s.all[Attacker(s)].team == s.all[f].team
    ensures !Misses(s, hit) && Defender(s) != f
  {
    var a, d := s.all[Attacker(s)], s.all[Defender(s)];
    assert FitFighter(d) && FitFighter(s.all[f]);
    assert a.Stat(ACCURACY) + d.Stat(ACCURACY) != 0;
    assert !Aims(d, 1 - s.all[f].team);
    NoAccuracyAlwaysHit(a, d, hit);
  }

  lemma LandedDamage(a: Fightable, d: Fightable, pick: Option<nat>, hit: nat, roll: int)
    requires BlowsWound(a, d) && (pick.Some? ==> pick.value < |a.magics|)
    requires a.Stat(ACCURACY) + d.Stat(ACCURACY) != 0 && !Evades(a, d, hit)
    requires a.Stat(ATTACK_MIN) <= roll <= a.Stat(ATTACK_MAX)
    ensures DamageCalc(a, a.ChosenMagic(pick), d, hit, roll) >= 1
  {
  }

  lemma LandedBlowWounds(s: FitState, hit: nat, roll: int)
    requires AllBlowsWound(s.all) && !Over(s) && !Misses(s, hit)
    requires RollRange(s).0 <= roll <= RollRange(s).1
    ensures Damage(s, hit, roll) >= 1
  {
    var a, d := s.all[Attacker(s)], s.all[Defender(s)];
    assert BlowsWound(a, d) && a.Stat(ACCURACY) + d.Stat(ACCURACY) != 0;
    LandedDamage(a, d, Spell(s), hit, roll);
  }

  lemma EnemyBlow(s: FitState, f: nat, hit: nat, roll: int)
    requires OneSided(s, f) && !Over(s) && hit <= 99 && s.all[Attacker(s)].team != s.all[f].team
    ensures Misses(s, hit) && Attacker(s) != f && Damage(s, hit, roll) == 0
  {
    var a, d := s.all[Attacker(s)], s.all[Defender(s)];
    assert FitFighter(a) && FitFighter(s.all[f]);
    assert a.Stat(ACCURACY) + d.Stat(ACCURACY) != 0;
    assert !Aims(a, 1 - s.all[f].team);
    NoAccuracyNeverLands(a, d, hit);
  }

  /** In a lopsided fight every blow of the one team wounds and every blow of the other is evaded. */
  lemma LopsidedBlow(s: FitState, f: nat, hit: nat, roll: int)
    requires Lopsided(s, f) && !Over(s) && hit <= 99
    requires Misses(s, hit) || RollRange(s).0 <= roll <= RollRange(s).1
    ensures Damage(s, hit, roll) >= if s.all[Attacker(s)].team == s.all[f].team then 1 else 0
    ensures Defender(s) == f ==> Damage(s, hit, roll) == 0
  {
    if s.all[Attacker(s)].team == s.all[f].team {
      OwnBlowLands(s, f, hit);
      LandedBlowWounds(s, hit, roll);
    } else {
      EnemyBlow(s, f, hit, roll);
    }
  }

  /** How much longer a lopsided fight can last. */
  ghost function Patience(s: FitState, f: nat): int
    requires f < |s.all|
  {
    |Ready(s)| + |s.all| * Grit(s, f)
  }

  /** Speed times the ticks that `f` may still see: its blows wound, so it acts no more often than there is hp. */
  ghost function Grit(s: FitState, f: nat): int
    requires f < |s.all|
  {
    GritAt(s.all[f].Stat(SPEED), Vitality(s.all), s.all[f].progress)
  }

  function GritAt(speed: int, hp: nat, progress: int): int {
    (FIGHT_MAX_PROG - 1 + speed) * (hp + 1) - progress
  }

  lemma GritNonNegative(s: FitState, f: nat)
    requires Lopsided(s, f)
    ensures Grit(s, f) >= 0 && Patience(s, f) >= 0
  {
    assert FitFighter(s.all[f]);
    LongerWaitsMore(FIGHT_MAX_PROG - 1 + s.all[f].Stat(SPEED), 1, Vitality(s.all) + 1);
    LongerWaitsMore(|s.all|, 0, Grit(s, f));
  }

  /** A fighter that no blow hurts lives on, and on time. */
  lemma UnhurtOn(s: FitState, f: nat, hit: int, roll: int)
    requires !Over(s) && f < |s.all| && s.all[f].Living()
    requires s.all[f].progress <= FIGHT_MAX_PROG - 1 + s.all[f].Stat(SPEED)
    requires Defender(s) == f ==> Damage(s, hit, roll) == 0
    ensures var t := Next(s, hit, roll);
      && f < |t.all| && t.all[f].Living() && t.all[f].team == s.all[f].team
      && t.all[f].Stat(SPEED) == s.all[f].Stat(SPEED)
      && t.all[f].progress == (if Attacker(s) == f then 0 else s.all[f].Reach(Ticks(s)))
      && t.all[f].progress <= FIGHT_MAX_PROG - 1 + t.all[f].Stat(SPEED)
  {
    var e, t := EventOf(s, Damage(s, hit, roll)), Next(s, hit, roll);
    NextIsLegal(s, hit, roll);
    NeverPast(s, e, t, f);
    assert OnFighter(s.all[f], e, f, t.all[f]);
    assert FitFighter(s.all[f]);
  }

  lemma NobodyLearnsToAim(s: FitState, team: int, hit: int, roll: int)
    requires !Over(s) && !TeamAims(s.all, team) && (s.all[Defender(s)].team == team ==> Damage(s, hit, roll) >= 0)
    ensures !TeamAims(Next(s, hit, roll).all, team)
  {
    var t := Next(s, hit, roll);
    NextKeeps(s, hit, roll, Attacker(s));
    forall i | 0 <= i < |t.all|
      ensures !Aims(t.all[i], team)
    {
      NextKeeps(s, hit, roll, i);
      assert !Aims(s.all[i], team);
    }
  }

  lemma OneSidedOn(s: FitState, f: nat, hit: nat, roll: int)
    requires OneSided(s, f) && !Over(s) && 0 <= Damage(s, hit, roll) && (Defender(s) == f ==> Damage(s, hit, roll) == 0)
    ensures OneSided(Next(s, hit, roll), f)
  {
    NextKeepsAccuracies(s, hit, roll);
    UnhurtOn(s, f, hit, roll);
    NobodyLearnsToAim(s, 1 - s.all[f].team, hit, roll);
  }

  lemma LopsidedOn(s: FitState, f: nat, hit: nat, roll: int)
    requires Lopsided(s, f) && !Over(s) && hit <= 99
    requires Misses(s, hit) || RollRange(s).0 <= roll <= RollRange(s).1
    ensures Lopsided(Next(s, hit, roll), f)
  {
    LopsidedBlow(s, f, hit, roll);
    OneSidedOn(s, f, hit, roll);
    NextKeepsBlows(s, hit, roll);
  }

  /** The clock costs grit, and so does acting. */
  lemma GritSpent(speed: int, hp: nat, hp': nat, progress: int, ticks: int, acts: bool)
    requires speed > 0 && ticks >= 0 && hp' <= hp - (if acts then 1 else 0)
    requires progress + speed * ticks <= FIGHT_MAX_PROG - 1 + speed
    ensures GritAt(speed, hp', if acts then 0 else progress + speed * ticks) <= GritAt(speed, hp, progress) - ticks
  {
    var c := FIGHT_MAX_PROG - 1 + speed;
    LongerWaitsMore(c, hp' + 1, if acts then hp else hp + 1);
    Spread(c, hp, 1);
    if ticks > 0 {
      LongerWaitsMore(ticks, 1, speed);
    }
  }

  lemma GritFalls(s: FitState, f: nat, hit: nat, roll: int)
    requires Lopsided(s, f) && !Over(s) && hit <= 99
    requires Misses(s, hit) || RollRange(s).0 <= roll <= RollRange(s).1
    ensures f < |Next(s, hit, roll).all| && Grit(Next(s, hit, roll), f) <= Grit(s, f) - Ticks(s)
  {
    var e, t := EventOf(s, Damage(s, hit, roll)), Next(s, hit, roll);
    assert FitFighter(s.all[f]);
    LopsidedBlow(s, f, hit, roll);
    UnhurtOn(s, f, hit, roll);
    NextIsLegal(s, hit, roll);
    NeverPast(s, e, t, f);
    RoundDrains(s, e, t);
    GritAfter(s, f, t, Ticks(s), Attacker(s) == f);
  }

  lemma GritAfter(s: FitState, f: nat, t: FitState, ticks: int, acts: bool)
    requires f < |s.all| && f < |t.all| && ticks >= 0
    requires s.all[f].Stat(SPEED) == t.all[f].Stat(SPEED) > 0
    requires s.all[f].Reach(ticks) <= FIGHT_MAX_PROG - 1 + s.all[f].Stat(SPEED)
    requires t.all[f].progress == if acts then 0 else s.all[f].Reach(ticks)
    requires Vitality(t.all) <= Vitality(s.all) - if acts then 1 else 0
    ensures Grit(t, f) <= Grit(s, f) - ticks
  {
    GritSpent(s.all[f].Stat(SPEED), Vitality(s.all), Vitality(t.all), s.all[f].progress, ticks, acts);
  }

  lemma PatienceSpent(n: nat, ready: int, ready': int, grit: int, grit': int, ticks: int)
    requires 1 + ready' <= ready + n * ticks && grit' <= grit - ticks
    ensures ready' + n * grit' < ready + n * grit
  {
    Spread(n, grit, -ticks);
    if n > 0 {
      LongerWaitsMore(n, grit', grit - ticks);
    }
  }

  lemma PatienceFalls(s: FitState, f: nat, hit: nat, roll: int)
    requires Lopsided(s, f) && !Over(s) && hit <= 99
    requires Misses(s, hit) || RollRange(s).0 <= roll <= RollRange(s).1
    ensures var t := Next(s, hit, roll); Lopsided(t, f) && 0 <= Patience(t, f) < Patience(s, f)
  {
    var e, t := EventOf(s, Damage(s, hit, roll)), Next(s, hit, roll);
    LopsidedOn(s, f, hit, roll);
    GritNonNegative(t, f);
    GritFalls(s, f, hit, roll);
    NextIsLegal(s, hit, roll);
    RoundWithinTicks(s, e, t);
    NextKeeps(s, hit, roll, f);
    PatienceSpent(|s.all|, |Ready(s)|, |Ready(t)|, Grit(s, f), Grit(t, f), Ticks(s));
  }

  /** A lopsided fight ends within a number of draws that can be read off its start. */
  lemma LopsidedFightEnds(s: FitState, f: nat, words: seq<nat>)
    requires Lopsided(s, f) && |words| >= 2 * Patience(s, f)
    ensures ServerRun(FightGame(), s, words).Finished?
  {
    var inv := (s: FitState) => Lopsided(s, f);
    var rank := (s: FitState) => if Lopsided(s, f) then Patience(s, f) else 0;
    forall s: FitState, hit, roll | inv(s) && !Over(s) && Drawable(FightGame(), s, hit, roll)
      ensures Lowers(FightGame(), inv, rank, s, hit, roll)
    {
      PatienceFalls(s, f, hit, roll);
    }
    assert Ranked(FightGame(), inv, rank);
    RankedRunEnds(FightGame(), inv, rank, s, words);
  }

  // ---------- Exactly when ----------

  /** The fight ends on every list of at least `n` draws. */
  ghost predicate EndsWithin(s: FitState, n: nat) {
    forall words: seq<nat> :: |words| >= n ==> ServerRun(FightGame(), s, words).Finished?
  }

  function Prefix(stream: nat -> nat, n: nat): seq<nat> { seq(n, i requires 0 <= i => stream(i)) }

  /** The fight ends on every stream of draws, sooner or later. */
  ghost predicate EndsAlways(s: FitState) {
    forall stream: nat -> nat :: EndsOn(s, stream)
  }

  ghost predicate EndsOn(s: FitState, stream: nat -> nat) {
    exists n: nat :: ServerRun(FightGame(), s, Prefix(stream, n)).Finished?
  }

  lemma SomeoneStands(s: FitState, team: int) returns (f: nat)
    requires 0 <= team <= 1 && !Over(s)
    ensures f < |s.all| && s.all[f].Living() && s.all[f].team == team
  {
    assert CountLiving(s.all, team) != 0;
    f :| 0 <= f < |s.all| && s.all[f].Living() && s.all[f].team == team;
  }

  lemma OneSidedFightEnds(s: FitState, team: int) returns (n: nat)
    requires Fresh(s) && AccuraciesNonNegative(s.all) && AllBlowsWound(s.all)
    requires 0 <= team <= 1 && !TeamAims(s.all, team)
    ensures EndsWithin(s, n)
  {
    n := 0;
    if !Over(s) {
      var f := SomeoneStands(s, 1 - team);
      assert FitFighter(s.all[f]);
      GritNonNegative(s, f);
      n := 2 * Patience(s, f);
    }
    forall words: seq<nat> | |words| >= n
      ensures ServerRun(FightGame(), s, words).Finished?
    {
      if Over(s) {
        ServerDone(s, words);
      } else {
        var f: nat :| f < |s.all| && Lopsided(s, f) && n == 2 * Patience(s, f);
        LopsidedFightEnds(s, f, words);
      }
    }
  }

  lemma StalemateIsPossible(s: FitState)
    requires Stalemate(s)
    ensures !EndsAlways(s)
  {
    var stream := (i: nat) => 99;
    forall n: nat
      ensures ServerRun(FightGame(), s, Prefix(stream, n)).CutOff?
    {
      EvasionsNeverEnd(s, Prefix(stream, n));
    }
    assert !EndsOn(s, stream);
  }

  lemma WithinIsAlways(s: FitState, n: nat)
    requires EndsWithin(s, n)
    ensures EndsAlways(s)
  {
    forall stream: nat -> nat
      ensures EndsOn(s, stream)
    {
      assert ServerRun(FightGame(), s, Prefix(stream, n)).Finished?;
    }
  }

  /** A fight whose landed blows all wound ends on every stream of draws if and only if some team has nobody
      living with accuracy; and then there is a bound on the draws it takes. */
  lemma FightEndsExactly(s: FitState)
    requires Fresh(s) && AccuraciesNonNegative(s.all) && AllBlowsWound(s.all)
    ensures EndsAlways(s) <==> !(TeamAims(s.all, 0) && TeamAims(s.all, 1))
    ensures EndsAlways(s) <==> exists n: nat :: EndsWithin(s, n)
  {
    if TeamAims(s.all, 0) && TeamAims(s.all, 1) {
      StalemateIsPossible(s);
      if n: nat :| EndsWithin(s, n) {
        WithinIsAlways(s, n);
      }
    } else {
      var n := OneSidedFightEnds(s, if TeamAims(s.all, 0) then 1 else 0);
      WithinIsAlways(s, n);
    }
  }

  // ---------- The fight of a request ----------

  /** Of the two in a fight, the one at `i`. */
  lemma DuelistAt(self: Fightable, enemy: Fightable, i: nat)
    requires CanFight([self], [enemy]) && i < 2
    ensures var f := Arrange([self], [enemy])[i];
      f.Living() && (f == self.(team := 0, idx := i) || f == enemy.(team := 1, idx := i))
  {
    var k := ArrangedFrom([self], [enemy], i);
    LineupEnters([self], [enemy], k);
    assert Lineup([self], [enemy])[k] == if k == 0 then self.(team := 0, idx := 0) else enemy.(team := 1, idx := 1);
  }

  lemma DuelistAims(self: Fightable, enemy: Fightable, team: int)
    requires CanFight([self], [enemy]) && 0 <= team <= 1
    ensures TeamAims(Arrange([self], [enemy]), team) <==> (if team == 0 then self else enemy).Stat(ACCURACY) > 0
  {
    var all := Arrange([self], [enemy]);
    DuelistAt(self, enemy, 0);
    DuelistAt(self, enemy, 1);
    StartCounts([self], [enemy]);
    assert CountLiving(all, team) != 0;
    var i :| 0 <= i < |all| && all[i].Living() && all[i].team == team;
    assert Aims(all[i], team) <==> (if team == 0 then self else enemy).Stat(ACCURACY) > 0;
  }

  lemma DuelistAccuracies(self: Fightable, enemy: Fightable)
    requires CanFight([self], [enemy]) && self.Stat(ACCURACY) >= 0 && enemy.Stat(ACCURACY) >= 0
    ensures AccuraciesNonNegative(Arrange([self], [enemy]))
  {
    DuelistAt(self, enemy, 0);
    DuelistAt(self, enemy, 1);
  }

  lemma DuelistsWound(self: Fightable, enemy: Fightable)
    requires CanFight([self], [enemy]) && BlowsWound(self, enemy) && BlowsWound(enemy, self)
    ensures AllBlowsWound(Arrange([self], [enemy]))
  {
    var all := Arrange([self], [enemy]);
    forall i, j | 0 <= i < |all| && 0 <= j < |all| && Opposed(all[i], all[j])
      ensures BlowsWound(all[i], all[j])
    {
      DuelistAt(self, enemy, i);
      DuelistAt(self, enemy, j);
      if all[i].team == 0 {
        assert SameSkill(self, all[i]) && SameSkill(enemy, all[j]);
        SameBlows(self, enemy, all[i], all[j]);
      } else {
        assert SameSkill(enemy, all[i]) && SameSkill(self, all[j]);
        SameBlows(enemy, self, all[i], all[j]);
      }
    }
  }

  /** The fight of a request, when both deal something whenever they land: it ends on every stream of draws if and
      only if one of the two has no accuracy. */
  lemma DuelEndsExactly(self: Fightable, enemy: Fightable)
    requires CanFight([self], [enemy]) && self.Stat(ACCURACY) >= 0 && enemy.Stat(ACCURACY) >= 0
    requires BlowsWound(self, enemy) && BlowsWound(enemy, self)
    ensures EndsAlways(FreshStart([self], [enemy])) <==> self.Stat(ACCURACY) == 0 || enemy.Stat(ACCURACY) == 0
  {
    DuelistAccuracies(self, enemy);
    DuelistAims(self, enemy, 0);
    DuelistAims(self, enemy, 1);
    DuelistsWound(self, enemy);
    FightEndsExactly(FreshStart([self], [enemy]));
  }

  // ---------- Whatever the accuracies ----------

  /** Every round played on these words deals something. */
  ghost predicate EveryBlowWounds(s: FitState, words: seq<nat>)
    decreases |words|
  {
    Over(s) || |words| <= 1 ||
    (var hit := InRange(words[0], 0, 99);
     var roll := InRange(words[1], RollRange(s).0, RollRange(s).1);
     !Misses(s, hit) && Damage(s, hit, roll) >= 1 && EveryBlowWounds(Next(s, hit, roll), words[2..]))
  }

  lemma StandingHasHp(s: FitState)
    requires !Over(s)
    ensures Vitality(s.all) > 0
  {
    var f := Attacker(s);
    VitalityAtLeast(s.all, f);
  }

  lemma {:induction false} VitalityAtLeast(all: seq<Fightable>, f: nat)
    requires f < |all|
    ensures Vitality(all) >= Standing(all[f])
  {
    if f < |all| - 1 {
      VitalityAtLeast(all[..|all| - 1], f);
    }
  }

  /** `go` returns once it has had two draws for every point of hp, if every blow dealt until then wounds. */
  lemma {:induction false} WoundingFightEnds(s: FitState, words: seq<nat>)
    requires |words| >= 2 * Vitality(s.all) && EveryBlowWounds(s, words)
    ensures ServerRun(FightGame(), s, words).Finished?
    decreases |words|
  {
    if Over(s) {
      ServerDone(s, words);
    } else {
      StandingHasHp(s);
      var hit := InRange(words[0], 0, 99);
      var roll := InRange(words[1], RollRange(s).0, RollRange(s).1);
      ServerRound(s, words);
      NextIsLegal(s, hit, roll);
      RoundDrains(s, EventOf(s, Damage(s, hit, roll)), Next(s, hit, roll));
      WoundingFightEnds(Next(s, hit, roll), words[2..]);
    }
  }
}
