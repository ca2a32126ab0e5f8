/** The fight engine as it runs: an array of fighters updated in place, round after round. */
module Engine {
  import Rounding
  import opened Structs
  import opened Fighter
  import opened Rounds
  import opened FightLaw
  import opened Order
  import opened Rng
  import opened Replay

  type FitState = s: State | Fit(s) witness State([], 0, [0, 0])

  /** The damage roll's range in this round. */
  function RollRange(s: FitState): (r: (int, int))
    ensures r.0 <= r.1
  {
    if Over(s) then (0, 0)
    else
      var f := s.all[Attacker(s)];
      assert FitFighter(f);
      (f.Stat(ATTACK_MIN), f.Stat(ATTACK_MAX))
  }

  function Next(s: FitState, hit: int, roll: int): FitState {
    if Over(s) then s
    else
      RoundKeepsFit(s, Damage(s, hit, roll));
      Round(s, hit, roll)
  }

  /** A round of the engine, as the runs of `go` see it. */
  function FightGame(): (g: Game<FitState>)
    ensures g.Sound()
  {
    Game((s: FitState) => Over(s), (s: FitState, hit: int) => !Over(s) && Misses(s, hit), RollRange, Next)
  }

  /** The living of `all`, in order. */
  ghost predicate Roster(all: seq<Fightable>, alive: seq<nat>) {
    && (forall i, j :: 0 <= i < j < |alive| ==> alive[i] < alive[j])
    && (forall i :: 0 <= i < |alive| ==> alive[i] < |all| && all[alive[i]].Living())
    && (forall i :: 0 <= i < |all| && all[i].Living() ==> i in alive)
  }

  lemma NextIs(all: seq<Fightable>, a: nat)
    requires FitFighters(all) && a < |all| && all[a].Living()
    requires forall j :: 0 <= j < |all| && all[j].Living() && j != a ==>
               Before((all[a].TicksCalc(), a), (all[j].TicksCalc(), j))
    ensures NextUpTo(all, |all|) == Some(a)
  {
  }

  /** `threat` is the greatest (threat, index) of the enemies of `a` listed, or the placeholder. */
  ghost predicate Worst(all: seq<Fightable>, a: nat, listed: seq<nat>, threat: (int, int))
    requires a < |all| && forall k :: 0 <= k < |listed| ==> listed[k] < |all|
  {
    && !Before(threat, (-1, all[a].idx))
    && (forall k :: 0 <= k < |listed| && Opposed(all[a], all[listed[k]]) ==>
          !Before(threat, (all[listed[k]].ThreatCalc(), listed[k])))
    && (threat == (-1, all[a].idx)
        || exists k :: 0 <= k < |listed| && Opposed(all[a], all[listed[k]])
                       && threat == (all[listed[k]].ThreatCalc(), listed[k]))
  }

  lemma WorstExtends(all: seq<Fightable>, a: nat, listed: seq<nat>, threat: (int, int), i: nat)
    requires a < |all| && (forall k :: 0 <= k < |listed| ==> listed[k] < |all|) && i < |all|
    requires Worst(all, a, listed, threat)
    ensures var next := (all[i].ThreatCalc(), i);
      Worst(all, a, listed + [i], if all[i].team != all[a].team && Before(threat, next) then next else threat)
  {
    var next, more := (all[i].ThreatCalc(), i), listed + [i];
    if all[i].team != all[a].team && Before(threat, next) {
      assert more[|listed|] == i;
    } else if threat != (-1, all[a].idx) {
      var k :| 0 <= k < |listed| && Opposed(all[a], all[listed[k]])
               && threat == (all[listed[k]].ThreatCalc(), listed[k]);
      assert more[k] == listed[k];
    }
  }

  lemma WorstIsThreat(all: seq<Fightable>, a: nat, alive: seq<nat>, threat: (int, int))
    requires a < |all| && Roster(all, alive) && Worst(all, a, alive, threat)
    ensures threat == ThreatUpTo(all, a, |all|)
  {
    var r := ThreatUpTo(all, a, |all|);
    if r != (-1, all[a].idx) {
      var k :| 0 <= k < |alive| && alive[k] == r.1;
      assert !Before(threat, (all[alive[k]].ThreatCalc(), alive[k]));
    }
    assert !Before(threat, r);
    assert !Before(r, threat);
  }

  /** `now` is `before` with the fighters listed advanced. */
  ghost predicate Waited(before: seq<Fightable>, now: seq<Fightable>, listed: seq<nat>, ticks: int) {
    && |now| == |before|
    && forall k :: 0 <= k < |now| ==> now[k] == if k in listed then Advanced(before[k], ticks) else before[k]
  }

  lemma WaitedExtends(before: seq<Fightable>, now: seq<Fightable>, listed: seq<nat>, ticks: int, i: nat)
    requires Waited(before, now, listed, ticks) && i < |now| && i !in listed
    ensures Waited(before, now[i := Advanced(before[i], ticks)], listed + [i], ticks)
  {
  }

  lemma WaitedIsAdvanceAll(before: seq<Fightable>, now: seq<Fightable>, alive: seq<nat>, ticks: int)
    requires Roster(before, alive) && Waited(before, now, alive, ticks)
    ensures now == AdvanceAll(before, ticks)
  {
    assert forall k :: 0 <= k < |now| ==> (k in alive <==> before[k].Living());
  }

  method AssignTeam(fs: seq<Fightable>, team: int) returns (r: seq<Fightable>)
    ensures r == Teamed(fs, team)
  {
    r := fs;
    for i := 0 to |fs|
      invariant |r| == |fs|
      invariant forall k :: 0 <= k < |fs| ==> r[k] == if k < i then fs[k].(team := team) else fs[k]
    {
      r := r[i := r[i].(team := team)];
    }
  }

  method AssignIdx(fs: seq<Fightable>) returns (r: seq<Fightable>)
    ensures r == Numbered(fs)
  {
    r := fs;
    for i := 0 to |fs|
      invariant |r| == |fs|
      invariant forall k :: 0 <= k < |fs| ==> r[k] == if k < i then fs[k].(idx := k) else fs[k]
    {
      r := r[i := r[i].(idx := i)];
    }
  }

  method Cool(magics: seq<MagicEx>, ticks: int) returns (cooled: seq<MagicEx>)
    ensures cooled == seq(|magics|, i requires 0 <= i < |magics| => magics[i].Cooldown(ticks))
    ensures forall k :: 0 <= k < |magics| ==>
              cooled[k] == magics[k].(cd := if magics[k].cd <= ticks then 0 else magics[k].cd - ticks)
  {
    cooled := magics;
    for i := 0 to |magics|
      invariant |cooled| == |magics|
      invariant forall k :: 0 <= k < i ==> cooled[k] == magics[k].Cooldown(ticks)
      invariant forall k :: i <= k < |magics| ==> cooled[k] == magics[k]
    {
      cooled := cooled[i := cooled[i].Cooldown(ticks)];
    }
  }

  lemma StatsDecideHit(a: Fightable, d: Fightable, a': Fightable, d': Fightable, hit: int)
    requires a.Stat(ACCURACY) == a'.Stat(ACCURACY) && d.Stat(ACCURACY) == d'.Stat(ACCURACY)
    requires a.Stat(ACCURACY) + d.Stat(ACCURACY) != 0
    ensures Evades(a, d, hit) == Evades(a', d', hit)
  {
    assert HitThreshold(a, d) == HitThreshold(a', d');
  }

  lemma StatsDecideBlow(a: Fightable, d: Fightable, a': Fightable, d': Fightable, magic: Magic, roll: int)
    requires forall key :: 0 <= key < STAT_KEYS && key != HP && key != MP ==>
               a.Stat(key) == a'.Stat(key) && d.Stat(key) == d'.Stat(key)
    requires d.Stat(DEFENCE) + DEFENCE_EXTENSION != 0
    ensures RawDamage(a, magic, d, roll) == RawDamage(a', magic, d', roll)
  {
    assert a.Stat(INNER_POWER) == a'.Stat(INNER_POWER) && d.Stat(DEFENCE) == d'.Stat(DEFENCE);
    assert InnerReduction(magic.innerProperty, d) == InnerReduction(magic.innerProperty, d');
  }

  /** Damage depends on the two fighters' stats alone, not on progress or cooldowns. */
  lemma StatsDecide(a: Fightable, d: Fightable, a': Fightable, d': Fightable)
    requires a.charData.stats == a'.charData.stats && d.charData.stats == d'.charData.stats
    requires a.Stat(ACCURACY) + d.Stat(ACCURACY) != 0 && d.Stat(DEFENCE) + DEFENCE_EXTENSION != 0
    ensures a'.Stat(ACCURACY) + d'.Stat(ACCURACY) != 0 && d'.Stat(DEFENCE) + DEFENCE_EXTENSION != 0
    ensures forall hit :: Evades(a, d, hit) == Evades(a', d', hit)
    ensures forall magic, roll :: RawDamage(a, magic, d, roll) == RawDamage(a', magic, d', roll)
  {
    forall hit
      ensures Evades(a, d, hit) == Evades(a', d', hit)
    {
      StatsDecideHit(a, d, a', d', hit);
    }
    forall magic, roll
      ensures RawDamage(a, magic, d, roll) == RawDamage(a', magic, d', roll)
    {
      StatsDecideBlow(a, d, a', d', magic, roll);
    }
  }

  method DamageCalcServer(attacker: Fightable, magic: Magic, defender: Fightable, rng: RngServer)
    returns (damage: Option<int>)
    requires attacker.Stat(ACCURACY) + defender.Stat(ACCURACY) != 0
    requires defender.Stat(DEFENCE) + DEFENCE_EXTENSION != 0
    requires attacker.Stat(ATTACK_MIN) <= attacker.Stat(ATTACK_MAX)
    modifies rng
    ensures var words, hit := old(rng.source), if old(rng.source) == [] then 0 else InRange(old(rng.source)[0], 0, 99);
      if words == [] then
        damage == None
      else if Evades(attacker, defender, hit) then
        damage == Some(0) && rng.source == words[1..] && rng.generated == old(rng.generated) + [hit]
      else if |words| == 1 then
        damage == None
      else
        var roll := InRange(words[1], attacker.Stat(ATTACK_MIN), attacker.Stat(ATTACK_MAX));
        damage == Some(DamageCalc(attacker, magic, defender, hit, roll))
        && rng.source == words[2..] && rng.generated == old(rng.generated) + [hit, roll]
  {
    var hit := rng.Draw(0, 99);
    if hit.None? {
      return None;
    }
    if HitThreshold(attacker, defender) <= hit.value {
      return Some(0);
    }
    var roll := rng.Draw(attacker.Stat(ATTACK_MIN), attacker.Stat(ATTACK_MAX));
    if roll.None? {
      return None;
    }
    return Some(Rounding.Trunc(RawDamage(attacker, magic, defender, roll.value)));
  }

  method DamageCalcClient(attacker: Fightable, magic: Magic, defender: Fightable, rng: RngClient)
    returns (damage: Option<int>)
    requires attacker.Stat(ACCURACY) + defender.Stat(ACCURACY) != 0
    requires defender.Stat(DEFENCE) + DEFENCE_EXTENSION != 0
    requires rng.Valid()
    modifies rng
    ensures rng.Valid()
    ensures var values := old(rng.Unread());
      if values == [] then
        damage == None
      else if Evades(attacker, defender, values[0]) then
        damage == Some(0) && rng.Unread() == values[1..]
      else if |values| == 1 then
        damage == None
      else
        damage == Some(DamageCalc(attacker, magic, defender, values[0], values[1])) && rng.Unread() == values[2..]
  {
    var hit := rng.Draw(0, 99);
    if hit.None? {
      return None;
    }
    if HitThreshold(attacker, defender) <= hit.value {
      return Some(0);
    }
    var roll := rng.Draw(attacker.Stat(ATTACK_MIN), attacker.Stat(ATTACK_MAX));
    if roll.None? {
      return None;
    }
    return Some(Rounding.Trunc(RawDamage(attacker, magic, defender, roll.value)));
  }

  /** The fighters once a round of `s` has come to its draws. */
  ghost predicate Begun(s: State, heated: seq<Fightable>, pick: Option<nat>, magic: Magic)
    requires Fit(s) && !Over(s)
  {
    var a, waited := Attacker(s), AdvanceAll(s.all, Ticks(s));
    && pick == waited[a].FirstCastable(0)
    && magic == waited[a].ChosenMagic(pick)
    && heated == waited[a := Heated(waited[a], pick)]
  }

  /** Begun fighters draw and deal exactly what the round of `s` says. */
  lemma BegunFits(s: State, heated: seq<Fightable>, pick: Option<nat>, magic: Magic)
    requires Fit(s) && !Over(s) && Begun(s, heated, pick, magic)
    ensures |heated| == |s.all| && 0 <= heated[Defender(s)].team <= 1
    ensures var f, g := heated[Attacker(s)], heated[Defender(s)];
      && f.Stat(ACCURACY) + g.Stat(ACCURACY) != 0 && g.Stat(DEFENCE) + DEFENCE_EXTENSION != 0
      && f.Stat(ATTACK_MIN) <= f.Stat(ATTACK_MAX)
      && (f.Stat(ATTACK_MIN), f.Stat(ATTACK_MAX)) == RollRange(s)
      && (forall hit :: Evades(f, g, hit) == Misses(s, hit))
      && (forall hit, roll :: DamageCalc(f, magic, g, hit, roll) == Damage(s, hit, roll))
  {
    var a, d := Attacker(s), Defender(s);
    assert FitFighter(s.all[a]) && FitFighter(s.all[d]);
    assert pick == Spell(s) && magic == s.all[a].ChosenMagic(pick);
    StatsDecide(s.all[a], s.all[d], heated[a], heated[d]);
  }

  // One round of a call of `go`, as the two generators drive it.

  lemma ServerRound(s: FitState, words: seq<nat>)
    requires !Over(s)
    ensures words == [] ==> ServerRun(FightGame(), s, words).CutOff?
    ensures words != [] ==>
              var hit := InRange(words[0], 0, 99);
              if Misses(s, hit) then
                ServerRun(FightGame(), s, words) == ServerRun(FightGame(), Next(s, hit, 0), words[1..]).After([hit])
              else if |words| == 1 then
                ServerRun(FightGame(), s, words).CutOff?
              else
                var roll := InRange(words[1], RollRange(s).0, RollRange(s).1);
                ServerRun(FightGame(), s, words)
                == ServerRun(FightGame(), Next(s, hit, roll), words[2..]).After([hit, roll])
  {
  }

  lemma ClientRound(s: FitState, values: seq<int>)
    requires !Over(s)
    ensures values == [] ==> ClientRun(FightGame(), s, values).CutOff?
    ensures values != [] ==>
              var hit := values[0];
              if Misses(s, hit) then
                ClientRun(FightGame(), s, values) == ClientRun(FightGame(), Next(s, hit, 0), values[1..]).After([hit])
              else if |values| == 1 then
                ClientRun(FightGame(), s, values).CutOff?
              else
                ClientRun(FightGame(), s, values)
                == ClientRun(FightGame(), Next(s, hit, values[1]), values[2..]).After([hit, values[1]])
  {
  }

  lemma ServerDone(s: FitState, words: seq<nat>)
    requires Over(s)
    ensures ServerRun(FightGame(), s, words) == Finished(s, [], words)
  {
  }

  lemma ClientDone(s: FitState, values: seq<int>)
    requires Over(s)
    ensures ClientRun(FightGame(), s, values) == Finished(s, [], values)
  {
  }

  lemma Regroup(a: seq<int>, b: seq<int>, c: seq<int>)
    ensures a + b + c == a + (b + c)
  {
  }

  function Heated(f: Fightable, pick: Option<nat>): Fightable
    requires pick.Some? ==> pick.value < |f.magics|
  {
    if pick.None? then f else f.(magics := f.magics[pick.value := f.magics[pick.value].Heatup()])
  }

  function Paid(f: Fightable, pick: Option<nat>, magic: Magic): Fightable {
    (if pick.None? then f else f.SetStat(MP, f.Stat(MP) - magic.mpCost)).(progress := 0)
  }

  /** The steps of the engine, put together, are the round. */
  lemma StepsAreRound(s: State, damage: int, pick: Option<nat>, magic: Magic, heated: seq<Fightable>, t: State)
    requires Fit(s) && !Over(s) && Begun(s, heated, pick, magic)
    requires var a, d := Attacker(s), Defender(s);
      t.all == heated[a := Paid(heated[a], pick, magic)][d := Hurt(heated[d], damage)]
    requires var d := Defender(s);
      t.alive == if Hurt(heated[d], damage).Living() then s.alive
                 else s.alive[heated[d].team := s.alive[heated[d].team] - 1]
    requires t.elapsed == s.elapsed + Ticks(s)
    ensures t == RoundWith(s, damage)
  {
    var a, d, waited := Attacker(s), Defender(s), AdvanceAll(s.all, Ticks(s));
    assert pick == Spell(s);
    PaidIsActed(waited[a], pick, magic);
    assert heated[d] == waited[d];
    Overwritten(waited, a, d, heated[a], Acted(waited[a], pick), Hurt(waited[d], damage));
  }

  lemma PaidIsActed(f: Fightable, pick: Option<nat>, magic: Magic)
    requires pick.Some? ==> pick.value < |f.magics|
    requires magic == f.ChosenMagic(pick)
    ensures Paid(Heated(f, pick), pick, magic) == Acted(f, pick)
  {
  }

  lemma Overwritten(fs: seq<Fightable>, a: nat, d: nat, x: Fightable, y: Fightable, z: Fightable)
    requires a < |fs| && d < |fs| && a != d
    ensures fs[a := x][a := y][d := z] == fs[a := y][d := z]
  {
  }

  class Fight {
    const friends: nat
    const enemies: nat
    const all: array<Fightable>
    var elapsedTicks: int

    ghost function Now(teamAlive: seq<int>): State
      reads this, all
    {
      State(all[..], elapsedTicks, teamAlive)
    }

    constructor (friends: seq<Fightable>, enemies: seq<Fightable>)
      ensures this.friends == |friends| && this.enemies == |enemies| && elapsedTicks == 0 && fresh(all)
      ensures all.Length == |friends| + |enemies| && Now([|friends|, |enemies|]) == Start(friends, enemies)
    {
      this.friends, this.enemies, elapsedTicks := |friends|, |enemies|, 0;
      var first := AssignTeam(friends, 0);
      var second := AssignTeam(enemies, 1);
      var numbered := AssignIdx(first + second);
      var sorted := SortByTempo(numbered);
      var again := AssignIdx(sorted);
      all := new Fightable[|again|](i requires 0 <= i < |again| => again[i]);
    }

    method AliveIndices() returns (alive: seq<nat>)
      ensures Roster(all[..], alive)
    {
      alive := [];
      for i := 0 to all.Length
        invariant forall k :: 0 <= k < |alive| ==> alive[k] < i && all[alive[k]].Living()
        invariant forall j, k :: 0 <= j < k < |alive| ==> alive[j] < alive[k]
        invariant forall k :: 0 <= k < i && all[k].Living() ==> k in alive
      {
        if all[i].Stat(HP) > 0 {
          alive := alive + [i];
        }
      }
    }

    /** The fastest to act, ties going to the lower index. */
    method FindNext(alive: seq<nat>) returns (ticks: int, attacker: nat)
      requires FitFighters(all[..]) && Roster(all[..], alive) && alive != []
      ensures NextUpTo(all[..], all.Length) == Some(attacker)
      ensures attacker in alive && ticks == all[..][attacker].TicksCalc()
    {
      assert forall i :: 0 <= i < all.Length ==> FitFighter(all[..][i]);
      ticks, attacker := all[alive[0]].TicksCalc(), alive[0];
      for i := 1 to |alive|
        invariant attacker in alive && ticks == all[attacker].TicksCalc()
        invariant forall k :: 0 <= k < i && alive[k] != attacker ==>
                    Before((ticks, attacker), (all[alive[k]].TicksCalc(), alive[k]))
      {
        var tick := all[alive[i]].TicksCalc();
        if Before((tick, alive[i]), (ticks, attacker)) {
          ticks, attacker := tick, alive[i];
        }
      }
      NextIs(all[..], attacker);
    }

    method AdvanceOne(idx: nat, ticks: int)
      requires idx < all.Length
      modifies all
      ensures all[..] == old(all[..])[idx := Advanced(old(all[idx]), ticks)]
    {
      var magics := Cool(all[idx].magics, ticks);
      assert magics == Advanced(all[idx], ticks).magics;
      all[idx] := all[idx].(progress := all[idx].progress + all[idx].Stat(SPEED) * ticks, magics := magics);
    }

    /** Everyone alive progresses and cools down; the most threatening enemy is picked on the way. */
    method Wait(alive: seq<nat>, ticks: int, attacker: nat) returns (target: int)
      requires Roster(all[..], alive) && attacker < all.Length
      modifies all
      ensures all[..] == AdvanceAll(old(all[..]), ticks)
      ensures target == ThreatUpTo(old(all[..]), attacker, all.Length).1
    {
      var threat := (-1, all[attacker].idx);
      ghost var before := all[..];
      for i := 0 to |alive|
        invariant Waited(before, all[..], alive[..i], ticks)
        invariant Worst(before, attacker, alive[..i], threat)
      {
        var idx := alive[i];
        assert alive[..i + 1] == alive[..i] + [idx] && idx !in alive[..i];
        assert all[idx] == before[idx];
        assert all[attacker].team == before[attacker].team;
        WorstExtends(before, attacker, alive[..i], threat, idx);
        WaitedExtends(before, all[..], alive[..i], ticks, idx);
        AdvanceOne(idx, ticks);
        if all[idx].team != all[attacker].team && Before(threat, (all[idx].ThreatCalc(), idx)) {
          threat := (all[idx].ThreatCalc(), idx);
        }
      }
      assert alive[..|alive|] == alive;
      WorstIsThreat(before, attacker, alive, threat);
      WaitedIsAdvanceAll(before, all[..], alive, ticks);
      target := threat.1;
    }

    /** Who acts, the wait that everybody shares, and the target. */
    method Schedule(ghost s: State) returns (a: nat, d: nat)
      requires s.all == all[..] && s.elapsed == elapsedTicks && Fit(s) && !Over(s)
      modifies this, all
      ensures a == Attacker(s) && d == Defender(s)
      ensures elapsedTicks == s.elapsed + Ticks(s)
      ensures all[..] == AdvanceAll(s.all, Ticks(s))
    {
      var alive := AliveIndices();
      SomeoneActs(s);
      assert alive != [];
      var ticks;
      ticks, a := FindNext(alive);
      elapsedTicks := elapsedTicks + ticks;
      var target := Wait(alive, ticks, a);
      SomeEnemyStands(s);
      d := target;
    }

    /** The first castable spell goes on cooldown; without one the default magic is used. */
    method PickAndHeat(a: nat) returns (pick: Option<nat>, magic: Magic)
      requires a < all.Length
      modifies all
      ensures pick == old(all[a]).FirstCastable(0)
      ensures magic == old(all[a]).ChosenMagic(pick)
      ensures all[..] == old(all[..])[a := Heated(old(all[a]), pick)]
    {
      pick := all[a].PickMagicIdx();
      magic := all[a].ChosenMagic(pick);
      if pick.Some? {
        all[a] := all[a].(magics := all[a].magics[pick.value := all[a].magics[pick.value].Heatup()]);
      }
    }

    /** Cost, damage, the count of the living, and the attacker's spent progress. */
    method Settle(a: nat, d: nat, pick: Option<nat>, magic: Magic, damage: int, teamAlive: seq<int>)
      returns (stillAlive: seq<int>)
      requires a < all.Length && d < all.Length && a != d
      requires |teamAlive| == 2 && 0 <= all[d].team <= 1
      modifies all
      ensures all[..] == old(all[..])[a := Paid(old(all[a]), pick, magic)][d := Hurt(old(all[d]), damage)]
      ensures stillAlive == if Hurt(old(all[d]), damage).Living() then teamAlive
                            else teamAlive[old(all[d]).team := teamAlive[old(all[d]).team] - 1]
    {
      stillAlive := teamAlive;
      if pick.Some? {
        all[a] := all[a].SetStat(MP, all[a].Stat(MP) - magic.mpCost);
      }
      all[d] := all[d].SetStat(HP, all[d].Stat(HP) - damage);
      if all[d].Stat(HP) <= 0 {
        stillAlive := stillAlive[all[d].team := stillAlive[all[d].team] - 1];
      }
      all[a] := all[a].(progress := 0);
    }

    /** Up to the draws of a round. */
    method BeginRound(ghost s: State) returns (a: nat, d: nat, pick: Option<nat>, magic: Magic)
      requires s.all == all[..] && s.elapsed == elapsedTicks && Fit(s) && !Over(s)
      modifies this, all
      ensures a == Attacker(s) && d == Defender(s)
      ensures elapsedTicks == s.elapsed + Ticks(s)
      ensures Begun(s, all[..], pick, magic)
    {
      a, d := Schedule(s);
      pick, magic := PickAndHeat(a);
    }

    /** From the draws of a round to its end. */
    method EndRound(ghost s: State, a: nat, d: nat, pick: Option<nat>, magic: Magic, damage: int, teamAlive: seq<int>)
      returns (stillAlive: seq<int>)
      requires Fit(s) && !Over(s) && s.alive == teamAlive && elapsedTicks == s.elapsed + Ticks(s)
      requires a == Attacker(s) && d == Defender(s) && Begun(s, all[..], pick, magic)
      modifies all
      ensures Now(stillAlive) == RoundWith(s, damage)
    {
      BegunFits(s, all[..], pick, magic);
      ghost var heated := all[..];
      stillAlive := Settle(a, d, pick, magic, damage, teamAlive);
      StepsAreRound(s, damage, pick, magic, heated, Now(stillAlive));
    }

    method RoundServer(ghost s: FitState, teamAlive: seq<int>, rng: RngServer)
      returns (stillAlive: Option<seq<int>>, ghost values: seq<int>)
      requires s == Now(teamAlive) && !Over(s)
      modifies this, all, rng
      ensures stillAlive.None? ==> ServerRun(FightGame(), s, old(rng.source)).CutOff?
      ensures stillAlive.Some? ==>
                && Fit(Now(stillAlive.value))
                && ServerRun(FightGame(), s, old(rng.source))
                   == ServerRun(FightGame(), Now(stillAlive.value), rng.source).After(values)
                && rng.generated == old(rng.generated) + values && |rng.source| < |old(rng.source)|
    {
      ServerRound(s, rng.source);
      var a, d, pick, magic := BeginRound(s);
      BegunFits(s, all[..], pick, magic);
      ghost var before := rng.generated;
      var damage := DamageCalcServer(all[a], magic, all[d], rng);
      if damage.None? {
        return None, [];
      }
      var next := EndRound(s, a, d, pick, magic, damage.value, teamAlive);
      values := rng.generated[|before|..];
      return Some(next), values;
    }

    method RoundClient(ghost s: FitState, teamAlive: seq<int>, rng: RngClient)
      returns (stillAlive: Option<seq<int>>, ghost values: seq<int>)
      requires s == Now(teamAlive) && !Over(s) && rng.Valid()
      modifies this, all, rng
      ensures rng.Valid()
      ensures stillAlive.None? ==> ClientRun(FightGame(), s, old(rng.Unread())).CutOff?
      ensures stillAlive.Some? ==>
                && Fit(Now(stillAlive.value))
                && ClientRun(FightGame(), s, old(rng.Unread()))
                   == ClientRun(FightGame(), Now(stillAlive.value), rng.Unread()).After(values)
                && |rng.Unread()| < |old(rng.Unread())|
    {
      ghost var unread := rng.Unread();
      ClientRound(s, unread);
      var a, d, pick, magic := BeginRound(s);
      BegunFits(s, all[..], pick, magic);
      var damage := DamageCalcClient(all[a], magic, all[d], rng);
      if damage.None? {
        return None, [];
      }
      var next := EndRound(s, a, d, pick, magic, damage.value, teamAlive);
      return Some(next), if Misses(s, unread[0]) then [unread[0]] else [unread[0], unread[1]];
    }

    /** The server's `go`: `None` only when its generator's words give out first. */
    method GoServer(rng: RngServer) returns (winner: Option<int>)
      requires Fit(Now([friends, enemies]))
      modifies this, all, rng
      ensures var run := ServerRun(FightGame(), old(Now([friends, enemies])), old(rng.source));
        && (winner.None? <==> run.CutOff?)
        && (winner.Some? ==>
              && all[..] == run.final.all && elapsedTicks == run.final.elapsed
              && winner.value == Winner(run.final)
              && rng.generated == old(rng.generated) + run.drawn && rng.source == run.unread)
    {
      var teamAlive := [friends, enemies];
      ghost var run, drawn := ServerRun(FightGame(), Now(teamAlive), rng.source), [];
      run.AfterNothing();
      while !(teamAlive[0] == 0 || teamAlive[1] == 0)
        invariant |teamAlive| == 2 && Fit(Now(teamAlive))
        invariant rng.generated == old(rng.generated) + drawn
        invariant run == ServerRun(FightGame(), Now(teamAlive), rng.source).After(drawn)
        decreases |rng.source|
      {
        var stillAlive, values := RoundServer(Now(teamAlive), teamAlive, rng);
        if stillAlive.None? {
          return None;
        }
        ServerRun(FightGame(), Now(stillAlive.value), rng.source).AfterTwice(drawn, values);
        Regroup(old(rng.generated), drawn, values);
        teamAlive, drawn := stillAlive.value, drawn + values;
      }
      ServerDone(Now(teamAlive), rng.source);
      return Some(if teamAlive[1] == 0 then 0 else 1);
    }

    /** The client's `go`: `None` is the failing assertion of its generator. */
    method GoClient(rng: RngClient) returns (winner: Option<int>)
      requires Fit(Now([friends, enemies])) && rng.Valid()
      modifies this, all, rng
      ensures rng.Valid()
      ensures var run := ClientRun(FightGame(), old(Now([friends, enemies])), old(rng.Unread()));
        && (winner.None? <==> run.CutOff?)
        && (winner.Some? ==>
              && all[..] == run.final.all && elapsedTicks == run.final.elapsed
              && winner.value == Winner(run.final) && rng.Unread() == run.unread)
    {
      var teamAlive := [friends, enemies];
      ghost var run, drawn := ClientRun(FightGame(), Now(teamAlive), rng.Unread()), [];
      run.AfterNothing();
      while !(teamAlive[0] == 0 || teamAlive[1] == 0)
        invariant |teamAlive| == 2 && Fit(Now(teamAlive)) && rng.Valid()
        invariant run == ClientRun(FightGame(), Now(teamAlive), rng.Unread()).After(drawn)
        decreases |rng.Unread()|
      {
        var stillAlive, values := RoundClient(Now(teamAlive), teamAlive, rng);
        if stillAlive.None? {
          return None;
        }
        ClientRun(FightGame(), Now(stillAlive.value), rng.Unread()).AfterTwice(drawn, values);
        teamAlive, drawn := stillAlive.value, drawn + values;
      }
      ClientDone(Now(teamAlive), rng.Unread());
      return Some(if teamAlive[1] == 0 then 0 else 1);
    }
  }
}
