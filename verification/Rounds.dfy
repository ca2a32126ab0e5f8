/** One round of a fight as a function of the state before it and the values drawn in it. */
module Rounds {
  import opened Structs
  import opened Fighter

  /** Everything `go` carries from round to round: the fighters, the clock, the count of living per team. */
  datatype State = State(all: seq<Fightable>, elapsed: int, alive: seq<int>)

  /** Strict order of `std::pair`: first components, ties by second. */
  predicate Before(a: (int, int), b: (int, int)) {
    a.0 < b.0 || (a.0 == b.0 && a.1 < b.1)
  }

  function CountLiving(all: seq<Fightable>, team: int): (n: nat)
    ensures n == 0 <==> forall i :: 0 <= i < |all| ==> !(all[i].Living() && all[i].team == team)
  {
    if all == [] then 0
    else CountLiving(all[..|all| - 1], team)
         + if all[|all| - 1].Living() && all[|all| - 1].team == team then 1 else 0
  }

  ghost predicate Opposed(a: Fightable, b: Fightable) { a.team != b.team }

  /** What `go` relies on without establishing it; nothing here changes in a fight. */
  ghost predicate FitFighter(f: Fightable) {
    && 0 <= f.team <= 1
    && f.Stat(SPEED) > 0
    && f.Stat(ATTACK_MIN) <= f.Stat(ATTACK_MAX)
    && f.ThreatCalc() >= 0
    && f.Stat(DEFENCE) + DEFENCE_EXTENSION != 0
  }

  ghost predicate FitFighters(all: seq<Fightable>) {
    && (forall i :: 0 <= i < |all| ==> FitFighter(all[i]) && all[i].idx == i)
    && (forall i, j :: 0 <= i < |all| && 0 <= j < |all| && Opposed(all[i], all[j])
          ==> all[i].Stat(ACCURACY) + all[j].Stat(ACCURACY) != 0)
  }

  /** The invariant of `go`: fit fighters, and counters that equal the number of living fighters. */
  ghost predicate Fit(s: State) {
    && FitFighters(s.all)
    && |s.alive| == 2
    && s.alive[0] == CountLiving(s.all, 0)
    && s.alive[1] == CountLiving(s.all, 1)
  }

  predicate Over(s: State)
    requires |s.alive| == 2
  {
    s.alive[0] == 0 || s.alive[1] == 0
  }

  function Winner(s: State): int
    requires |s.alive| == 2
  {
    if s.alive[1] == 0 then 0 else 1
  }

  /** Among the first `n` fighters, the living one with the least (ticks, index). */
  function NextUpTo(all: seq<Fightable>, n: nat): (r: Option<nat>)
    requires n <= |all| && FitFighters(all)
    ensures r.None? <==> forall j :: 0 <= j < n ==> !all[j].Living()
    ensures r.Some? ==> r.value < n && all[r.value].Living()
    ensures r.Some? ==> forall j :: 0 <= j < n && all[j].Living() && j != r.value ==>
              Before((all[r.value].TicksCalc(), r.value), (all[j].TicksCalc(), j))
  {
    if n == 0 then None
    else
      var r := NextUpTo(all, n - 1);
      if !all[n - 1].Living() then r
      else if r.None? || Before((all[n - 1].TicksCalc(), n - 1), (all[r.value].TicksCalc(), r.value)) then Some(n - 1)
      else r
  }

  /** The greatest (threat, index) among the living enemies of `a` in the first `n` fighters,
      or the placeholder (-1, index of `a`) that the search starts from. */
  function ThreatUpTo(all: seq<Fightable>, a: nat, n: nat): (r: (int, int))
    requires n <= |all| && a < |all|
    ensures forall j :: 0 <= j < n && all[j].Living() && Opposed(all[a], all[j]) ==>
              !Before(r, (all[j].ThreatCalc(), j))
    ensures !Before(r, (-1, all[a].idx))
    ensures r == (-1, all[a].idx)
            || (0 <= r.1 < n && all[r.1].Living() && Opposed(all[a], all[r.1]) && r.0 == all[r.1].ThreatCalc())
  {
    if n == 0 then (-1, all[a].idx)
    else
      var r := ThreatUpTo(all, a, n - 1);
      var f := all[n - 1];
      if f.Living() && f.team != all[a].team && Before(r, (f.ThreatCalc(), n - 1)) then (f.ThreatCalc(), n - 1) else r
  }

  /** Without what `Fit` asks of threats, the assertion after the target search holds exactly when some living enemy
      exceeds the placeholder it starts from. */
  lemma TargetAssertionExactly(all: seq<Fightable>, a: nat)
    requires a < |all| && (forall i :: 0 <= i < |all| ==> all[i].idx == i)
    ensures ThreatUpTo(all, a, |all|).1 != a
            <==> exists j :: 0 <= j < |all| && all[j].Living() && Opposed(all[a], all[j])
                             && Before((-1, a), (all[j].ThreatCalc(), j))
  {
    var r := ThreatUpTo(all, a, |all|);
    if r.1 != a {
      assert Before((-1, a), (all[r.1].ThreatCalc(), r.1));
    }
  }

  lemma SomeoneActs(s: State)
    requires Fit(s) && !Over(s)
    ensures NextUpTo(s.all, |s.all|).Some?
  {
  }

  /** The fighter that acts next. */
  function Attacker(s: State): (a: nat)
    requires Fit(s) && !Over(s)
    ensures a < |s.all| && s.all[a].Living()
    ensures forall j :: 0 <= j < |s.all| && s.all[j].Living() && j != a ==>
              Before((s.all[a].TicksCalc(), a), (s.all[j].TicksCalc(), j))
  {
    SomeoneActs(s);
    NextUpTo(s.all, |s.all|).value
  }

  /** How long everyone waits for it. */
  function Ticks(s: State): (t: int)
    requires Fit(s) && !Over(s)
    ensures 0 <= t
    ensures forall j :: 0 <= j < |s.all| && s.all[j].Living() ==> t <= s.all[j].TicksCalc()
  {
    s.all[Attacker(s)].TicksCalc()
  }

  lemma SomeEnemyStands(s: State)
    requires Fit(s) && !Over(s)
    ensures var a := Attacker(s); ThreatUpTo(s.all, a, |s.all|) != (-1, s.all[a].idx)
  {
    var a := Attacker(s);
    var enemy := 1 - s.all[a].team;
    assert CountLiving(s.all, enemy) != 0;
    var i :| 0 <= i < |s.all| && s.all[i].Living() && s.all[i].team == enemy;
    assert Opposed(s.all[a], s.all[i]);
  }

  /** Its target: the living enemy with the greatest (threat, index). */
  function Defender(s: State): (d: nat)
    requires Fit(s) && !Over(s)
    ensures d < |s.all| && s.all[d].Living() && Opposed(s.all[Attacker(s)], s.all[d])
    ensures forall j :: 0 <= j < |s.all| && s.all[j].Living() && Opposed(s.all[Attacker(s)], s.all[j]) && j != d ==>
              Before((s.all[j].ThreatCalc(), j), (s.all[d].ThreatCalc(), d))
  {
    SomeEnemyStands(s);
    ThreatUpTo(s.all, Attacker(s), |s.all|).1
  }

  /** A living fighter after `ticks` of waiting. */
  function Advanced(f: Fightable, ticks: int): Fightable {
    f.(progress := f.progress + f.Stat(SPEED) * ticks,
       magics := seq(|f.magics|, i requires 0 <= i < |f.magics| => f.magics[i].Cooldown(ticks)))
  }

  function AdvanceAll(all: seq<Fightable>, ticks: int): seq<Fightable> {
    seq(|all|, i requires 0 <= i < |all| => if all[i].Living() then Advanced(all[i], ticks) else all[i])
  }

  /** The attacker once it has acted: spell on cooldown, its cost paid, progress gone. */
  function Acted(f: Fightable, pick: Option<nat>): Fightable
    requires pick.Some? ==> pick.value < |f.magics|
  {
    var g := f.(progress := 0);
    if pick.None? then g
    else
      g.SetStat(MP, f.Stat(MP) - f.magics[pick.value].realMagic.mpCost)
       .(magics := f.magics[pick.value := f.magics[pick.value].Heatup()])
  }

  function Hurt(f: Fightable, damage: int): Fightable { f.SetStat(HP, f.Stat(HP) - damage) }

  /** The spell the attacker casts, once the wait has cooled its spells. */
  function Spell(s: State): (pick: Option<nat>)
    requires Fit(s) && !Over(s)
    ensures pick.Some? ==> pick.value < |s.all[Attacker(s)].magics|
  {
    Advanced(s.all[Attacker(s)], Ticks(s)).FirstCastable(0)
  }

  function Damage(s: State, hit: int, roll: int): int
    requires Fit(s) && !Over(s)
  {
    var a, d := s.all[Attacker(s)], s.all[Defender(s)];
    DamageCalc(a, a.ChosenMagic(Spell(s)), d, hit, roll)
  }

  predicate Misses(s: State, hit: int)
    requires Fit(s) && !Over(s)
  {
    Evades(s.all[Attacker(s)], s.all[Defender(s)], hit)
  }

  function RoundWith(s: State, damage: int): State
    requires Fit(s) && !Over(s)
  {
    var a, d := Attacker(s), Defender(s);
    var waited := AdvanceAll(s.all, Ticks(s));
    var hurt := Hurt(waited[d], damage);
    State(waited[a := Acted(waited[a], Spell(s))][d := hurt],
          s.elapsed + Ticks(s),
          if hurt.Living() then s.alive else s.alive[hurt.team := s.alive[hurt.team] - 1])
  }

  function Round(s: State, hit: int, roll: int): State
    requires Fit(s) && !Over(s)
  {
    RoundWith(s, Damage(s, hit, roll))
  }
}
