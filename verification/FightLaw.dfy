/** A round of a fight as a law, stated without the engine's searches, divisions and loops, and the proof that
    the engine's round is the only one that obeys it. */
module FightLaw {
  import opened Structs
  import opened Fighter
  import opened Rounds

  /** What happened in a round. */
  datatype Event = Event(attacker: nat, ticks: int, defender: nat, spell: Option<nat>, damage: int)

  /** What never changes about a fighter. */
  ghost predicate SameFighter(f: Fightable, g: Fightable) {
    && f.idx == g.idx && f.team == g.team
    && f.charData.(stats := g.charData.stats) == g.charData
    && (forall key :: 0 <= key < STAT_KEYS && key != HP && key != MP ==> f.Stat(key) == g.Stat(key))
    && |f.magics| == |g.magics|
    && (forall m :: 0 <= m < |f.magics| ==> f.magics[m].realMagic == g.magics[m].realMagic)
  }

  /** `a` is the first of the living, in index order, to stand at the mark after `ticks`, and nobody stood
      there any sooner. */
  ghost predicate ActsNext(all: seq<Fightable>, a: nat, ticks: int) {
    && 0 <= ticks
    && a < |all| && all[a].Living()
    && FIGHT_MAX_PROG <= all[a].Reach(ticks)
    && (forall j {:trigger all[j].Reach(ticks)} :: 0 <= j < a && all[j].Living() ==>
          all[j].Reach(ticks) < FIGHT_MAX_PROG)
    && (0 < ticks ==> forall j {:trigger all[j].Reach(ticks - 1)} :: 0 <= j < |all| && all[j].Living() ==>
          all[j].Reach(ticks - 1) < FIGHT_MAX_PROG)
  }

  /** `d` is a living enemy of `a` that no other living enemy exceeds in the sum of its attack bounds, or equals in it
      from a later position. */
  ghost predicate Targeted(all: seq<Fightable>, a: nat, d: nat)
    requires a < |all|
  {
    && d < |all| && all[d].Living() && Opposed(all[a], all[d])
    && (forall j :: 0 <= j < |all| && all[j].Living() && Opposed(all[a], all[j]) && j != d ==>
          var sum, best := all[j].Stat(ATTACK_MIN) + all[j].Stat(ATTACK_MAX),
                           all[d].Stat(ATTACK_MIN) + all[d].Stat(ATTACK_MAX);
          sum < best || (sum == best && j < d))
  }

  /** Spell `m` has cooled down after `ticks` and its cost leaves mana. */
  ghost predicate CanCast(f: Fightable, m: nat, ticks: int)
    requires m < |f.magics|
  {
    f.magics[m].cd <= ticks && f.magics[m].realMagic.mpCost < f.Stat(MP)
  }

  ghost predicate FirstSpell(f: Fightable, spell: Option<nat>, ticks: int) {
    && (spell.None? ==> forall m :: 0 <= m < |f.magics| ==> !CanCast(f, m, ticks))
    && (spell.Some? ==> spell.value < |f.magics| && CanCast(f, spell.value, ticks))
    && (spell.Some? ==> forall m :: 0 <= m < spell.value ==> !CanCast(f, m, ticks))
  }

  /** What an event does to fighter `i`: the dead are untouched, the living wait and cool down, the attacker
      acts, the defender is hurt. */
  ghost predicate OnFighter(f: Fightable, e: Event, i: nat, g: Fightable)
    requires i == e.attacker && e.spell.Some? ==> e.spell.value < |f.magics|
  {
    && SameFighter(f, g)
    && (!f.Living() ==> g == f)
    && g.Stat(HP) == f.Stat(HP) - (if i == e.defender then e.damage else 0)
    && g.Stat(MP) == f.Stat(MP) - (if i == e.attacker && e.spell.Some? then f.magics[e.spell.value].realMagic.mpCost
                                   else 0)
    && (f.Living() ==> g.progress == if i == e.attacker then 0 else f.Reach(e.ticks))
    && (f.Living() ==> forall m :: 0 <= m < |g.magics| ==>
          g.magics[m].cd == if i == e.attacker && e.spell == Some(m) then f.magics[m].realMagic.cd
                            else if f.magics[m].cd <= e.ticks then 0 else f.magics[m].cd - e.ticks)
  }

  /** Who acts, after how long, on whom, with what. */
  ghost predicate Chosen(all: seq<Fightable>, e: Event) {
    && ActsNext(all, e.attacker, e.ticks)
    && Targeted(all, e.attacker, e.defender)
    && FirstSpell(all[e.attacker], e.spell, e.ticks)
  }

  ghost predicate OnFighters(xs: seq<Fightable>, e: Event, ys: seq<Fightable>)
    requires e.attacker < |xs| && (e.spell.Some? ==> e.spell.value < |xs[e.attacker].magics|)
  {
    |ys| == |xs| && forall i :: 0 <= i < |xs| ==> OnFighter(xs[i], e, i, ys[i])
  }

  /** The law of a round: the choices, what they do to every fighter and to the clock, and counters that drop
      exactly when the defender falls. */
  ghost predicate LegalRound(s: State, e: Event, t: State) {
    && |s.alive| == 2 && s.alive[0] != 0 && s.alive[1] != 0
    && Chosen(s.all, e)
    && OnFighters(s.all, e, t.all)
    && t.elapsed == s.elapsed + e.ticks
    && Counted(s.alive, s.all[e.defender].team, t.all[e.defender].Living(), t.alive)
  }

  ghost predicate Counted(before: seq<int>, team: int, stands: bool, after: seq<int>)
    requires |before| == 2
  {
    0 <= team <= 1 && after == if stands then before else before[team := before[team] - 1]
  }

  // ---------- The engine's round obeys the law ----------

  function EventOf(s: State, damage: int): Event
    requires Fit(s) && !Over(s)
  {
    Event(Attacker(s), Ticks(s), Defender(s), Spell(s), damage)
  }

  lemma EngineActsNext(s: State)
    requires Fit(s) && !Over(s)
    ensures ActsNext(s.all, Attacker(s), Ticks(s))
  {
    var a, ticks := Attacker(s), Ticks(s);
    forall j | 0 <= j < |s.all| && s.all[j].Living()
      ensures j < a ==> s.all[j].Reach(ticks) < FIGHT_MAX_PROG
      ensures 0 < ticks ==> s.all[j].Reach(ticks - 1) < FIGHT_MAX_PROG
    {
      assert FitFighter(s.all[j]);
      assert j < a ==> ticks < s.all[j].TicksCalc();
      if j < a {
        NotYet(s.all[j], ticks);
      }
      if 0 < ticks {
        NotYet(s.all[j], ticks - 1);
      }
    }
  }

  /** Before its ticks are up a fighter is short of the mark. */
  lemma NotYet(f: Fightable, wait: int)
    requires f.Stat(SPEED) > 0 && 0 <= wait < f.TicksCalc()
    ensures f.Reach(wait) < FIGHT_MAX_PROG
  {
    LongerWaitsMore(f.Stat(SPEED), wait, f.TicksCalc() - 1);
    assert f.Reach(f.TicksCalc() - 1) < FIGHT_MAX_PROG;
  }

  lemma LongerWaitsMore(speed: int, wait: int, longer: int)
    requires speed > 0
    ensures wait <= longer ==> speed * wait <= speed * longer
  {
  }

  lemma EngineCasts(s: State)
    requires Fit(s) && !Over(s)
    ensures FirstSpell(s.all[Attacker(s)], Spell(s), Ticks(s))
  {
    var f, ticks := s.all[Attacker(s)], Ticks(s);
    var waited := Advanced(f, ticks);
    forall m | 0 <= m < |f.magics|
      ensures waited.Castable(m) == CanCast(f, m, ticks)
    {
    }
    assert waited.FirstCastable(0) == Spell(s);
  }

  lemma ActedLike(f: Fightable, spell: Option<nat>, e: Event)
    requires e.spell == spell && (spell.Some? ==> spell.value < |f.magics|)
    requires e.attacker != e.defender && f.Living()
    ensures OnFighter(f, e, e.attacker, Acted(Advanced(f, e.ticks), spell))
  {
  }

  lemma HurtLike(f: Fightable, e: Event)
    requires e.attacker != e.defender && f.Living()
    ensures OnFighter(f, e, e.defender, Hurt(Advanced(f, e.ticks), e.damage))
  {
  }

  lemma WaitedLike(f: Fightable, e: Event, i: nat)
    requires i != e.attacker && i != e.defender
    ensures OnFighter(f, e, i, if f.Living() then Advanced(f, e.ticks) else f)
  {
  }

  lemma EngineOnFighter(s: State, damage: int, i: nat)
    requires Fit(s) && !Over(s) && i < |s.all|
    ensures |RoundWith(s, damage).all| == |s.all|
    ensures OnFighter(s.all[i], EventOf(s, damage), i, RoundWith(s, damage).all[i])
  {
    var e := EventOf(s, damage);
    if i == e.attacker {
      ActedLike(s.all[i], e.spell, e);
    } else if i == e.defender {
      HurtLike(s.all[i], e);
    } else {
      WaitedLike(s.all[i], e, i);
    }
  }

  lemma EngineChooses(s: State, damage: int)
    requires Fit(s) && !Over(s)
    ensures Chosen(s.all, EventOf(s, damage))
  {
    EngineActsNext(s);
    EngineCasts(s);
  }

  lemma EngineOnFighters(s: State, damage: int)
    requires Fit(s) && !Over(s)
    ensures OnFighters(s.all, EventOf(s, damage), RoundWith(s, damage).all)
  {
    forall i | 0 <= i < |s.all|
      ensures |RoundWith(s, damage).all| == |s.all|
      ensures OnFighter(s.all[i], EventOf(s, damage), i, RoundWith(s, damage).all[i])
    {
      EngineOnFighter(s, damage, i);
    }
    EngineOnFighter(s, damage, Attacker(s));
  }

  lemma EngineCounts(s: State, damage: int)
    requires Fit(s) && !Over(s)
    ensures |RoundWith(s, damage).all| == |s.all|
    ensures RoundWith(s, damage).elapsed == s.elapsed + EventOf(s, damage).ticks
    ensures var e, t := EventOf(s, damage), RoundWith(s, damage);
      Counted(s.alive, s.all[e.defender].team, t.all[e.defender].Living(), t.alive)
  {
    assert FitFighter(s.all[Defender(s)]);
  }

  lemma RoundIsLegal(s: State, damage: int)
    requires Fit(s) && !Over(s)
    ensures LegalRound(s, EventOf(s, damage), RoundWith(s, damage))
  {
    EngineChooses(s, damage);
    EngineOnFighters(s, damage);
    EngineCounts(s, damage);
  }

  // ---------- And it is the only one ----------

  /** What `ActsNext` says of one living fighter. */
  lemma NobodySooner(all: seq<Fightable>, a: nat, ticks: int, j: nat)
    requires ActsNext(all, a, ticks) && j < |all| && all[j].Living()
    ensures j < a ==> all[j].Reach(ticks) < FIGHT_MAX_PROG
    ensures 0 < ticks ==> all[j].Reach(ticks - 1) < FIGHT_MAX_PROG
  {
  }

  lemma OneActsNext(all: seq<Fightable>, a: nat, ticks: int, b: nat, wait: int)
    requires forall i :: 0 <= i < |all| ==> all[i].Stat(SPEED) > 0
    requires ActsNext(all, a, ticks) && ActsNext(all, b, wait)
    ensures a == b && ticks == wait
  {
    LongerWaitsMore(all[a].Stat(SPEED), ticks, wait - 1);
    LongerWaitsMore(all[b].Stat(SPEED), wait, ticks - 1);
    NobodySooner(all, a, ticks, b);
    NobodySooner(all, b, wait, a);
  }

  lemma FighterFixed(f: Fightable, g: Fightable, h: Fightable)
    requires SameFighter(f, g) && SameFighter(f, h)
    requires g.Stat(HP) == h.Stat(HP) && g.Stat(MP) == h.Stat(MP) && g.progress == h.progress
    requires forall m :: 0 <= m < |g.magics| ==> g.magics[m].cd == h.magics[m].cd
    ensures g == h
  {
    forall key | 0 <= key < STAT_KEYS
      ensures g.charData.stats[key] == h.charData.stats[key]
    {
      assert g.Stat(key) == h.Stat(key);
    }
    assert g.charData.stats == h.charData.stats;
    assert g.magics == h.magics;
  }

  lemma OneEffect(f: Fightable, e: Event, i: nat, g: Fightable, h: Fightable)
    requires i == e.attacker && e.spell.Some? ==> e.spell.value < |f.magics|
    requires OnFighter(f, e, i, g) && OnFighter(f, e, i, h)
    ensures g == h
  {
    if f.Living() {
      FighterFixed(f, g, h);
    }
  }

  /** From a fit state the law leaves nothing open but the damage: event and outcome are the engine's. */
  lemma LegalIsRound(s: State, e: Event, t: State)
    requires Fit(s) && LegalRound(s, e, t)
    ensures e == EventOf(s, e.damage) && t == RoundWith(s, e.damage)
  {
    var r, own := RoundWith(s, e.damage), EventOf(s, e.damage);
    RoundIsLegal(s, e.damage);
    assert own.damage == e.damage;
    LegalsAgree(s, e, t, own, r);
  }

  lemma LegalsAgree(s: State, e: Event, t: State, own: Event, r: State)
    requires FitFighters(s.all) && LegalRound(s, e, t) && LegalRound(s, own, r) && e.damage == own.damage
    ensures e == own && t == r
  {
    assert forall i :: 0 <= i < |s.all| ==> FitFighter(s.all[i]);
    OneActsNext(s.all, e.attacker, e.ticks, own.attacker, own.ticks);
    assert e.defender == own.defender;
    assert e.spell == own.spell;
    forall i | 0 <= i < |s.all|
      ensures t.all[i] == r.all[i]
    {
      OneEffect(s.all[i], e, i, t.all[i], r.all[i]);
    }
    assert t.all == r.all;
  }

  // ---------- The invariant of `go` ----------

  /** Two lists that agree on who lives in `team` everywhere but at `d` differ in their counts by `d` alone. */
  lemma {:induction false} CountLivingDiff(xs: seq<Fightable>, ys: seq<Fightable>, team: int, d: nat)
    requires |xs| == |ys| && d < |xs|
    requires forall i :: 0 <= i < |xs| && i != d ==>
               (xs[i].Living() && xs[i].team == team <==> ys[i].Living() && ys[i].team == team)
    ensures CountLiving(ys, team) == CountLiving(xs, team)
              - (if xs[d].Living() && xs[d].team == team then 1 else 0)
              + (if ys[d].Living() && ys[d].team == team then 1 else 0)
  {
    var n := |xs| - 1;
    if d < n {
      CountLivingDiff(xs[..n], ys[..n], team, d);
    } else {
      CountLivingSame(xs[..n], ys[..n], team);
    }
  }

  lemma {:induction false} CountLivingSame(xs: seq<Fightable>, ys: seq<Fightable>, team: int)
    requires |xs| == |ys|
    requires forall i :: 0 <= i < |xs| ==>
               (xs[i].Living() && xs[i].team == team <==> ys[i].Living() && ys[i].team == team)
    ensures CountLiving(xs, team) == CountLiving(ys, team)
  {
    if xs != [] {
      CountLivingSame(xs[..|xs| - 1], ys[..|ys| - 1], team);
    }
  }

  lemma SameFightersStayFit(xs: seq<Fightable>, ys: seq<Fightable>)
    requires FitFighters(xs) && |xs| == |ys|
    requires forall i :: 0 <= i < |xs| ==> SameFighter(xs[i], ys[i])
    ensures FitFighters(ys)
  {
    forall i, j | 0 <= i < |ys| && 0 <= j < |ys| && Opposed(ys[i], ys[j])
      ensures ys[i].Stat(ACCURACY) + ys[j].Stat(ACCURACY) != 0
    {
      assert Opposed(xs[i], xs[j]);
    }
    forall i | 0 <= i < |ys|
      ensures FitFighter(ys[i]) && ys[i].idx == i
    {
      assert FitFighter(xs[i]);
    }
  }

  lemma CountersFollow(xs: seq<Fightable>, ys: seq<Fightable>, alive: seq<int>, d: nat)
    requires |xs| == |ys| && d < |xs| && xs[d].Living() && |alive| == 2 && 0 <= xs[d].team <= 1
    requires forall i :: 0 <= i < |xs| ==> xs[i].team == ys[i].team
    requires forall i :: 0 <= i < |xs| && i != d ==> xs[i].Living() == ys[i].Living()
    requires alive[0] == CountLiving(xs, 0) && alive[1] == CountLiving(xs, 1)
    ensures var after := if ys[d].Living() then alive else alive[xs[d].team := alive[xs[d].team] - 1];
      after[0] == CountLiving(ys, 0) && after[1] == CountLiving(ys, 1)
  {
    CountLivingDiff(xs, ys, 0, d);
    CountLivingDiff(xs, ys, 1, d);
  }

  /** The invariant of `go` is kept by every round, whatever the blow deals, and the attacker's team still
      stands afterwards: a death is counted once, on the right team. */
  lemma LegalKeepsFit(s: State, e: Event, t: State)
    requires Fit(s) && LegalRound(s, e, t)
    ensures Fit(t)
    ensures t.alive[s.all[e.attacker].team] > 0
  {
    forall i | 0 <= i < |s.all|
      ensures SameFighter(s.all[i], t.all[i]) && (i != e.defender ==> t.all[i].Living() == s.all[i].Living())
    {
      assert OnFighter(s.all[i], e, i, t.all[i]);
    }
    CountersFollow(s.all, t.all, s.alive, e.defender);
    SameFightersStayFit(s.all, t.all);
    assert t.all[e.attacker].Living();
    assert FitFighter(t.all[e.attacker]);
  }

  lemma RoundKeepsFit(s: State, damage: int)
    requires Fit(s) && !Over(s)
    ensures Fit(RoundWith(s, damage))
  {
    RoundIsLegal(s, damage);
    LegalKeepsFit(s, EventOf(s, damage), RoundWith(s, damage));
  }
}
