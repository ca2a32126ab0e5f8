/** Whole fights: what holds after any number of legal rounds, whatever their blows deal. */
module FightRuns {
  import opened Structs
  import opened Fighter
  import opened Rounds
  import opened FightLaw

  /** A fight from its first state on: one event between any two consecutive states. */
  ghost predicate Run(states: seq<State>, events: seq<Event>) {
    && |states| == |events| + 1
    && Fit(states[0])
    && (forall k :: 0 <= k < |events| ==> RoundAt(states, events, k))
  }

  ghost predicate RoundAt(states: seq<State>, events: seq<Event>, k: nat)
    requires |states| == |events| + 1 && k < |events|
  {
    LegalRound(states[k], events[k], states[k + 1])
  }

  /** A fight as it starts: nobody has waited yet. */
  ghost predicate Fresh(s: State) {
    && Fit(s)
    && s.elapsed == 0
    && (forall i :: 0 <= i < |s.all| ==> s.all[i].progress == 0)
  }

  // ---------- What a fight never changes, and what it never undoes ----------

  lemma FitAfter(states: seq<State>, events: seq<Event>, k: nat)
    requires Run(states, events) && k < |events| && Fit(states[k])
    ensures Fit(states[k + 1]) && |states[k + 1].all| == |states[k].all|
  {
    assert RoundAt(states, events, k);
    LegalKeepsFit(states[k], events[k], states[k + 1]);
  }

  lemma {:induction false} RunStaysFit(states: seq<State>, events: seq<Event>, k: nat)
    requires Run(states, events) && k <= |events|
    ensures Fit(states[k]) && |states[k].all| == |states[0].all|
  {
    if k > 0 {
      RunStaysFit(states, events, k - 1);
      FitAfter(states, events, k - 1);
    }
  }

  lemma OneFighter(s: State, e: Event, t: State, f: nat)
    requires LegalRound(s, e, t) && f < |s.all|
    ensures |t.all| == |s.all|
    ensures SameFighter(s.all[f], t.all[f])
    ensures !s.all[f].Living() ==> t.all[f] == s.all[f]
  {
    assert OnFighter(s.all[f], e, f, t.all[f]);
  }

  lemma OneFighterAt(states: seq<State>, events: seq<Event>, k: nat, f: nat)
    requires Run(states, events) && k < |events| && f < |states[k].all|
    ensures |states[k + 1].all| == |states[k].all|
    ensures SameFighter(states[k].all[f], states[k + 1].all[f])
    ensures !states[k].all[f].Living() ==> states[k + 1].all[f] == states[k].all[f]
  {
    assert RoundAt(states, events, k);
    OneFighter(states[k], events[k], states[k + 1], f);
  }

  /** No round changes who a fighter is: team, speed, attack, spells and every stat but hp and mp. */
  lemma {:induction false} FighterKept(states: seq<State>, events: seq<Event>, j: nat, k: nat, f: nat)
    requires Run(states, events) && j <= k <= |events| && f < |states[0].all|
    ensures |states[j].all| == |states[k].all| == |states[0].all|
    ensures SameFighter(states[j].all[f], states[k].all[f])
  {
    RunStaysFit(states, events, j);
    if j < k {
      FighterKept(states, events, j, k - 1, f);
      OneFighterAt(states, events, k - 1, f);
      SameTransitive(states[j].all[f], states[k - 1].all[f], states[k].all[f]);
    }
  }

  lemma SameTransitive(f: Fightable, g: Fightable, h: Fightable)
    requires SameFighter(f, g) && SameFighter(g, h)
    ensures SameFighter(f, h)
  {
    assert forall key :: 0 <= key < STAT_KEYS && key != HP && key != MP ==> f.Stat(key) == g.Stat(key);
  }

  /** The dead stay exactly as they fell. */
  lemma {:induction false} DeadStayDead(states: seq<State>, events: seq<Event>, j: nat, k: nat, f: nat)
    requires Run(states, events) && j <= k <= |events| && f < |states[0].all|
    ensures |states[j].all| == |states[k].all| == |states[0].all|
    ensures !states[j].all[f].Living() ==> states[k].all[f] == states[j].all[f]
  {
    RunStaysFit(states, events, j);
    if j < k {
      DeadStayDead(states, events, j, k - 1, f);
      OneFighterAt(states, events, k - 1, f);
    }
  }

  lemma {:induction false} ClockForward(states: seq<State>, events: seq<Event>, j: nat, k: nat)
    requires Run(states, events) && j <= k <= |events|
    ensures states[j].elapsed <= states[k].elapsed
  {
    if j < k {
      ClockForward(states, events, j, k - 1);
      assert RoundAt(states, events, k - 1);
    }
  }

  lemma OverMeans(s: State)
    requires Fit(s) && Over(s)
    ensures forall i :: 0 <= i < |s.all| && s.all[i].Living() ==> s.all[i].team == Winner(s)
    ensures s.alive[0] + s.alive[1] > 0 ==> exists i :: 0 <= i < |s.all| && s.all[i].Living()
  {
    assert CountLiving(s.all, 1 - Winner(s)) == 0;
    forall i | 0 <= i < |s.all| && s.all[i].Living()
      ensures s.all[i].team == Winner(s)
    {
      assert FitFighter(s.all[i]);
    }
  }

  /** Exit: the losing team is all dead and the winner has a survivor. */
  lemma FightEnds(states: seq<State>, events: seq<Event>)
    requires Run(states, events) && |events| > 0
    ensures var s := states[|events|];
      && Fit(s)
      && (Over(s) ==> forall i :: 0 <= i < |s.all| && s.all[i].Living() ==> s.all[i].team == Winner(s))
      && (Over(s) ==> exists i :: 0 <= i < |s.all| && s.all[i].Living())
  {
    var n := |events|;
    RunStaysFit(states, events, n);
    AttackerStands(states, events, n - 1);
    if Over(states[n]) {
      OverMeans(states[n]);
    }
  }

  lemma AttackerStands(states: seq<State>, events: seq<Event>, k: nat)
    requires Run(states, events) && k < |events|
    ensures |states[k + 1].alive| == 2 && states[k + 1].alive[0] + states[k + 1].alive[1] > 0
  {
    RunStaysFit(states, events, k);
    RunStaysFit(states, events, k + 1);
    assert RoundAt(states, events, k);
    LegalKeepsFit(states[k], events[k], states[k + 1]);
    assert FitFighter(states[k].all[events[k].attacker]);
  }

  // ---------- Tempo ----------

  /** How often `f` acted in the first `k` rounds. */
  function Actions(events: seq<Event>, k: nat, f: nat): nat
    requires k <= |events|
  {
    if k == 0 then 0 else Actions(events, k - 1, f) + if events[k - 1].attacker == f then 1 else 0
  }

  ghost predicate InTempo(f: Fightable, elapsed: int, actions: int) {
    Paced(f.Stat(SPEED), elapsed, actions, f.progress) && f.progress <= FIGHT_MAX_PROG - 1 + f.Stat(SPEED)
  }

  predicate Paced(speed: int, elapsed: int, actions: int, progress: int) {
    && FIGHT_MAX_PROG * actions + progress <= speed * elapsed
    && speed * elapsed <= (FIGHT_MAX_PROG - 1 + speed) * actions + progress
  }

  lemma PaceKept(speed: int, elapsed: int, ticks: int, actions: int, progress: int, acts: bool)
    requires Paced(speed, elapsed, actions, progress)
    requires acts ==> FIGHT_MAX_PROG <= progress + speed * ticks
    requires progress + speed * ticks <= FIGHT_MAX_PROG - 1 + speed
    ensures Paced(speed, elapsed + ticks, if acts then actions + 1 else actions,
                  if acts then 0 else progress + speed * ticks)
  {
    Spread(speed, elapsed, ticks);
    Spread(FIGHT_MAX_PROG - 1 + speed, actions, 1);
  }

  lemma TempoStep(s: State, e: Event, t: State, f: nat, actions: int)
    requires Fit(s) && LegalRound(s, e, t) && f < |s.all|
    requires s.all[f].Living() && InTempo(s.all[f], s.elapsed, actions)
    ensures InTempo(t.all[f], t.elapsed, actions + if e.attacker == f then 1 else 0)
  {
    assert OnFighter(s.all[f], e, f, t.all[f]);
    NeverPast(s, e, t, f);
    PaceKept(s.all[f].Stat(SPEED), s.elapsed, e.ticks, actions, s.all[f].progress, e.attacker == f);
  }

  /** Nobody waits longer than until it could act itself. */
  lemma NeverPast(s: State, e: Event, t: State, f: nat)
    requires Fit(s) && LegalRound(s, e, t) && f < |s.all| && s.all[f].Living()
    requires s.all[f].progress <= FIGHT_MAX_PROG - 1 + s.all[f].Stat(SPEED)
    ensures s.all[f].Reach(e.ticks) <= FIGHT_MAX_PROG - 1 + s.all[f].Stat(SPEED)
    ensures e.attacker == f ==> FIGHT_MAX_PROG <= s.all[f].Reach(e.ticks)
  {
    assert FitFighter(s.all[f]);
    NobodySooner(s.all, e.attacker, e.ticks, f);
    Spread(s.all[f].Stat(SPEED), e.ticks, -1);
  }

  lemma Spread(n: int, x: int, y: int)
    ensures n * (x + y) == n * x + n * y
  {
  }

  lemma Split(n: int, x: int, y: int, z: int)
    requires z == x + y
    ensures n * z == n * x + n * y
  {
  }

  lemma TempoStart(s: State, f: nat)
    requires Fresh(s) && f < |s.all|
    ensures InTempo(s.all[f], s.elapsed, 0)
  {
    assert FitFighter(s.all[f]);
  }

  lemma TempoRound(states: seq<State>, events: seq<Event>, k: nat, f: nat, actions: int)
    requires Run(states, events) && k < |events| && f < |states[0].all|
    requires |states[k].all| == |states[k + 1].all| == |states[0].all|
    requires states[k + 1].all[f].Living()
    requires states[k].all[f].Living() ==> InTempo(states[k].all[f], states[k].elapsed, actions)
    ensures InTempo(states[k + 1].all[f], states[k + 1].elapsed, actions + if events[k].attacker == f then 1 else 0)
  {
    RunStaysFit(states, events, k);
    DeadStayDead(states, events, k, k + 1, f);
    assert RoundAt(states, events, k);
    TempoStep(states[k], events[k], states[k + 1], f, actions);
  }

  /** Every living fighter acts in proportion to its speed: with `a` actions so far,
      1000 a + progress <= speed * elapsed <= (999 + speed) a + progress, and progress never passes 999 + speed. */
  lemma {:induction false} Tempo(states: seq<State>, events: seq<Event>, k: nat, f: nat)
    requires Run(states, events) && Fresh(states[0]) && k <= |events| && f < |states[0].all|
    ensures |states[k].all| == |states[0].all|
    ensures states[k].all[f].Living() ==> InTempo(states[k].all[f], states[k].elapsed, Actions(events, k, f))
    ensures states[k].all[f].Living() ==>
              var a, speed, progress := Actions(events, k, f), states[k].all[f].Stat(SPEED), states[k].all[f].progress;
              && 1000 * a + progress <= speed * states[k].elapsed <= (999 + speed) * a + progress
              && progress <= 999 + speed
  {
    RunStaysFit(states, events, k);
    if k == 0 {
      TempoStart(states[0], f);
    } else {
      Tempo(states, events, k - 1, f);
      if states[k].all[f].Living() {
        TempoRound(states, events, k - 1, f, Actions(events, k - 1, f));
      }
    }
  }

  // ---------- No starvation ----------

  /** The living fighters that need no more waiting. */
  ghost function Ready(s: State): set<int> {
    set i | 0 <= i < |s.all| && s.all[i].Living() && s.all[i].progress >= FIGHT_MAX_PROG
  }

  lemma Smaller(a: set<int>, b: set<int>)
    requires a <= b
    ensures |a| <= |b|
  {
    assert b == a + (b - a);
  }

  lemma {:induction false} Indices(a: set<int>, n: nat)
    requires forall i :: i in a ==> 0 <= i < n
    ensures |a| <= n
  {
    if n == 0 {
      assert forall i :: i !in a;
      assert a == {};
    } else {
      Indices(a - {n - 1}, n - 1);
    }
  }

  /** While somebody is ready time stands still, and a ready fighter acts. */
  lemma ReadyActsNow(s: State, e: Event, t: State)
    requires Fit(s) && LegalRound(s, e, t) && Ready(s) != {}
    ensures e.ticks == 0 && e.attacker in Ready(s)
  {
    var r :| r in Ready(s);
    assert FitFighter(s.all[r]);
    LongerWaitsMore(s.all[r].Stat(SPEED), 0, e.ticks - 1);
    NobodySooner(s.all, e.attacker, e.ticks, r);
    assert s.all[e.attacker].Reach(0) == s.all[e.attacker].progress;
  }

  /** A fighter stays ready without acting, and only then. */
  lemma StillReady(s: State, e: Event, t: State, f: nat)
    requires LegalRound(s, e, t) && e.ticks == 0 && f < |s.all|
    ensures |t.all| == |s.all|
    ensures f in Ready(t) ==> f in Ready(s) && f != e.attacker
    ensures f in Ready(s) && f != e.attacker && t.all[f].Living() ==> f in Ready(t)
  {
    assert OnFighter(s.all[f], e, f, t.all[f]);
    assert s.all[f].Reach(0) == s.all[f].progress;
  }

  lemma ReadyShrinks(s: State, e: Event, t: State)
    requires Fit(s) && LegalRound(s, e, t) && Ready(s) != {}
    ensures t.elapsed == s.elapsed && |Ready(t)| < |Ready(s)|
    ensures forall f :: f in Ready(s) && f != e.attacker && f < |t.all| && t.all[f].Living() ==> f in Ready(t)
  {
    ReadyActsNow(s, e, t);
    forall f: nat | f < |s.all|
      ensures |t.all| == |s.all|
      ensures f in Ready(t) ==> f in Ready(s) && f != e.attacker
      ensures f in Ready(s) && f != e.attacker && t.all[f].Living() ==> f in Ready(t)
    {
      StillReady(s, e, t, f);
    }
    Smaller(Ready(t), Ready(s) - {e.attacker});
  }

  lemma ReadyShrinksAt(states: seq<State>, events: seq<Event>, k: nat, f: nat)
    requires Run(states, events) && k < |events| && f in Ready(states[k]) && events[k].attacker != f
    requires f < |states[k + 1].all| && states[k + 1].all[f].Living()
    ensures states[k + 1].elapsed == states[k].elapsed
    ensures f in Ready(states[k + 1]) && |Ready(states[k + 1])| < |Ready(states[k])|
  {
    RunStaysFit(states, events, k);
    assert RoundAt(states, events, k);
    ReadyShrinks(states[k], events[k], states[k + 1]);
  }

  lemma LivedBefore(states: seq<State>, events: seq<Event>, j: nat, k: nat, f: nat)
    requires Run(states, events) && j < k <= |events| && f < |states[j].all|
    requires f < |states[k].all| ==> states[k].all[f].Living()
    ensures f < |states[k - 1].all| && states[k - 1].all[f].Living()
    ensures f < |states[k].all|
  {
    RunStaysFit(states, events, j);
    DeadStayDead(states, events, k - 1, k, f);
  }

  lemma {:induction false} UnservedRounds(states: seq<State>, events: seq<Event>, j: nat, k: nat, f: nat)
    requires Run(states, events) && j <= k <= |events| && f in Ready(states[j])
    requires f < |states[k].all| ==> states[k].all[f].Living()
    requires forall i :: j <= i < k ==> events[i].attacker != f
    ensures states[k].elapsed == states[j].elapsed
    ensures f in Ready(states[k])
    ensures k - j + |Ready(states[k])| <= |Ready(states[j])|
  {
    if j < k {
      LivedBefore(states, events, j, k, f);
      UnservedRounds(states, events, j, k - 1, f);
      ReadyShrinksAt(states, events, k - 1, f);
    }
  }

  /** A ready fighter that lives on and is not served in rounds `j..k`: the clock has not moved, and each of
      those rounds used up another ready fighter, so they are fewer than the fighters. */
  lemma NoStarvation(states: seq<State>, events: seq<Event>, j: nat, k: nat, f: nat)
    requires Run(states, events) && j <= k <= |events| && f in Ready(states[j])
    requires f < |states[k].all| ==> states[k].all[f].Living()
    requires forall i :: j <= i < k ==> events[i].attacker != f
    ensures states[k].elapsed == states[j].elapsed
    ensures k - j < |Ready(states[j])| <= |states[0].all|
  {
    UnservedRounds(states, events, j, k, f);
    RunStaysFit(states, events, j);
    Indices(Ready(states[j]), |states[j].all|);
    Smaller({f}, Ready(states[k]));
  }

  lemma AttackerSpent(s: State, e: Event, t: State)
    requires LegalRound(s, e, t)
    ensures e.attacker < |s.all| == |t.all| && e.attacker !in Ready(t)
  {
    assert OnFighter(s.all[e.attacker], e, e.attacker, t.all[e.attacker]);
  }

  lemma SomeoneWaited(s: State, e: Event, t: State)
    requires LegalRound(s, e, t) && Ready(s) == {}
    ensures e.ticks >= 1
  {
    assert e.attacker !in Ready(s);
    assert s.all[e.attacker].Reach(0) == s.all[e.attacker].progress;
  }

  lemma IdleRound(s: State, e: Event, t: State)
    requires LegalRound(s, e, t) && Ready(s) == {}
    ensures e.ticks >= 1 && |Ready(t)| < |s.all|
  {
    SomeoneWaited(s, e, t);
    AttackerSpent(s, e, t);
    Indices(Ready(t) + {e.attacker}, |s.all|);
  }

  /** A round either serves a ready fighter at once or lets time pass with nobody ready. */
  lemma RoundWithinTicks(s: State, e: Event, t: State)
    requires Fit(s) && LegalRound(s, e, t)
    ensures 1 + |Ready(t)| <= |Ready(s)| + |s.all| * e.ticks
  {
    if Ready(s) != {} {
      ReadyActsNow(s, e, t);
      ReadyShrinks(s, e, t);
    } else {
      IdleRound(s, e, t);
      LongerWaitsMore(|s.all|, 1, e.ticks);
    }
  }

  lemma RoundWithinTicksAt(states: seq<State>, events: seq<Event>, k: nat)
    requires Run(states, events) && k < |events|
    ensures 1 + |Ready(states[k + 1])| - |Ready(states[k])|
            <= |states[0].all| * states[k + 1].elapsed - |states[0].all| * states[k].elapsed
  {
    RunStaysFit(states, events, k);
    assert RoundAt(states, events, k);
    RoundWithinTicks(states[k], events[k], states[k + 1]);
    Split(|states[0].all|, states[k].elapsed, events[k].ticks, states[k + 1].elapsed);
  }

  /** With `n` fighters, the rounds fought never number more than `n` times the ticks elapsed. */
  lemma {:induction false} RoundsWithinTicks(states: seq<State>, events: seq<Event>, k: nat)
    requires Run(states, events) && Fresh(states[0]) && k <= |events|
    ensures k + |Ready(states[k])| <= |states[0].all| * states[k].elapsed
  {
    if k == 0 {
      assert Ready(states[0]) == {};
    } else {
      RoundsWithinTicks(states, events, k - 1);
      RoundWithinTicksAt(states, events, k - 1);
    }
  }

  // ---------- Spells, mana and wounds ----------

  /** Once cast, a spell cools no faster than the clock runs. */
  lemma {:induction false} CooldownHolds(states: seq<State>, events: seq<Event>, j: nat, k: nat, f: nat, m: nat)
    requires Run(states, events) && j < k <= |events|
    requires f < |states[0].all| && m < |states[0].all[f].magics|
    requires events[j].attacker == f && events[j].spell == Some(m)
    ensures |states[k].all| == |states[0].all| && |states[k].all[f].magics| == |states[0].all[f].magics|
    ensures states[k].all[f].Living() ==>
              states[k].all[f].magics[m].cd
              >= states[0].all[f].magics[m].realMagic.cd - (states[k].elapsed - states[j + 1].elapsed)
  {
    FighterKept(states, events, 0, k, f);
    FighterKept(states, events, 0, k - 1, f);
    DeadStayDead(states, events, k - 1, k, f);
    ClockForward(states, events, j + 1, k);
    if j + 1 < k {
      CooldownHolds(states, events, j, k - 1, f, m);
    }
    assert RoundAt(states, events, k - 1);
    assert OnFighter(states[k - 1].all[f], events[k - 1], f, states[k].all[f]);
  }

  /** Two casts of one spell by one fighter are at least the spell's cooldown apart. */
  lemma CastsSpaced(states: seq<State>, events: seq<Event>, j: nat, k: nat, f: nat, m: nat)
    requires Run(states, events) && j < k < |events|
    requires f < |states[0].all| && m < |states[0].all[f].magics|
    requires events[j].attacker == f && events[j].spell == Some(m)
    requires events[k].attacker == f && events[k].spell == Some(m)
    ensures states[k + 1].elapsed - states[j + 1].elapsed >= states[0].all[f].magics[m].realMagic.cd
  {
    CooldownHolds(states, events, j, k, f, m);
    var s, e := states[k], events[k];
    assert RoundAt(states, events, k);
    assert CanCast(s.all[f], m, e.ticks);
  }

  /** `f` does not cast spell `m` in rounds `from..to`. */
  ghost predicate NotCast(events: seq<Event>, from: nat, to: nat, f: nat, m: nat)
    requires to <= |events|
  {
    forall i :: from <= i < to ==> !(events[i].attacker == f && events[i].spell == Some(m))
  }

  lemma CoolsInRound(states: seq<State>, events: seq<Event>, k: nat, f: nat, m: nat)
    requires Run(states, events) && k < |events|
    requires f < |states[0].all| && m < |states[0].all[f].magics|
    requires f < |states[k + 1].all| ==> states[k + 1].all[f].Living()
    ensures states[k + 1].elapsed >= states[k].elapsed
    ensures |states[k].all| == |states[k + 1].all| == |states[0].all| && states[k].all[f].Living()
    ensures |states[k].all[f].magics| == |states[k + 1].all[f].magics| == |states[0].all[f].magics|
    ensures states[k].all[f].magics[m].realMagic == states[0].all[f].magics[m].realMagic
    ensures var ticks, cd := states[k + 1].elapsed - states[k].elapsed, states[k].all[f].magics[m].cd;
      states[k + 1].all[f].magics[m].cd
      == if events[k].attacker == f && events[k].spell == Some(m) then states[0].all[f].magics[m].realMagic.cd
         else if cd <= ticks then 0 else cd - ticks
  {
    FighterKept(states, events, 0, k, f);
    FighterKept(states, events, 0, k + 1, f);
    DeadStayDead(states, events, k, k + 1, f);
    ClockForward(states, events, k, k + 1);
    assert RoundAt(states, events, k);
    assert OnFighter(states[k].all[f], events[k], f, states[k + 1].all[f]);
  }

  /** A living fighter's spell, last cast in round `j`, has exactly what is left of its full cooldown after the ticks
      since. */
  lemma {:induction false} CooldownExactly(states: seq<State>, events: seq<Event>, j: nat, k: nat, f: nat, m: nat)
    requires Run(states, events) && j < k <= |events|
    requires f < |states[0].all| && m < |states[0].all[f].magics|
    requires f < |states[k].all| ==> states[k].all[f].Living()
    requires events[j].attacker == f && events[j].spell == Some(m) && NotCast(events, j + 1, k, f, m)
    ensures f < |states[k].all| && m < |states[k].all[f].magics|
    ensures var full, waited := states[0].all[f].magics[m].realMagic.cd, states[k].elapsed - states[j + 1].elapsed;
      states[k].all[f].magics[m].cd == if j + 1 == k then full else if full <= waited then 0 else full - waited
  {
    CoolsInRound(states, events, k - 1, f, m);
    if j + 1 < k {
      ClockForward(states, events, j + 1, k - 1);
      CooldownExactly(states, events, j, k - 1, f, m);
    }
  }

  /** One that it never cast has exactly what is left of the cooldown it started with. */
  lemma {:induction false} UncastCooldownExactly(states: seq<State>, events: seq<Event>, k: nat, f: nat, m: nat)
    requires Run(states, events) && k <= |events|
    requires f < |states[0].all| && m < |states[0].all[f].magics|
    requires f < |states[k].all| ==> states[k].all[f].Living()
    requires NotCast(events, 0, k, f, m)
    ensures f < |states[k].all| && m < |states[k].all[f].magics|
    ensures var start, waited := states[0].all[f].magics[m].cd, states[k].elapsed - states[0].elapsed;
      states[k].all[f].magics[m].cd == if k == 0 then start else if start <= waited then 0 else start - waited
  {
    if k > 0 {
      CoolsInRound(states, events, k - 1, f, m);
      ClockForward(states, events, 0, k - 1);
      UncastCooldownExactly(states, events, k - 1, f, m);
    }
  }

  /** The spell an attacker casts is the first whose cooldown has run out and whose cost leaves mana. */
  lemma AttackerCasts(states: seq<State>, events: seq<Event>, k: nat, m: nat)
    requires Run(states, events) && k < |events|
    requires events[k].attacker < |states[0].all| && m < |states[0].all[events[k].attacker].magics|
    ensures var a := events[k].attacker;
      && a < |states[k].all| && |states[k].all[a].magics| == |states[0].all[a].magics|
      && states[k + 1].elapsed == states[k].elapsed + events[k].ticks && events[k].ticks >= 0
    ensures var a := events[k].attacker;
      var free := states[k].all[a].magics[m].cd <= events[k].ticks
                  && states[0].all[a].magics[m].realMagic.mpCost < states[k].all[a].Stat(MP);
      && (free ==> events[k].spell.Some? && events[k].spell.value <= m)
      && (events[k].spell == Some(m) ==> free)
  {
    var a := events[k].attacker;
    FighterKept(states, events, 0, k, a);
    assert RoundAt(states, events, k);
    assert FirstSpell(states[k].all[a], events[k].spell, events[k].ticks);
    assert CanCast(states[k].all[a], m, events[k].ticks)
           <==> states[k].all[a].magics[m].cd <= events[k].ticks
                && states[0].all[a].magics[m].realMagic.mpCost < states[k].all[a].Stat(MP);
  }

  lemma AttackerLives(states: seq<State>, events: seq<Event>, k: nat)
    requires Run(states, events) && k < |events|
    ensures events[k].attacker < |states[k].all| == |states[0].all| && states[k].all[events[k].attacker].Living()
  {
    RunStaysFit(states, events, k);
    assert RoundAt(states, events, k);
  }

  /** An attacker that can afford a spell whose full cooldown has passed since it last cast it does cast, that spell or
      an earlier one; and it casts that one only then. */
  lemma CastsAgain(states: seq<State>, events: seq<Event>, j: nat, k: nat, m: nat)
    requires Run(states, events) && j < k < |events|
    requires events[k].attacker < |states[0].all| && m < |states[0].all[events[k].attacker].magics|
    requires events[j].attacker == events[k].attacker && events[j].spell == Some(m)
    requires NotCast(events, j + 1, k, events[k].attacker, m)
    ensures events[k].attacker < |states[k].all|
    ensures var a := events[k].attacker;
      var magic := states[0].all[a].magics[m].realMagic;
      var free := magic.cd <= states[k + 1].elapsed - states[j + 1].elapsed && magic.mpCost < states[k].all[a].Stat(MP);
      && (free ==> events[k].spell.Some? && events[k].spell.value <= m)
      && (events[k].spell == Some(m) ==> free)
  {
    AttackerLives(states, events, k);
    AttackerCasts(states, events, k, m);
    CooldownExactly(states, events, j, k, events[k].attacker, m);
    ClockForward(states, events, j + 1, k);
  }

  /** The same for a spell it has not cast yet. */
  lemma CastsFirst(states: seq<State>, events: seq<Event>, k: nat, m: nat)
    requires Run(states, events) && k < |events|
    requires events[k].attacker < |states[0].all| && m < |states[0].all[events[k].attacker].magics|
    requires NotCast(events, 0, k, events[k].attacker, m)
    ensures events[k].attacker < |states[k].all|
    ensures var a := events[k].attacker;
      var spell := states[0].all[a].magics[m];
      var free := spell.cd <= states[k + 1].elapsed - states[0].elapsed
                  && spell.realMagic.mpCost < states[k].all[a].Stat(MP);
      && (free ==> events[k].spell.Some? && events[k].spell.value <= m)
      && (events[k].spell == Some(m) ==> free)
  {
    AttackerLives(states, events, k);
    AttackerCasts(states, events, k, m);
    UncastCooldownExactly(states, events, k, events[k].attacker, m);
    ClockForward(states, events, 0, k);
  }

  /** Mana paid by `f` in the first `k` rounds. */
  ghost function ManaSpent(states: seq<State>, events: seq<Event>, k: nat, f: nat): int
    requires Run(states, events) && k <= |events| && f < |states[0].all|
  {
    if k == 0 then 0
    else
      RunStaysFit(states, events, k - 1);
      assert RoundAt(states, events, k - 1);
      ManaSpent(states, events, k - 1, f)
      + if events[k - 1].attacker == f && events[k - 1].spell.Some?
        then states[k - 1].all[f].magics[events[k - 1].spell.value].realMagic.mpCost else 0
  }

  /** Damage dealt to `f` in the first `k` rounds. */
  function DamageTaken(events: seq<Event>, k: nat, f: nat): int
    requires k <= |events|
  {
    if k == 0 then 0
    else DamageTaken(events, k - 1, f) + if events[k - 1].defender == f then events[k - 1].damage else 0
  }

  lemma LedgerStep(s: State, e: Event, t: State, f: nat)
    requires LegalRound(s, e, t) && f < |s.all|
    ensures |t.all| == |s.all|
    ensures t.all[f].Stat(MP) == s.all[f].Stat(MP)
              - if e.attacker == f && e.spell.Some? then s.all[f].magics[e.spell.value].realMagic.mpCost else 0
    ensures t.all[f].Stat(HP) == s.all[f].Stat(HP) - if e.defender == f then e.damage else 0
  {
    assert OnFighter(s.all[f], e, f, t.all[f]);
  }

  /** Conservation: hp and mp are the starting values less what was dealt and paid, and nothing else. */
  lemma {:induction false} Ledger(states: seq<State>, events: seq<Event>, k: nat, f: nat)
    requires Run(states, events) && k <= |events| && f < |states[0].all|
    ensures |states[k].all| == |states[0].all|
    ensures states[k].all[f].Stat(MP) == states[0].all[f].Stat(MP) - ManaSpent(states, events, k, f)
    ensures states[k].all[f].Stat(HP) == states[0].all[f].Stat(HP) - DamageTaken(events, k, f)
  {
    if k > 0 {
      Ledger(states, events, k - 1, f);
      assert RoundAt(states, events, k - 1);
      LedgerStep(states[k - 1], events[k - 1], states[k], f);
    }
  }

  /** A cast leaves mana. */
  lemma CastLeavesMana(states: seq<State>, events: seq<Event>, k: nat)
    requires Run(states, events) && k < |events| && events[k].spell.Some?
    ensures events[k].attacker < |states[k + 1].all| && states[k + 1].all[events[k].attacker].Stat(MP) > 0
  {
    var s, e, t := states[k], events[k], states[k + 1];
    assert RoundAt(states, events, k);
    assert OnFighter(s.all[e.attacker], e, e.attacker, t.all[e.attacker]);
    assert CanCast(s.all[e.attacker], e.spell.value, e.ticks);
  }

  // ---------- Termination ----------

  function Standing(f: Fightable): nat { if f.Living() then f.Stat(HP) else 0 }

  /** The hp of the living. */
  function Vitality(all: seq<Fightable>): nat {
    if all == [] then 0 else Vitality(all[..|all| - 1]) + Standing(all[|all| - 1])
  }

  lemma {:induction false} VitalityDiff(xs: seq<Fightable>, ys: seq<Fightable>, d: nat)
    requires |xs| == |ys| && d <= |xs|
    requires forall i :: 0 <= i < |xs| && i != d ==> Standing(xs[i]) == Standing(ys[i])
    ensures Vitality(ys) == Vitality(xs) + if d < |xs| then Standing(ys[d]) - Standing(xs[d]) else 0
  {
    var n := |xs| - 1;
    if xs != [] {
      VitalityDiff(xs[..n], ys[..n], if d < n then d else n);
    }
  }

  lemma RoundDrains(s: State, e: Event, t: State)
    requires LegalRound(s, e, t) && 0 <= e.damage
    ensures Vitality(t.all) <= Vitality(s.all) - if 1 <= e.damage then 1 else 0
  {
    forall i | 0 <= i < |s.all|
      ensures t.all[i].Stat(HP) == s.all[i].Stat(HP) - if i == e.defender then e.damage else 0
    {
      assert OnFighter(s.all[i], e, i, t.all[i]);
    }
    VitalityDiff(s.all, t.all, e.defender);
  }

  lemma RoundDrainsAt(states: seq<State>, events: seq<Event>, k: nat)
    requires Run(states, events) && k < |events| && 0 <= events[k].damage
    ensures Vitality(states[k + 1].all) <= Vitality(states[k].all) - if 1 <= events[k].damage then 1 else 0
  {
    assert RoundAt(states, events, k);
    RoundDrains(states[k], events[k], states[k + 1]);
  }

  /** Rounds among the first `k` whose blow dealt something. */
  function Wounds(events: seq<Event>, k: nat): nat
    requires k <= |events|
  {
    if k == 0 then 0 else Wounds(events, k - 1) + if events[k - 1].damage >= 1 then 1 else 0
  }

  /** As long as no blow heals, the rounds that wound number at most the starting hp. */
  lemma {:induction false} WoundsBounded(states: seq<State>, events: seq<Event>, k: nat)
    requires Run(states, events) && k <= |events|
    requires forall i :: 0 <= i < k ==> events[i].damage >= 0
    ensures Wounds(events, k) + Vitality(states[k].all) <= Vitality(states[0].all)
  {
    if k > 0 {
      WoundsBounded(states, events, k - 1);
      RoundDrainsAt(states, events, k - 1);
    }
  }

  lemma {:induction false} AllWound(events: seq<Event>, k: nat)
    requires k <= |events| && forall i :: 0 <= i < k ==> events[i].damage >= 1
    ensures Wounds(events, k) == k
  {
    if k > 0 {
      AllWound(events, k - 1);
    }
  }

  /** A fight whose every blow deals at least 1 lasts no more rounds than there was hp. */
  lemma FightTerminates(states: seq<State>, events: seq<Event>)
    requires Run(states, events) && forall i :: 0 <= i < |events| ==> events[i].damage >= 1
    ensures |events| <= Vitality(states[0].all)
  {
    AllWound(events, |events|);
    WoundsBounded(states, events, |events|);
  }
}
