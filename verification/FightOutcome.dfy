/** From calls of `go` to whole fights, and from the server's fight request to the client's replay of it. */
module FightOutcome {
  import opened Rounding
  import opened Structs
  import opened Fighter
  import opened Rounds
  import opened FightLaw
  import opened FightRuns
  import opened Order
  import opened Rng
  import opened Replay
  import opened Engine

  /** The event of the round that `Next` plays. */
  lemma NextIsLegal(s: FitState, hit: int, roll: int)
    requires !Over(s)
    ensures LegalRound(s, EventOf(s, Damage(s, hit, roll)), Next(s, hit, roll))
  {
    RoundIsLegal(s, Damage(s, hit, roll));
  }

  lemma PlayedRound(states: seq<FitState>, draws: seq<(int, int)>, k: nat)
    requires Play(FightGame(), states, draws) && k < |draws|
    ensures !Over(states[k]) && states[k + 1] == Next(states[k], draws[k].0, draws[k].1)
  {
    assert PlayedAt(FightGame(), states, draws, k);
  }

  function EventAt(states: seq<FitState>, draws: seq<(int, int)>, k: nat): Event
    requires k < |states| && k < |draws|
  {
    if Over(states[k]) then Event(0, 0, 0, None, 0)
    else EventOf(states[k], Damage(states[k], draws[k].0, draws[k].1))
  }

  lemma PlayedLegally(states: seq<FitState>, draws: seq<(int, int)>, k: nat)
    requires Play(FightGame(), states, draws) && k < |draws|
    ensures LegalRound(states[k], EventAt(states, draws, k), states[k + 1])
    ensures !Over(states[k]) && EventAt(states, draws, k).damage == Damage(states[k], draws[k].0, draws[k].1)
  {
    PlayedRound(states, draws, k);
    NextIsLegal(states[k], draws[k].0, draws[k].1);
  }

  /** Every play of the engine is a run: all laws of whole fights apply to it. */
  lemma PlayIsRun(states: seq<FitState>, draws: seq<(int, int)>) returns (events: seq<Event>)
    requires Play(FightGame(), states, draws)
    ensures |events| == |draws| && Run(states, events)
    ensures forall k :: 0 <= k < |draws| ==> !Over(states[k])
                                             && events[k].damage == Damage(states[k], draws[k].0, draws[k].1)
  {
    events := seq(|draws|, k requires 0 <= k < |draws| => EventAt(states, draws, k));
    forall k | 0 <= k < |draws|
      ensures RoundAt(states, events, k)
      ensures !Over(states[k]) && events[k].damage == Damage(states[k], draws[k].0, draws[k].1)
    {
      PlayedLegally(states, draws, k);
    }
  }

  /** A server's fight that ends: it is a run in which every law of whole fights holds, the losing team is dead
      and the winner stands, it took no more rounds than fighters times ticks, and recorded one or two values
      a round. */
  lemma ServerFightIsRun(s: FitState, words: seq<nat>) returns (states: seq<FitState>, events: seq<Event>)
    requires Fresh(s)
    ensures var run := ServerRun(FightGame(), s, words);
      run.Finished? && !Over(s) ==>
        && Run(states, events) && states[0] == s && states[|events|] == run.final && Over(run.final)
        && |events| <= |run.drawn| <= 2 * |events|
        && |events| <= |s.all| * run.final.elapsed
        && (forall i :: 0 <= i < |run.final.all| && run.final.all[i].Living() ==>
              run.final.all[i].team == Winner(run.final))
        && (exists i :: 0 <= i < |run.final.all| && run.final.all[i].Living())
  {
    var run := ServerRun(FightGame(), s, words);
    states, events := [s], [];
    if run.Finished? && !Over(s) {
      ReplayAgrees(FightGame(), s, words, []);
      assert run.drawn + [] == run.drawn;
      var draws;
      states, draws := ClientRunIsPlay(FightGame(), s, run.drawn);
      events := PlayIsRun(states, draws);
      FightEnds(states, events);
      RoundsWithinTicks(states, events, |events|);
    }
  }

  // ---------- The fight request ----------

  /** `fight_delay`, in milliseconds. */
  function FightDelay(maxHp: int, hp: int, ticks: int): int
    requires maxHp > 0
  {
    ticks * 10 + 100 * (DivInt(maxHp - (if hp < 0 then 0 else hp), maxHp) * 100)
  }

  /** Because of the integer division the hp part is all or nothing: ten seconds for the dead, nothing for
      anyone who keeps some and has less than twice what it started with. Who was healed beyond that is credited ten
      seconds for every whole starting hp above it. */
  lemma DelayIsAllOrNothing(maxHp: int, hp: int, ticks: int)
    requires maxHp > 0
    ensures hp <= 0 ==> FightDelay(maxHp, hp, ticks) == 10 * ticks + 10000
    ensures 0 < hp < 2 * maxHp ==> FightDelay(maxHp, hp, ticks) == 10 * ticks
    ensures 2 * maxHp <= hp ==> FightDelay(maxHp, hp, ticks) == 10 * ticks - 10000 * ((hp - maxHp) / maxHp)
  {
    var lost := maxHp - (if hp < 0 then 0 else hp);
    var q := DivInt(lost, maxHp);
    if hp <= 0 {
      assert q == 1;
    } else if hp < 2 * maxHp {
      QuotientBelowOne(lost, maxHp);
    }
  }

  /** The part for lost hp is in proportion to the hp lost exactly when the division leaves no remainder: for the
      dead, and when the starting hp divides what was lost. */
  lemma DelayProportionalExactly(maxHp: int, hp: int, ticks: int)
    requires maxHp > 0
    ensures (FightDelay(maxHp, hp, ticks) - 10 * ticks) * maxHp == 10000 * (maxHp - if hp < 0 then 0 else hp)
            <==> hp <= 0 || (maxHp - hp) % maxHp == 0
  {
    var lost := maxHp - (if hp < 0 then 0 else hp);
    var q := DivInt(lost, maxHp);
    assert (10000 * q) * maxHp == 10000 * (q * maxHp);
    DividesExactly(lost, maxHp);
    if hp <= 0 {
      assert lost == 1 * maxHp;
      MultipleLeavesNothing(1, maxHp);
    }
  }

  /** The truncating division is exact just when nothing remains. */
  lemma DividesExactly(a: int, b: int)
    requires b > 0
    ensures DivInt(a, b) * b == a <==> a % b == 0
  {
    if a % b == 0 {
      assert a == a / b * b;
      assert -a == (-(a / b)) * b;
      MultipleLeavesNothing(-(a / b), b);
    }
    if DivInt(a, b) * b == a {
      MultipleLeavesNothing(DivInt(a, b), b);
    }
  }

  lemma MultipleLeavesNothing(n: int, b: int)
    requires b > 0
    ensures n * b % b == 0 && n * b / b == n
  {
    var q := n * b / b;
    if q > n {
      LongerWaitsMore(b, n, q - 1);
    } else if q < n {
      LongerWaitsMore(b, q + 1, n);
    }
  }

  lemma QuotientBelowOne(a: int, b: int)
    requires -b < a < b
    ensures DivInt(a, b) == 0
  {
    var q := DivInt(a, b);
    if q >= 1 {
      LongerWaitsMore(b, 1, q);
    } else if q <= -1 {
      LongerWaitsMore(b, q, -1);
    }
  }

  function FreshStart(friends: seq<Fightable>, enemies: seq<Fightable>): (s: FitState)
    requires CanFight(friends, enemies)
    ensures Fresh(s) && s == Start(friends, enemies)
  {
    StartIsFresh(friends, enemies);
    Start(friends, enemies)
  }

  /** What the handler on either end adds after a fight of `self`: by its starting hp and by the first fighter's end. */
  function DelayAfter(self: Fightable, final: State): int
    requires self.Stat(HP) > 0 && |final.all| > 0
  {
    FightDelay(self.Stat(HP), final.all[0].Stat(HP), final.elapsed)
  }

  /** The server's handler: fight, hand out the recording, and extend the cooldown. `None` stands for a fight
      that outlives the engine's words. */
  method ServerFight(self: Fightable, enemy: Fightable, words: seq<nat>)
    returns (winner: Option<int>, generated: seq<int>, delay: int, fighters: seq<Fightable>, ticks: int)
    requires CanFight([self], [enemy])
    ensures var s: FitState := FreshStart([self], [enemy]); var run := ServerRun(FightGame(), s, words);
      && (winner.None? <==> run.CutOff?)
      && (winner.Some? ==>
            && generated == run.drawn && winner.value == Winner(run.final)
            && fighters == run.final.all && ticks == run.final.elapsed
            && |fighters| > 0 && self.Stat(HP) > 0
            && delay == FightDelay(self.Stat(HP), fighters[0].Stat(HP), ticks))
  {
    ghost var s := FreshStart([self], [enemy]);
    assert Enters([self][0]);
    var maxHp := self.Stat(HP);
    var fight := new Fight([self], [enemy]);
    var rng := new RngServer(words);
    winner := fight.GoServer(rng);
    generated, delay, fighters, ticks := rng.generated, 0, fight.all[..], fight.elapsedTicks;
    if winner.Some? {
      assert [] + ServerRun(FightGame(), s, words).drawn == ServerRun(FightGame(), s, words).drawn;
      delay := FightDelay(maxHp, fight.all[0].Stat(HP), fight.elapsedTicks);
    }
  }

  /** The client's handler: replay the recording from the same two fighters. */
  method ClientFight(self: Fightable, enemy: Fightable, generated: seq<int>)
    returns (winner: Option<int>, delay: int, fighters: seq<Fightable>, ticks: int, ghost unread: seq<int>)
    requires CanFight([self], [enemy])
    ensures var s: FitState := FreshStart([self], [enemy]); var run := ClientRun(FightGame(), s, generated);
      && (winner.None? <==> run.CutOff?)
      && (winner.Some? ==>
            && winner.value == Winner(run.final) && unread == run.unread
            && fighters == run.final.all && ticks == run.final.elapsed
            && |fighters| > 0 && self.Stat(HP) > 0
            && delay == FightDelay(self.Stat(HP), fighters[0].Stat(HP), ticks))
  {
    ghost var s := FreshStart([self], [enemy]);
    assert Enters([self][0]);
    var maxHp := self.Stat(HP);
    var fight := new Fight([self], [enemy]);
    var rng := new RngClient(generated);
    winner := fight.GoClient(rng);
    delay, fighters, ticks, unread := 0, fight.all[..], fight.elapsedTicks, rng.Unread();
    if winner.Some? {
      delay := FightDelay(maxHp, fight.all[0].Stat(HP), fight.elapsedTicks);
    }
  }

  /** Both ends of one fight request, each with the fighter it set up itself, agree on the winner, on every fighter's
      end, on the clock and on the cooldown, and the replay uses up exactly what was recorded. */
  method FightRequest(serverSelf: Fightable, clientSelf: Fightable, enemy: Fightable, words: seq<nat>)
    returns (server: Option<int>, client: Option<int>, serverDelay: int, clientDelay: int,
             serverEnd: (seq<Fightable>, int), clientEnd: (seq<Fightable>, int), ghost unread: seq<int>)
    requires CanFight([serverSelf], [enemy]) && SameEntrant(serverSelf, clientSelf)
    ensures server.Some? ==>
              client == server && clientDelay == serverDelay && clientEnd == serverEnd && unread == []
  {
    SameEntrantsSameStart(serverSelf, clientSelf, [enemy]);
    var generated, fighters, ticks;
    server, generated, serverDelay, fighters, ticks := ServerFight(serverSelf, enemy, words);
    serverEnd := (fighters, ticks);
    client, clientDelay, fighters, ticks, unread := ClientFight(clientSelf, enemy, generated);
    clientEnd := (fighters, ticks);
    if server.Some? {
      ReplayAgrees(FightGame(), FreshStart([serverSelf], [enemy]), words, []);
      assert generated + [] == generated;
    }
  }
}
