/** A client and a server at work together: lines typed, commands on the spell book, fights and the cooldowns they
    leave, one after the other. */
module EndToEnd {
  import opened Structs
  import opened Fighter
  import opened Rounds
  import opened Order
  import opened Replay
  import opened Engine
  import opened Setup
  import opened SpellBook
  import opened Commands
  import opened FightOutcome
  import opened Gate

  /** What does not change while they play: static data, the player's character and equipment, and how far the
      server's clock is ahead. */
  datatype Setting = Setting(data: GameData, raw: Character, equips: seq<Battlestats>, skew: int)

  /** `thrown` is a store failure that reaches the client as a request error. */
  datatype Act =
    | Garbled
    | Ask(cmd: Command, fails: bool, thrown: bool)
    | Challenge(enemy: Fightable, words: seq<nat>)

  datatype Turn = Turn(typed: int, toServer: nat, toClient: nat, act: Act)

  datatype Play = Play(world: World, ends: Ends)

  /** The fighter that an end sets up from its copy of the book. */
  function Entrant(st: Setting, book: Book): Fightable { FighterOf(st.raw, book.magics, st.equips, book.equipped) }

  // ---------- One fight ----------

  lemma {:induction false} ClientFinalSize(s: FitState, values: seq<int>)
    requires ClientRun(FightGame(), s, values).Finished?
    ensures |ClientRun(FightGame(), s, values).final.all| == |s.all|
    decreases |values|
  {
    if Over(s) {
      ClientDone(s, values);
    } else {
      ClientRound(s, values);
      var roll := if Misses(s, values[0]) then 0 else values[1];
      ClientFinalSize(Next(s, values[0], roll), values[if Misses(s, values[0]) then 1 else 2..]);
    }
  }

  lemma StartSize(self: Fightable, enemy: Fightable)
    requires CanFight([self], [enemy])
    ensures self.Stat(HP) > 0 && |FreshStart([self], [enemy]).all| == 2
  {
    assert Enters([self][0]);
  }

  /** `self` and `enemy` can fight, and the server's fight ends on these words. */
  ghost predicate FightEnds(self: Fightable, enemy: Fightable, words: seq<nat>) {
    CanFight([self], [enemy]) && ServerRun(FightGame(), FreshStart([self], [enemy]), words).Finished?
  }

  ghost function Recorded(self: Fightable, enemy: Fightable, words: seq<nat>): Outcome<FitState, nat>
    requires FightEnds(self, enemy, words)
  {
    ServerRun(FightGame(), FreshStart([self], [enemy]), words)
  }

  /** The client's fight of `self` on these values ends. */
  ghost predicate ReplayEnds(self: Fightable, enemy: Fightable, values: seq<int>) {
    CanFight([self], [enemy]) && ClientRun(FightGame(), FreshStart([self], [enemy]), values).Finished?
  }

  ghost function Replayed(self: Fightable, enemy: Fightable, values: seq<int>): Outcome<FitState, int>
    requires ReplayEnds(self, enemy, values)
  {
    ClientRun(FightGame(), FreshStart([self], [enemy]), values)
  }

  /** The delay that the server's handler adds. */
  ghost function ServerDelay(self: Fightable, enemy: Fightable, words: seq<nat>): int
    requires FightEnds(self, enemy, words)
  {
    StartSize(self, enemy);
    RecordedSize(self, enemy, words);
    DelayAfter(self, Recorded(self, enemy, words).final)
  }

  lemma RecordedSize(self: Fightable, enemy: Fightable, words: seq<nat>)
    requires FightEnds(self, enemy, words)
    ensures |Recorded(self, enemy, words).final.all| == 2
  {
    var run := Recorded(self, enemy, words);
    StartSize(self, enemy);
    ReplayAgrees(FightGame(), FreshStart([self], [enemy]), words, []);
    ClientFinalSize(FreshStart([self], [enemy]), run.drawn + []);
  }

  /** The delay that the client's handler adds; a replay that fails adds none. */
  ghost function ClientDelay(self: Fightable, enemy: Fightable, values: seq<int>): int {
    if ReplayEnds(self, enemy, values) then
      StartSize(self, enemy);
      ClientFinalSize(FreshStart([self], [enemy]), values);
      DelayAfter(self, Replayed(self, enemy, values).final)
    else 0
  }

  /** The client's fight on what the server recorded ends in the same state, uses up the recording, and costs the
      same. */
  ghost predicate Reproduced(server: Fightable, client: Fightable, enemy: Fightable, words: seq<nat>)
    requires FightEnds(server, enemy, words)
  {
    var run := Recorded(server, enemy, words);
    && ReplayEnds(client, enemy, run.drawn)
    && Replayed(client, enemy, run.drawn) == Finished(run.final, run.drawn, [])
    && ClientDelay(client, enemy, run.drawn) == ServerDelay(server, enemy, words)
  }

  lemma SameFighterReproduces(self: Fightable, enemy: Fightable, words: seq<nat>)
    requires FightEnds(self, enemy, words)
    ensures Reproduced(self, self, enemy, words)
  {
    var run := Recorded(self, enemy, words);
    ReplayAgrees(FightGame(), FreshStart([self], [enemy]), words, []);
    assert run.drawn + [] == run.drawn;
  }

  // ---------- One turn ----------

  ghost predicate Enabled(st: Setting, p: Play, turn: Turn) {
    turn.act.Challenge? ==> FightEnds(Entrant(st, p.world.server), turn.act.enemy, turn.act.words)
  }

  /** What the turn is to the clocks. */
  ghost function LineOf(st: Setting, p: Play, turn: Turn): Line
    requires Enabled(st, p, turn)
  {
    Line(turn.typed,
         match turn.act
         case Garbled => Unparsed
         case Ask(cmd, fails, thrown) =>
           if !Accepted(st.data, p.world.client, cmd) then Invalid
           else
             Sent(turn.toServer, turn.toClient, 0, 0, Accepted(st.data, p.world.server, cmd) && !(fails && thrown))
         case Challenge(enemy, words) =>
           var server, client := Entrant(st, p.world.server), Entrant(st, p.world.client);
           Sent(turn.toServer, turn.toClient, ServerDelay(server, enemy, words),
                ClientDelay(client, enemy, Recorded(server, enemy, words).drawn), true))
  }

  /** A request that the gate turns away does nothing. `None` is undefined behaviour. */
  ghost function AfterTurn(st: Setting, p: Play, turn: Turn): Option<Play>
    requires Enabled(st, p, turn)
  {
    var line := LineOf(st, p, turn);
    var world := if turn.act.Ask? && LineAdmitted(p.ends, line, st.skew)
                 then Request(st.data, p.world, turn.act.cmd, turn.act.fails)
                 else Some(p.world);
    if world.None? then None else Some(Play(world.value, AfterLine(p.ends, line, st.skew)))
  }

  /** Lines come one after the other; no fuse is committed out of order; and whoever is challenged can be fought, in
      a fight that ends. */
  ghost predicate Orderly(st: Setting, p: Play, turns: seq<Turn>)
    decreases |turns|
  {
    turns == [] ||
    (&& p.ends.now <= turns[0].typed
     && Enabled(st, p, turns[0])
     && (turns[0].act.Ask? ==> CommitsInOrder(st.data, p.world, turns[0].act.cmd, turns[0].act.fails))
     && (var next := AfterTurn(st, p, turns[0]);
         next.Some? ==> Orderly(st, next.value, turns[1..])))
  }

  /** At every turn the three copies of the book agree, the gate admits what is sent, and the client reproduces the
      server's fight. */
  ghost predicate Together(st: Setting, p: Play, turns: seq<Turn>)
    decreases |turns|
  {
    && Synced(p.world)
    && (turns == [] ||
        (&& Enabled(st, p, turns[0])
         && LineAdmitted(p.ends, LineOf(st, p, turns[0]), st.skew)
         && (turns[0].act.Challenge? ==>
               Reproduced(Entrant(st, p.world.server), Entrant(st, p.world.client), turns[0].act.enemy,
                          turns[0].act.words))
         && (var next := AfterTurn(st, p, turns[0]);
             next.Some? && Together(st, next.value, turns[1..]))))
  }

  lemma TurnKeeps(st: Setting, p: Play, turn: Turn)
    requires DataKeyed(st.data) && Synced(p.world) && InStep(p.ends, st.skew)
    requires p.ends.now <= turn.typed && Enabled(st, p, turn)
    requires turn.act.Ask? ==> CommitsInOrder(st.data, p.world, turn.act.cmd, turn.act.fails)
    ensures LineAdmitted(p.ends, LineOf(st, p, turn), st.skew)
    ensures turn.act.Challenge? ==>
              Reproduced(Entrant(st, p.world.server), Entrant(st, p.world.client), turn.act.enemy, turn.act.words)
    ensures var next := AfterTurn(st, p, turn);
      next.Some? && Synced(next.value.world) && InStep(next.value.ends, st.skew)
  {
    if turn.act.Challenge? {
      SameFighterReproduces(Entrant(st, p.world.server), turn.act.enemy, turn.act.words);
    }
    LineKeepsStep(p.ends, LineOf(st, p, turn), st.skew);
    if turn.act.Ask? {
      RequestKeeps(st.data, p.world, turn.act.cmd, turn.act.fails);
    }
  }

  /** From a login whose copies agree, whatever is typed, asked and fought, with the store failing wherever it likes:
      client and server stay together. */
  lemma {:induction false} PlayedTogether(st: Setting, p: Play, turns: seq<Turn>)
    requires DataKeyed(st.data) && Synced(p.world) && InStep(p.ends, st.skew) && Orderly(st, p, turns)
    ensures Together(st, p, turns)
    decreases |turns|
  {
    if turns != [] {
      TurnKeeps(st, p, turns[0]);
      PlayedTogether(st, AfterTurn(st, p, turns[0]).value, turns[1..]);
    }
  }

  /** The commands among the turns. */
  function Asked(turns: seq<Turn>): seq<(Command, bool)> {
    if turns == [] then []
    else if turns[0].act.Ask? then [(turns[0].act.cmd, turns[0].act.fails)] + Asked(turns[1..])
    else Asked(turns[1..])
  }

  ghost function PlayedOut(st: Setting, p: Play, turns: seq<Turn>): Option<Play>
    requires Orderly(st, p, turns)
    decreases |turns|
  {
    if turns == [] then Some(p)
    else
      var next := AfterTurn(st, p, turns[0]);
      if next.None? then None else PlayedOut(st, next.value, turns[1..])
  }

  /** A play leaves the copies of the book as its commands alone would: fights, cooldowns and garbled lines do not touch
      them, and no command is lost to the gate. */
  lemma {:induction false} PlayedWorld(st: Setting, p: Play, turns: seq<Turn>)
    requires DataKeyed(st.data) && Synced(p.world) && InStep(p.ends, st.skew) && Orderly(st, p, turns)
    ensures var end, world := PlayedOut(st, p, turns), Requests(st.data, p.world, Asked(turns));
      end.Some? && world.Some? && end.value.world == world.value
    decreases |turns|
  {
    if turns != [] {
      TurnKeeps(st, p, turns[0]);
      PlayedWorld(st, AfterTurn(st, p, turns[0]).value, turns[1..]);
      if turns[0].act.Ask? {
        var first := [(turns[0].act.cmd, turns[0].act.fails)];
        assert Asked(turns)[0] == first[0] && Asked(turns)[1..] == Asked(turns[1..]);
      }
    }
  }

  /** What a turn is to the clocks: nothing is sent of a line that cannot be parsed or that the client's own validation
      refuses; a command adds no delay, and its answer is an error exactly if the server's validation refuses it or
      the store's failure is thrown; a fight adds what its first fighter's end and its ticks cost, on either end. */
  lemma LineExactly(st: Setting, p: Play, turn: Turn)
    requires Enabled(st, p, turn)
    ensures var fate := LineOf(st, p, turn).fate;
      && LineOf(st, p, turn).typed == turn.typed
      && (fate.Unparsed? <==> turn.act.Garbled?)
      && (fate.Invalid? <==> turn.act.Ask? && !Accepted(st.data, p.world.client, turn.act.cmd))
      && (fate.Sent? ==> fate.toServer == turn.toServer && fate.toClient == turn.toClient)
      && (fate.Sent? && turn.act.Ask? ==>
            && fate.serverDelay == 0 == fate.clientDelay
            && (!fate.answered
                <==> !Accepted(st.data, p.world.server, turn.act.cmd) || (turn.act.fails && turn.act.thrown)))
      && (turn.act.Challenge? ==>
            var self, other := Entrant(st, p.world.server), Entrant(st, p.world.client);
            var run := Recorded(self, turn.act.enemy, turn.act.words);
            && fate.answered && |run.final.all| > 0 && self.Stat(HP) > 0
            && fate.serverDelay == FightDelay(self.Stat(HP), run.final.all[0].Stat(HP), run.final.elapsed)
            && (self == other ==> fate.clientDelay == fate.serverDelay))
  {
    if turn.act.Challenge? {
      var self := Entrant(st, p.world.server);
      StartSize(self, turn.act.enemy);
      RecordedSize(self, turn.act.enemy, turn.act.words);
      SameFighterReproduces(self, turn.act.enemy, turn.act.words);
    }
  }

  /** The fighters that the two handlers set up are these entrants, up to number and team, which the constructor
      overwrites: so what is proved of entrants is what the handlers' fights do. */
  lemma HandlersFightAsEntrants(st: Setting, w: World, f: Fightable, g: Fightable, enemy: Fightable, words: seq<nat>)
    requires Synced(w) && FightEnds(Entrant(st, w.server), enemy, words)
    requires SetUp(f, st.raw, w.server.magics, st.equips, w.server.equipped)
    requires SetUp(g, st.raw, w.client.magics, st.equips, w.client.equipped)
    ensures SameEntrant(f, g) && CanFight([f], [enemy])
    ensures FightEnds(f, enemy, words)
    ensures ServerDelay(f, enemy, words) == ServerDelay(Entrant(st, w.server), enemy, words)
    ensures Reproduced(f, g, enemy, words)
  {
    var e := Entrant(st, w.server);
    SetUpDetermines(f, e, st.raw, w.server.magics, st.equips, w.server.equipped);
    SetUpDetermines(g, e, st.raw, w.server.magics, st.equips, w.server.equipped);
    SameEntrantsSameStart(f, e, [enemy]);
    SameEntrantsSameStart(g, e, [enemy]);
    assert f.Stat(HP) == e.Stat(HP) == g.Stat(HP);
    SameFighterReproduces(e, enemy, words);
  }
}
