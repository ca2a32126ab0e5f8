# Niba: fights, spell books, sessions and writes

A Dafny model of the four stateful parts of the Niba game server and its console client, with proofs about them.

1. **Fights** (`shared/fight.cpp`, `shared/rng.h`). `Fighter`, `Rounds` and `Engine` model the engine: the class
   `Engine.Fight` holds the array of fighters that `go` updates in place, drawing from a recording generator on the
   server and from a replaying one on the client. `Rounds.Round` is one round as a function of the state and the
   values drawn. `FightLaw` states a round a second time, without any of the engine's searches, divisions or loops
   (who stands at the mark first, who is the most threatening enemy, what happens to every fighter), and proves that
   the engine's round is the only one that obeys. `FightRuns` proves what holds over whole fights of any length, and
   `Replay`, `Order`, `Setup`, `DamageBounds` and `FightOutcome` join the two ends: the array both build, the fighters
   both set up, what a blow can deal, and that the replay reproduces the fight. `Blow` writes out which draws land and
   what they deal, with each resistance by its own name. `Ending` says exactly when `go` returns whatever is drawn.
2. **Spell books** (`server/server_processor.cpp`, `server/db_accessor.cpp`, `client/client_processor.cpp`).
   `Fusion`, `SpellBook`, `Commands` and `Handlers`: learn, fuse and reorder on three copies of a character's magics
   (server memory, stored rows, client memory), with the store failing at any statement.
3. **Sessions** (`server/session_map.cpp`, the login, createchar and send handlers, the end of a session).
   `SessionRegistry` is the map under its mutex; `Protocol` is a state machine whose steps are what a session does
   between two suspensions, interleaved without restriction; `Online` says what every interleaving guarantees, `StepLaw` what
   each step needs, touches, and leaves when it fails, `LoginFlag` exactly when a login passes its check, `LoginStory`
   how whoever is in game got there, and `SharedName` when names stay unique (`Scenes` holds pieces of runs).
4. **Writes and pace** (`server/server_session.cpp`, the request gate, `shared/calcdelay.h`). `WriteQueue` is the
   single-drainer queue over every interleaving of writers and completions; `Gate` is the server's time gate against
   the cooldown the client computes for itself. `EndToEnd` plays all of it together, turn by turn: lines typed,
   commands, fights and cooldowns.

`Rounding`, `Structs` and `Util` hold the conversions, records and vector helpers that the rest uses.

## Assumptions

- A C++ `double` is an exact real; `static_cast<int>` truncates toward zero, `std::lround` rounds halves away from
  zero, `int / int` truncates. `int` is unbounded. `DELAYFACTOR` is 1.
- What `go` relies on and no code establishes is written out as `Rounds.Fit` and, at the constructor,
  `Order.CanFight`: hp and speed above 0, progress 0, `attack_min <= attack_max` with a sum of at least 0, a defence
  other than -100, and for any two opponents accuracies that do not sum to 0. None of it is assumed to persist: every
  round is proved to keep it.
- The server's random engine is an arbitrary finite list of words, each of which may give any value of the range asked
  for. A call of `go` that outlives the list is reported as unfinished; a call that returns has consumed finitely many,
  so every finishing call is covered. The weighted draw of a fusion may pick any of the four attributes.
- `std::sort` is represented by one correct sort, proved to give the only sorted arrangement.
- A statement of the store that reports failure has left the rows as they were, except that a failed flag update or
  character insert may have been applied; a transaction is applied at its commit, whole or not at all.

## Where the code does not do what it is for

Each of these is kept as the code has it, and the condition under which the code does meet its purpose is proved.

- **Fuse.** The server saves the primary's position, erases the secondary and writes at the saved position; the client
  erases and searches again. After an accepted fuse the two agree, and server memory agrees with the rows, if and only
  if the primary stands before the secondary in the learnt list (`SpellBook.FuseExactly`), and over whole sequences of
  commands all three copies agree throughout if and only if no other fuse is committed
  (`Commands.ThreeCopiesAgreeExactly`). In C++ the erase invalidates the saved iterator in every other case, so the
  write is formally undefined; the model says what happens where a position survives the erase, as it does in
  contiguous storage. Validation also accepts the same id twice. The repository's `testscript` learns 1, learns 2 and
  runs `fusemagic 2 1`: the write lands past the end of the list (`Commands.ScriptedFuseIsUndefined`).
- **A fight need not end.** Suppose accuracies are not negative and every blow that lands deals something, which can be
  read off the fighters before the fight. Then `go` returns on every stream of draws if and only if some team has
  nobody living with accuracy, and there is a bound on the draws it takes (`Ending.FightEndsExactly`; for the fight of
  a request, if and only if one of the two has no accuracy, `Ending.DuelEndsExactly`). Otherwise draws of 99 keep it
  going for ever (`Ending.EvasionsNeverEnd`).
- **`logged_in`.** The flag is meant to keep a second session of a user out. A login gets past it, whoever else is past
  it, if and only if no update of the flag has been applied since the last applied logout
  (`LoginFlag.LoginPassesExactly`). That happens in two ways (`LoginFlag.PassedBecause`): between the two statements of
  another login (`LoginFlag.FlagDoesNotExclude`), and after some other session of the user has logged out, for
  instance the loser of such a race, which the registry refused (`LoginFlag.RefusedSessionClearsFlag`). The registry
  and the one-row-per-user key exclude a second session in game instead (`Online.OneSessionEach`).
- **Character names** look like keys: the registry and the rows of magics go by name. The store does not keep them
  unique. A step keeps them unique if and only if it does not insert a name that another user's character has
  (`SharedName.NamesStayUniqueExactly`), and nothing refuses such an insert: two users can share rows, so that one is
  in game with a magic the other learnt (`SharedName.TwoUsersShareRows`). At most one of them is in game at a time
  (`Online.OneSessionEach`, `Online.OnlyThePlayerWrites`).
- **Write queue.** A drainer whose write fails gives up. The queue is stranded if and only if some write failed with
  others queued behind it (`WriteQueue.StrandedExactly`), and then nothing is ever written to that session again
  (`WriteQueue.StrandedForGood`).
- **`send` while creating a character.** Validation lets the request through, and the handler throws if and only if the
  sender has no character yet (`Online.SendExactly`).
- **`fight_delay`.** The arithmetic suggests a delay in proportion to the hp lost; the division is of integers. It is
  in proportion if and only if the fighter is dead or its starting hp divides what it lost
  (`FightOutcome.DelayProportionalExactly`), so in practice all or nothing (`FightOutcome.DelayIsAllOrNothing`).
- **New characters.** Validation admits a dexterity of 0, with which `ticks_calc` divides by 0, and a physique of 0,
  with which the character starts dead but is counted as living; with nothing equipped a valid character can fight if
  and only if neither is 0 (`Setup.NewcomerCanFight`).
- **Reorder.** `shared/fight.h:81` speaks of the priority of magics; `setup_self` only asks whether an id is among the
  equipped ones, so two lists
  give the same spells in the same order if and only if they hold the same learnt ids (`Setup.ReorderChangesExactly`),
  and then the same fighter (`Setup.ReorderKeepsFighter`). In reorder validation the limit of
  six entries is implied by the other two limits (`Handlers.ValidateReorder`).

## Model

| member | source | states |
|---|---|---|
| `Replay.ReplayAgrees` | shared/fight.h:59-67 | for any round function: if the server's `go` ends, the client's `go` from the same start on the recorded values ends in the same state, never reads past their end, uses every one and leaves exactly what was appended |
| `Replay.ReplayConserves` | shared/rng.h:29-42 | what a replay has read followed by what it has not is the recording, for every list it finishes on |
| `Replay.TruncatedReplayFails` | shared/rng.h:35 | a recording cut short anywhere makes the replay hit the assertion, never a wrong result |
| `Replay.ClientRunIsPlay` | shared/fight.cpp:122-200 | a finished call is a sequence of rounds from its start to its end, with one or two values read in each |
| `Replay.RankedRunEnds` | shared/fight.cpp:122-200 | for any round function: a rank that every drawable round lowers bounds the draws that `go` needs to return |
| `Replay.StalledServer` | shared/fight.cpp:122-200 | a draw that always keeps the game from being over keeps `go` from returning, with the recording generator |
| `Replay.StalledClient` | shared/fight.cpp:122-200 | the same with the replaying generator |
| `Engine.Fight.GoServer` | shared/fight.cpp:116-203 | the in-place loop with the recording generator ends exactly when the abstract run does, with its fighters, its clock, its winner, its recording and its unread words |
| `Engine.Fight.GoClient` | shared/fight.cpp:116-203 | the same loop with the replaying generator: result, fighters and unread values of the abstract replay; no result exactly when it reads past the end |
| `Engine.Fight.RoundServer` | shared/fight.cpp:122-200 | one pass of the loop is one round of the abstract run, keeps the invariant, records what it draws and consumes words |
| `Engine.Fight.RoundClient` | shared/fight.cpp:122-200 | one pass of the replaying loop is one round of the abstract replay and shortens the unread values |
| `Engine.Fight.constructor` | shared/fight.cpp:96-114 | the array is the arranged line-up, the clock is 0, the team sizes are those given |
| `Engine.Fight.AliveIndices` | shared/fight.cpp:125-131 | exactly the living, in index order |
| `Engine.Fight.FindNext` | shared/fight.cpp:133-144 | the living fighter with the least (ticks, index) |
| `Engine.Fight.Wait` | shared/fight.cpp:149-167 | every living fighter and no dead one has advanced; the target is the greatest (threat, index) of the living enemies as they stood before, though the loop changes the array while it searches |
| `Engine.Fight.Schedule` | shared/fight.cpp:125-169 | attacker, target and wait are those of the round, and the assertion on the target holds |
| `Engine.Fight.PickAndHeat` | shared/fight.cpp:171-187 | the first castable spell of the attacker, and only it, goes on cooldown; otherwise the default magic is chosen and nothing changes |
| `Engine.Fight.Settle` | shared/fight.cpp:180-198 | cost paid by the attacker alone, damage taken by the defender alone, and the defender's team loses one exactly if it falls |
| `Engine.StepsAreRound` | shared/fight.cpp:122-200 | the steps put together are one round of the specification |
| `Engine.DamageCalcServer` | shared/fight.cpp:26-74 | one draw if the blow is evaded, two otherwise, in that order and from those ranges; all are recorded |
| `Engine.DamageCalcClient` | shared/fight.cpp:26-74 | the same on recorded values; no damage exactly when they give out |
| `Engine.Cool` | shared/fight.cpp:158-160 | every spell's remaining cooldown falls by the wait, to 0 at the least; nothing else of it changes |
| `Rng.RngServer.Draw` | shared/rng.h:14-19 | the value lies in the range asked for and is appended to the recording |
| `Rng.RngClient.Draw` | shared/rng.h:32-37 | the next recorded value, whatever the range; fails exactly at the end |
| `Rng.InRange` | shared/rng.h:15-16 | a draw lies within its bounds |
| `Rng.InRangeIsOnto` | shared/rng.h:15-16 | every value of a range can be drawn, so nothing is assumed of the distribution |
| `Fighter.Fightable.TicksCalc` | shared/fight.cpp:15-24 | the ceiling division is the least wait that brings the progress to 1000: the mark is reached after it and not a tick sooner, and it is 0 exactly for a fighter already there |
| `Fighter.Fightable.FirstCastable` | shared/fight.cpp:86-94 | a spell off cooldown whose cost leaves mana, and no earlier one is; none exactly if there is none |
| `Fighter.Fightable.PickMagicIdx` | shared/fight.cpp:86-94 | the loop returns the first castable spell |
| `Rounds.NextUpTo` | shared/fight.cpp:133-144 | the least (ticks, index) among the living of a prefix, and no result exactly if nobody lives there |
| `Rounds.ThreatUpTo` | shared/fight.cpp:149-168 | the greatest (threat, index) among the living enemies and the placeholder |
| `Rounds.TargetAssertionExactly` | shared/fight.cpp:151-168 | without any assumption on threats, the assertion after the target search holds if and only if some living enemy exceeds the placeholder (-1, attacker) |
| `Rounds.SomeEnemyStands` | shared/fight.cpp:168 | in every round of a fit fight the placeholder has been replaced, so the assertion holds |
| `Rounds.Attacker` | shared/fight.cpp:133-144 | the one who acts lives and precedes every other living fighter in (ticks, index) |
| `Rounds.Defender` | shared/fight.cpp:149-169 | the target is a living enemy that exceeds every other living enemy in (threat, index) |
| `FightLaw.RoundIsLegal` | shared/fight.cpp:122-200 | the engine's round obeys the law: the actor is the first in index order to stand at the mark, nobody stood there sooner; the target has the greatest sum of attack bounds, the later place on a tie; the spell is the first whose cooldown is within the wait and whose cost leaves mana; each fighter changes only as the law says, with progress, cooldowns, hp and mp written out; counters drop exactly on a death |
| `FightLaw.LegalIsRound` | shared/fight.cpp:122-200 | the converse: whatever obeys the law from a fit state has the engine's attacker, wait, target, spell and resulting state; only the damage is open |
| `FightLaw.OneActsNext` | shared/fight.cpp:133-147 | who acts and after how many ticks is unique |
| `FightLaw.LegalKeepsFit` | shared/fight.cpp:119-202 | every legal round, whatever its damage, keeps the counters equal to the numbers of living fighters and the attacker's team standing |
| `FightLaw.RoundKeepsFit` | shared/fight.cpp:122-200 | the engine's round keeps the invariant of `go` |
| `FightLaw.CountersFollow` | shared/fight.cpp:195-197 | one subtraction on the fallen defender's team is right for both counters |
| `FightRuns.RunStaysFit` | shared/fight.cpp:119-202 | the counters are exact and the fighters fit after any number of rounds |
| `FightRuns.FighterKept` | shared/fight.cpp:116-203 | over any stretch of a fight nobody's team, number, spells or stats other than hp and mp change |
| `FightRuns.DeadStayDead` | shared/fight.cpp:126-131 | a fallen fighter is untouched for the rest of the fight |
| `FightRuns.FightEnds` | shared/fight.cpp:123-124 | when a fight of at least one round is over, all survivors are of the winning team and there is one |
| `FightRuns.Tempo` | shared/fight.cpp:15-24 | for every living fighter after any number of rounds, with `a` actions so far: 1000a + progress <= speed * elapsed <= (999 + speed)a + progress, and progress <= 999 + speed |
| `FightRuns.NoStarvation` | shared/fight.cpp:133-165 | from the moment a fighter is ready until it acts or dies the clock does not move, and that takes fewer rounds than there are ready fighters |
| `FightRuns.ReadyShrinks` | shared/fight.cpp:133-198 | with somebody ready a round takes no ticks, strictly shrinks the set of ready fighters and drops none of them but the actor and the dead |
| `FightRuns.RoundsWithinTicks` | shared/fight.cpp:133-198 | rounds fought, plus fighters ready, never exceed the number of fighters times the ticks elapsed |
| `FightRuns.CooldownHolds` | shared/fight.cpp:12-13 | once cast, a spell's remaining cooldown is at least its full cooldown less the ticks since, whether or not it is cast again |
| `FightRuns.CooldownExactly` | shared/fight.cpp:12-13 | a living fighter's spell, last cast in round j and not since, has exactly max(full cooldown - ticks since, 0) left |
| `FightRuns.UncastCooldownExactly` | shared/fight.cpp:12-13 | one not cast yet has exactly max(starting cooldown - ticks elapsed, 0) left |
| `FightRuns.CastsAgain` | shared/fight.cpp:86-94 | an attacker that can afford a spell whose full cooldown has passed since it last cast it casts that spell or an earlier one, and casts that one only then |
| `FightRuns.CastsFirst` | shared/fight.cpp:86-94 | the same for a spell it has not cast yet, from its starting cooldown |
| `FightRuns.CastsSpaced` | shared/fight.cpp:86-94 | two casts of one spell by one fighter are at least its cooldown apart in elapsed ticks |
| `FightRuns.Ledger` | shared/fight.cpp:171-190 | over any run each hp is the starting hp less the damage dealt to that fighter, each mp the starting mp less the costs it cast |
| `FightRuns.CastLeavesMana` | shared/fight.cpp:89 | after a cast the caster has mana left |
| `FightRuns.WoundsBounded` | shared/fight.cpp:190-197 | if no blow heals, the rounds that deal something number at most the starting hp less what remains |
| `FightRuns.FightTerminates` | shared/fight.cpp:122-200 | a run of rounds that each deal at least 1 is no longer than the hp it starts with; that `go` returns is `Ending.WoundingFightEnds` and `Ending.FightEndsExactly` |
| `FightOutcome.PlayIsRun` | shared/fight.cpp:116-203 | everything the engine plays is a run of legal rounds with the damage it computed, so all laws of whole fights apply to it |
| `FightOutcome.ServerFightIsRun` | shared/fight.cpp:116-203 | a finished server fight is a run from its start to its end; rounds <= values recorded <= 2 * rounds; rounds <= fighters * ticks; the losers are dead and a winner stands |
| `Ending.FightEndsExactly` | shared/fight.cpp:116-203 | from a fresh fight with non-negative accuracies in which every landed blow deals something, `go` returns on every stream of draws if and only if some team has nobody living with accuracy, and if and only if some number of draws always suffices |
| `Ending.DuelEndsExactly` | server/server_processor.cpp:88-95 | the same for the handler's fight, in terms of the two fighters given to it: if and only if one of them has no accuracy |
| `Ending.LopsidedFightEnds` | shared/fight.cpp:122-200 | if the enemies of `f` never land a blow, `go` returns within twice (fighters ready + fighters * ((999 + speed of f)(hp + 1) - its progress)) draws |
| `Ending.PatienceFalls` | shared/fight.cpp:122-200 | every round of such a fight lowers that bound and leaves such a fight, whatever is drawn |
| `Ending.EvasionsNeverEnd` | shared/fight.cpp:31-34 | with non-negative accuracies, and a living fighter with accuracy on each team, draws of 99 keep the fight going for as long as there are any, on both generators |
| `Ending.WoundingFightEnds` | shared/fight.cpp:122-200 | two draws for every point of hp suffice for `go` to return, if every blow until then wounds, whatever the accuracies |
| `FightOutcome.ServerFight` | server/server_processor.cpp:88-99 | the handler sends the recording of the run and extends the cooldown by the delay of the first fighter's final hp and the elapsed ticks |
| `FightOutcome.ClientFight` | client/client_processor.cpp:48-57 | the handler's winner and delay are those of the replay of the values received |
| `FightOutcome.FightRequest` | client/client_processor.cpp:48-57 | end to end: whenever the server's fight ends, the client, with a fighter it set up itself, finds the same winner, the same final fighters, the same clock and the same delay, and has read every value |
| `FightOutcome.DelayIsAllOrNothing` | shared/calcdelay.h:18-25 | ten seconds extra for a fighter with no hp left, none for one with hp below twice its starting hp, and ten seconds off for every whole starting hp above its start beyond that |
| `FightOutcome.DelayProportionalExactly` | shared/calcdelay.h:18-25 | the hp part is the exact proportion of the hp lost if and only if the fighter has none left or its starting hp divides the difference |
| `Order.SortIsCorrect` | shared/fight.cpp:106-110 | the arrangement is sorted by (speed, original index) and is a permutation of the line-up |
| `Order.SortUnique` | shared/fight.cpp:106-110 | two sorted permutations of the same fighters are equal |
| `Order.ArrangeDetermined` | shared/fight.cpp:96-114 | whatever correct sort is used, the numbered array is the same one |
| `Order.ArrangedBySpeed` | shared/fight.cpp:96-114 | the array written out: everyone once, friends on team 0 and enemies on team 1, numbered by place, the slower first, and of equally fast ones the one given first, friends before enemies |
| `Order.StartIsFresh` | shared/fight.cpp:96-119 | fighters fit to enter start a fight that meets the invariant of `go`, numbered by position, with progress and clock at 0 |
| `Order.StartCounts` | shared/fight.cpp:119 | the counters that `go` takes from the vector sizes are the numbers of living fighters after the sort |
| `Order.SameEntrantsSameStart` | shared/fight.cpp:96-114 | number and team on entry, which `setup_self` leaves unset, do not matter to the array or to being fit |
| `Setup.SetupSelf` | shared/fight.cpp:227-249 | every stat of the fighter is the raw one plus what the attributes give plus the sum over equipped magics and equipment; its spells are the equipped ones in learnt order, ready to cast |
| `Setup.AttributesCount` | shared/fight.cpp:213-225 | characters that differ in attributes alone become fighters that differ by 2 in each attack bound for a point of strength, 1 in accuracy, evasion and speed for dexterity, 5 hp and 1 defence for physique, 5 mp and 1 inner power for spirit, and in no other stat |
| `Setup.NoAttributesGiveNothing` | shared/fight.cpp:213-225 | attributes of 0 give nothing to any stat |
| `Setup.MagicCounts` | shared/fight.cpp:234-243 | one more magic learnt adds its stats to every key and comes last among the spells if it is equipped, and changes nothing if not |
| `Setup.EquipmentCounts` | shared/fight.cpp:244-247 | one more piece of equipment adds its stats to every key |
| `Setup.LearntOrder` | shared/fight.cpp:234-243 | the spells are the learnt magics whose id is equipped, all of them, in the order they were learnt |
| `Setup.ValidExactly` | shared/message.cpp:122-137 | a character's attributes pass validation if and only if the bare fighter it becomes has none of attack, speed, defence and inner power below 0 and half its attack with the other three comes to at most 5 |
| `Setup.SetUpDetermines` | shared/fight.cpp:227-249 | the same character, magics, equipment and equipped ids give the same fighter up to number and team |
| `Setup.SetUpKeepsAttackRange` | shared/fight.cpp:227-249 | if all parts have `attack_min <= attack_max`, so has the fighter: the damage roll's range is valid |
| `Setup.ReorderKeepsFighter` | shared/fight.cpp:234-243 | equipped lists with the same ids, in any order and with repeats, give the same fighter with the same spells in the same order |
| `Setup.ReorderChangesExactly` | shared/fight.cpp:234-243 | two equipped lists give the same spells in the same order if and only if they hold the same learnt ids |
| `Setup.NewcomerCanFight` | shared/message.cpp:122-137 | a character that passes validation, with nothing equipped, is fit for `go` if and only if dexterity and physique are above 0 |
| `DamageBounds.HitThresholdIsPercentage` | shared/fight.cpp:28-30 | with non-negative accuracies, not both 0, the threshold lies in 0..100 |
| `DamageBounds.LandsExactly` | shared/fight.cpp:28-34 | for any accuracies whose sum is not 0: a draw `hit` lands if and only if (hit + 1) * sum is at most 100 * the attacker's (at least, if the sum is negative): the casts and divisions amount to this integer test |
| `Blow.DamageObeysLaw` | shared/fight.cpp:27-74 | for any stats and draws: a blow that does not land deals 0; one that lands deals, truncated, roll * multiplier / (defence + 100) + innerDamage * (100 + inner power) / 100 * share, where the share is (100 - the one resistance that matches the property, gold for 'j', wood for 'm', water for 's', fire for 'h', earth for 't') / 100, and 0 for any other property |
| `Blow.MatchingResistance` | shared/fight.cpp:45-60 | against 100 of the matching resistance only the physical part is dealt, against 0 the whole |
| `Blow.OtherResistances` | shared/fight.cpp:45-65 | the other four resistances change nothing, and none of the five does for another property |
| `Blow.RoundObeysLaw` | shared/fight.cpp:171-190 | in a round it is the attacker's blow on the target, with the spell cast, or else with multiplier 100 and no inner damage |
| `DamageBounds.DamageWithinBlow` | shared/fight.cpp:36-73 | with non-negative parts and resistance in 0..100 the damage lies between 0 and the unreduced sum |
| `DamageBounds.DamageRisesWithRoll` | shared/fight.cpp:36-73 | a higher roll never deals less |
| `DamageBounds.DamageFallsWithProtection` | shared/fight.cpp:36-73 | more defence and more of the matching resistance never let more through |
| `Structs.AddAssign` | shared/structs.h:156-163 | every stat, in place, grows by the other record's |
| `Structs.MulAssign` | shared/structs.h:165-171 | every stat, in place, becomes its rounded multiple |
| `Structs.Share` | shared/structs.h:168 | a rounded multiple is within one half of the exact one |
| `Rounding.Trunc` | shared/fight.cpp:71 | truncation toward zero on both sides of zero |
| `Rounding.LRound` | shared/structs.h:168 | nearest integer, halves away from zero |
| `Rounding.DivInt` | shared/calcdelay.h:23 | the C++ quotient of integers, for negative dividends too |
| `Util.FindIf` | shared/util.h:13-17 | the first position that meets the condition, none exactly if nothing does |
| `Util.VectorRemove` | shared/util.h:19-23 | erase-remove: everything else, in order |
| `Util.KeptAllButOne` | shared/util.h:19-23 | removing one element shifts every later position down by one and leaves earlier ones alone |
| `Fusion.Fuse` | server/server_processor.cpp:143-186 | adding the gains in place, and the shares of inner damage and multiplier, gives the fused magic of the specification |
| `Fusion.ComputeGains` | server/server_processor.cpp:146-180 | scaling every stat by 5% in place and topping up the preferred ones by 15% gives the specified gains |
| `Fusion.FusionGains` | server/server_processor.cpp:143-186 | attack for strength, accuracy, evasion and speed for dexterity, hp and defence for physique, mp and inner power for spirit gain a rounded twentieth and a rounded three twentieths of the secondary's, so within 1 of a fifth; any other stat gains the rounded twentieth |
| `Fusion.FusionGrows` | server/server_processor.cpp:184-186 | the multiplier rises by a rounded twentieth of the secondary's above 100, inner damage by a rounded twentieth of the secondary's, and all else but the stats is the primary's |
| `Fusion.FusionKeeps` | server/server_processor.cpp:143-186 | id, kind, cooldown, cost and property are the primary's, and valid attack ranges stay valid |
| `SpellBook.FuseExactly` | server/server_processor.cpp:139-206 | after an accepted, committed fuse these are equivalent: the server's write is defined and equals the client's; the server's write is defined and memory agrees with the rows; the primary preceded the secondary |
| `SpellBook.OrderedFuseLists` | client/client_processor.cpp:80-93 | with the primary first, both put the fused magic where the primary stood, in the list without the secondary |
| `SpellBook.OrderedFuseMap` | server/db_accessor.cpp:206-242 | with the primary first, the resulting list as an id-to-magic map is the one the transaction leaves |
| `SpellBook.DisorderedFuse` | server/server_processor.cpp:203-206 | otherwise, as vectors in contiguous storage behave (C++ calls it undefined), the write is past the end, if the primary was last, or overwrites the magic after the primary, which memory loses |
| `SpellBook.DisorderedFuseDisagrees` | server/server_processor.cpp:203-206 | in the second case server memory differs from the client's and from the rows |
| `SpellBook.IdMapAt` | server/db_accessor.cpp:154-166 | with distinct ids every listed magic is the one stored under its id |
| `SpellBook.PassivesKept` | shared/message.cpp:272-286 | dropping an id never raises the number of passive or of active entries |
| `SpellBook.LoadoutExactly` | shared/message.cpp:265-287 | a loadout is legal if and only if every entry is learnt, at most one entry is passive and at most five are active, counted as sets of places |
| `SpellBook.FuseTakes` | server/server_processor.cpp:139-145 | an accepted fuse takes the first learnt magic of each id and fuses the second into the first |
| `SpellBook.LearntAs` | server/server_processor.cpp:124-127 | a magic is learnt as the static data have it, with its name for an empty description |
| `Commands.ServerStepKeeps` | server/server_processor.cpp:123-220 | every accepted command, failing at any statement or not, unless it commits a fuse out of order, is defined and keeps the rows legal, memory within the rows, and equal to them if it was |
| `Commands.AcceptedExactly` | shared/message.cpp:161-288 | validation admits exactly: a magic that the static data have and the book has not; two learnt magics of one kind; a list of learnt ids with at most one passive and five active entries |
| `Commands.ResponseCarries` | server/server_processor.cpp:124-186 | a learn's response carries the static magic with its description filled in, a fuse's the primary fused with the secondary |
| `Commands.RefusedRequest` | server/server_processor.cpp:31-37 | what either end's validation refuses or the store fails changes nothing on either end |
| `Commands.LearnKeeps` | server/server_processor.cpp:123-134 | a stored and appended magic keeps distinct ids, loadout and agreement |
| `Commands.FuseKeeps` | server/server_processor.cpp:136-211 | an ordered fuse is defined on both ends, equal on both, and keeps loadout and agreement |
| `Commands.ReorderKeeps` | server/server_processor.cpp:213-220 | an accepted list keeps loadout and agreement |
| `Commands.RequestKeeps` | client/client_processor.cpp:71-106 | one request that does not commit a fuse out of order, with the client following a success, keeps server memory, client memory and rows equal |
| `Commands.RequestKeepsExactly` | client/client_processor.cpp:71-106 | from copies that agree, a request is defined and leaves them agreeing if and only if it does not commit a fuse out of order; rejected and failed ones may name any order |
| `Commands.ThreeCopiesAgreeExactly` | client/client_processor.cpp:71-106 | over any sequence of commands with any failures of the store, nothing undefined happens and the three copies agree at every point, if and only if no fuse is committed out of order |
| `Commands.ThreeCopiesAgree` | client/client_processor.cpp:71-106 | at the end of such a sequence the loadout is legal: distinct ids, equipped ids learnt, at most 1 passive and 5 active; attack ranges are still valid if they were |
| `Commands.FusedLoadoutFights` | shared/fight.cpp:227-249 | after any such sequence the character set up from its book still has a valid range for the damage roll |
| `Commands.ReloginRestores` | server/db_accessor.cpp:154-177 | a login that reads everything restores the equipped list exactly and the magics up to order |
| `Commands.ScriptedFuseIsUndefined` | testscript:4-6 | learn 1, learn 2, fuse 1 into 2, from empty books, writes past the end of the server's list |
| `Handlers.DbAccessor.CreateMagic` | server/db_accessor.cpp:194-204 | inserts exactly if the store takes it and the key is free; other characters' rows stay |
| `Handlers.DbAccessor.FuseMagic` | server/db_accessor.cpp:206-242 | all three statements at a successful commit, none of them after a failure at any stage; other characters' rows stay |
| `Handlers.DbAccessor.EquipMagics` | server/db_accessor.cpp:244-256 | the row of equipped ids is the list given, or nothing changed |
| `Handlers.ServerProcessor.LearnMagic` | server/server_processor.cpp:123-134 | memory and rows afterwards are those of the command's step: on success the magic is appended and stored under its id, otherwise nothing changed |
| `Handlers.ServerProcessor.FuseMagic` | server/server_processor.cpp:136-211 | memory and rows afterwards are those of the command's step, unchanged without success, and the write through the saved iterator is defined exactly when the step is |
| `Handlers.ServerProcessor.ReorderMagic` | server/server_processor.cpp:213-220 | on success the list sent is what memory and rows hold as equipped and all else stays, otherwise nothing changed |
| `Handlers.ClientProcessor.LearnMagic` | client/client_processor.cpp:71-78 | the client's step on success, nothing otherwise |
| `Handlers.ClientProcessor.FuseMagic` | client/client_processor.cpp:80-98 | the client's step on success, defined exactly if the primary is found again; nothing otherwise |
| `Handlers.ClientProcessor.ReorderMagic` | client/client_processor.cpp:100-106 | the client's step on success, nothing otherwise |
| `Handlers.ValidateReorder` | shared/message.cpp:260-288 | the hash-map loop and its three limits accept exactly the legal loadouts |
| `SessionRegistry.SessionMap.RegisterSession` | server/session_map.cpp:30-41 | refused exactly while the name's session exists; an expired entry gives way |
| `SessionRegistry.SessionMap.Remove` | server/session_map.cpp:43-48 | the name's entry goes, no other |
| `SessionRegistry.SessionMap.Write` | server/session_map.cpp:8-17 | reaches the name's session exactly if it exists |
| `SessionRegistry.SessionMap.Cleanup` | server/session_map.cpp:19-28 | the erase loop leaves exactly the entries that have not expired, in whatever order it visits them |
| `Protocol.RegisterExactly` | server/session_map.cpp:30-41 | registration is refused if and only if somebody is in game under the name |
| `Protocol.StepKeepsInv` | server/server_processor.cpp:58-121 | every step of every session, failures included, keeps the registry exact, sessions alive, held characters stored, and remembered books stored |
| `Protocol.ServeKeeps` | server/server_processor.cpp:123-220 | a command of one session, its fuse ordered or not, keeps the invariant for all sessions |
| `Protocol.EveryInterleaving` | server/server_processor.cpp:58-121 | the invariant holds in every state that any interleaving reaches |
| `StepLaw.DisabledStep` | shared/message.cpp:39-41 | a step of a session that does not stand where its request's validation, or the suspension before it, puts it changes nothing |
| `StepLaw.StepTouchesOwn` | server/server_processor.cpp:15-18 | a step changes no session but its own |
| `StepLaw.LiveExactly` | server/server_session.cpp:70-75 | a session is live from its connection until it is destroyed, which only an ended one is |
| `StepLaw.CleanupExactly` | server/session_map.cpp:19-28 | in any state, reachable or not, the cleanup erases exactly the entries of destroyed sessions and changes nothing else |
| `StepLaw.FailedSelect` | server/db_accessor.cpp:46-86 | a login with a wrong password, an unknown user, a set flag or a failed first statement leaves no trace |
| `StepLaw.FailedUpdate` | server/db_accessor.cpp:80-82 | one that fails at the second statement leaves the session before login, though the flag may be set |
| `StepLaw.FailedFetch` | server/server_processor.cpp:62-73 | a character that cannot be read is taken for none and a new one is asked for |
| `StepLaw.FailedInsert` | server/db_accessor.cpp:179-192 | a failed insert leaves the session asking, though the row may be there; a user with a row gets no other |
| `StepLaw.FailedReads` | server/db_accessor.cpp:154-177 | magics that cannot be read are taken for none, and so are equipped ids, and the session is in game all the same |
| `StepLaw.FailedServe` | server/server_processor.cpp:130-132 | a command that the store fails leaves every session and every row as it was |
| `StepLaw.CommandTakesEffect` | server/server_processor.cpp:123-220 | an accepted command takes effect on the rows and then on its own session's memory, and on nothing else |
| `StepLaw.CleanLogin` | server/server_processor.cpp:58-71 | a user with a character, whose flag is clear and whose name nobody live holds, gets in game with the right password if nothing fails, registered, with the stored magics and equipped ids |
| `StepLaw.StoreStepBrings` | server/server_processor.cpp:58-121 | a session's selection, user, character or entry is new only by the one kind of step that may bring it, from the state that allows it |
| `Protocol.CleanupFindsNothing` | server/session_map.cpp:19-28 | under the invariant no entry is ever expired |
| `Online.RegistryExact` | server/session_map.cpp:30-48 | in every reachable state a name maps to a session if and only if that session is in game under it and not yet removed |
| `Online.OneSessionEach` | server/db_accessor.cpp:75-83 | however logins race, two sessions in game with one name or one user are the same session |
| `Online.EndRemovesOwnEntry` | server/server_session.cpp:70-75 | the end of a session removes its own entry, if it had one, and no other |
| `Online.CleanupChangesNothing` | server/session_map.cpp:19-28 | cleanup changes no reachable state |
| `Online.SendExactly` | server/server_processor.cpp:224-229 | in every reachable state `send` reaches session t if and only if t is in game under the name; it reports failure if and only if nobody is; it throws if and only if the sender has no character yet |
| `Online.MemoryIsStored` | server/server_processor.cpp:123-220 | whatever the other sessions do, between requests a session that read its rows at login holds exactly the rows stored under its name, and its loadout is legal even if those reads failed, unless a fuse under that name was committed out of order |
| `Online.OnlyThePlayerWrites` | server/db_accessor.cpp:194-256 | rows of a name change only in a step of the session in game under it |
| `Online.SpoiltByOwnFuse` | server/server_processor.cpp:203-206 | a name loses the guarantee only by its own session committing a fuse whose primary does not stand before its secondary |
| `LoginFlag.FlagIsLastWrite` | server/db_accessor.cpp:80-95 | in every reachable state the flag is set if and only if an update was applied since the last applied logout, counting its first value |
| `LoginFlag.LoginPassesExactly` | server/db_accessor.cpp:36-86 | in every reachable state, for any password and store: a login gets past the check if and only if the password matches, the store answers, the user exists and no update of its flag has been applied since the last applied logout; otherwise it changes nothing; and whoever else was past the check stays |
| `LoginFlag.PassedBecause` | server/db_accessor.cpp:75-95 | a login can pass while another session is past the check only if that one is between its two statements or a different session of the user has logged out |
| `LoginStory.NobodyEntersOtherwise` | server/server_processor.cpp:58-121 | whoever is in game, in any interleaving, selected its user by a step of its own with the right password while the flag was clear, then updated the flag without error, then read the character stored for that user or inserted it where there was none, then registered the name while nobody live had it |
| `LoginStory.NobodyHasUserOtherwise` | server/db_accessor.cpp:73-83 | whoever has a user got it by a step of its own with the right password and an update that succeeded |
| `LoginFlag.FlagDoesNotExclude` | server/db_accessor.cpp:40-83 | a run in which two sessions of one user both pass the check before either sets the flag |
| `LoginFlag.RefusedSessionClearsFlag` | server/server_session.cpp:70-75 | a run in which the session that the registry refused logs out and a third login passes, without a race, while the winner is in game |
| `SharedName.NamesStayUniqueExactly` | server/db_accessor.cpp:179-192 | a step keeps character names unique if and only if it does not insert a name that is taken |
| `SharedName.TwoUsersShareRows` | schemas/niba_player.sql:194-203 | a run in which two users create characters of one name, the first learns a magic and leaves, and the second is in game with that magic read as its own |
| `WriteQueue.EveryRunValid` | server/server_session.cpp:79-109 | over every interleaving at most one write is outstanding, it is of the front, and enqueued = popped + queue |
| `WriteQueue.FirstInFirstOut` | server/server_session.cpp:79-109 | messages popped followed by the queue are the messages written, in order |
| `WriteQueue.NothingStranded` | server/server_session.cpp:79-109 | without errors the queue is non-empty if and only if exactly one write is outstanding |
| `WriteQueue.DrainerEmptiesQueue` | server/server_session.cpp:89-107 | a drainer left alone sends everything, in order, in one completion a message |
| `WriteQueue.FailureStrandsExactly` | server/server_session.cpp:98-106 | after a failed write the next message is sent if and only if the failed one was alone in the queue |
| `WriteQueue.StrandedExactly` | server/server_session.cpp:89-107 | a run is stranded if and only if some socket write of it failed while others were queued behind |
| `WriteQueue.StrandedForGood` | server/server_session.cpp:85-88 | a stranded queue never sends again, whatever is written |
| `WriteQueue.ServerSession.Write` | server/server_session.cpp:79-88 | enqueues, and starts a write exactly if the queue was empty |
| `WriteQueue.ServerSession.Complete` | server/server_session.cpp:95-107 | pops, and writes the next front exactly if there was no error and one is left |
| `Gate.ServerTimes.Dispatch` | server/server_processor.cpp:23-28 | admitted exactly from the earliest time on, which an admitted request moves to now plus its delay and a refused one leaves |
| `Gate.AcceptedSpaced` | server/server_processor.cpp:23-28 | consecutive accepted requests, however many refused ones between, are at least the first one's delay apart |
| `Gate.ClientTimes.ProcessResponse` | client/client_processor.h:27-32 | the client's earliest time is the time of the response plus its own delay |
| `Gate.ClientTimes.HandleCmd` | client/client_session.cpp:113-184 | whether the line was a command it could parse is remembered, and the times are left alone |
| `Gate.ClientTimes.Sleep` | client/client_session.cpp:186-193 | the command loop waits until the earliest time, or not at all after a line it could not parse or a response that added nothing |
| `Gate.LineKeepsStep` | client/main.cpp:80-95 | one line, unparsed, invalid or sent, leaves the server expecting the client no later than the client means to come |
| `Gate.LineTakes` | client/main.cpp:80-95 | a line takes exactly the wait up to the client's earliest time, if it waits, and both ways if it is sent; each end's times move exactly by its own delay, on an accepted and answered request only |
| `Gate.PoliteClientAdmitted` | client/main.cpp:80-95 | if each delay the client computes covers the server's, every request it sends is admitted, for any latencies, any lines in between and any constant clock skew |
| `EndToEnd.PlayedTogether` | client/main.cpp:75-96 | from a login whose copies agree: over any sequence of lines, commands with any failures, and fights that end, with no fuse committed out of order, the three copies agree at every turn, every request is admitted, and every fight is reproduced with the server's end state, the recording used up and the same delay |
| `EndToEnd.TurnKeeps` | client/main.cpp:75-96 | one turn of that, whatever it is, keeps the copies agreeing and the clocks in step |
| `EndToEnd.PlayedWorld` | client/main.cpp:75-96 | a play leaves the copies of the book as its commands alone would: fights, waits and garbled lines do not touch them, and no command is lost to the gate |
| `EndToEnd.LineExactly` | client/client_session.h:42-51 | which lines are sent, what answers are errors, and that a fight adds on the server what its first fighter's end and its ticks cost |
| `EndToEnd.HandlersFightAsEntrants` | shared/fight.cpp:268-286 | fighters set up from the two copies of the book fight alike: the client's reproduces the server's fight and delay |
| `EndToEnd.ClientFinalSize` | shared/fight.cpp:116-203 | a replay neither adds nor drops fighters |

## Left out

- Fightables and magics are C++ objects held by value in vectors; they are datatype values inside an array (fights) or a list field (books) that is updated in place. References into a vector (`attacker`, `defender`, the saved iterator of a fuse) are positions.
- Sessions and handlers that suspend at the store are steps of a state machine (`Protocol`), not methods of a class: what happens between two suspensions is one step.
- Protocol.EveryInterleaving: a command whose write is undefined (a fuse whose primary is last in the list) is not a step, because nothing can be said of a session after it.
- Protocol.StepKeepsInv: a session whose coroutine is torn down in the middle of a handler, when the process stops, is not modelled.
- Handlers.DbAccessor.FuseMagic: a failing `begin` throws, so the client is sent a request error and not an unsuccessful answer; both leave rows and memory alone, and the model has one failure for both.
- Commands.ThreeCopiesAgree: starts from a login whose registration succeeded. A login refused by the registry still sends the character to the client while the server asks for a new one; the client's copy in that case is not modelled. A command that the store applies although it reports failure is not modelled; neither code nor documentation promises anything for it.
- EndToEnd.PlayedTogether: the enemy, the character and the equipment are equal on both ends by assumption, because static data and its lookup (`setup_fightable`) and the login response are not part of this model. Each fight is assumed to end; when it does is `Ending.FightEndsExactly`.
- Gate.PoliteClientAdmitted: the two clocks differ by a constant; a handler that fails after the gate adds no delay. The request for static data that the client chains to a login is a line read at the moment of the response.
- Ending.FightEndsExactly: blows that land for nothing, or heal, are outside its conditions; `Ending.EvasionsNeverEnd` holds with them too.
- Rounds.TargetAssertionExactly: with `BOOST_ASSERT` compiled out a failing assertion would let the attacker hit itself; this case is not followed further.
- Integer overflow and IEEE rounding: the model's integers and reals are unbounded and exact.
- That `my_status` is the player: it is the first fighter after the sort by speed, and is used only as the same element on both ends.
- TLS, websocket and asio plumbing, logging, configuration, certificates and process start-up: I/O and library calls.
- Password hashing and salts: foreign calls; a login step is given whether the password matched.
- JSON conversions of messages and records, registration, `getdata` and `echo`: field copies that would only add easy members.
- Limits on the lengths of user ids, passwords and messages, and the gender and name checks of character creation: simple tests on one value.
- Equipment records beyond their stats, and map data: no code here reads them.
- Printing and client command parsing.
