/** `go` is a template over its generator. So is this: what a round does is a parameter, and the server's
    recording run and the client's replaying run are compared for any round. */
module Replay {
  import opened Rng

  /** A round draws a hit value, then, unless that misses, a roll in a range; both decide the next state. */
  datatype Game<!S(!new)> = Game(over: S -> bool, misses: (S, int) -> bool, rollRange: S -> (int, int),
                                 next: (S, int, int) -> S) {
    ghost predicate Sound() { forall s :: rollRange(s).0 <= rollRange(s).1 }
  }

  /** How a call ends: over, with the values drawn and the part of the stream not looked at; or out of stream,
      which for the client is the failing assertion of its generator. */
  datatype Outcome<S, T> = Finished(final: S, drawn: seq<int>, unread: seq<T>) | CutOff {
    function After(values: seq<int>): Outcome<S, T> {
      if CutOff? then CutOff else this.(drawn := values + drawn)
    }

    lemma AfterNothing()
      ensures After([]) == this
    {
      if Finished? {
        assert [] + drawn == drawn;
      }
    }

    lemma AfterTwice(first: seq<int>, second: seq<int>)
      ensures After(second).After(first) == After(first + second)
    {
      if Finished? {
        assert first + (second + drawn) == first + second + drawn;
      }
    }
  }

  /** `go` on the server's generator, for any words its engine may yield. */
  function ServerRun<S(!new)>(g: Game<S>, s: S, words: seq<nat>): Outcome<S, nat>
    requires g.Sound()
  {
    if g.over(s) then Finished(s, [], words)
    else if words == [] then CutOff
    else
      var hit := InRange(words[0], 0, 99);
      if g.misses(s, hit) then ServerRun(g, g.next(s, hit, 0), words[1..]).After([hit])
      else if |words| == 1 then CutOff
      else
        var roll := InRange(words[1], g.rollRange(s).0, g.rollRange(s).1);
        ServerRun(g, g.next(s, hit, roll), words[2..]).After([hit, roll])
  }

  /** `go` on the client's generator, for any recorded values. */
  function ClientRun<S(!new)>(g: Game<S>, s: S, values: seq<int>): Outcome<S, int> {
    if g.over(s) then Finished(s, [], values)
    else if values == [] then CutOff
    else if g.misses(s, values[0]) then ClientRun(g, g.next(s, values[0], 0), values[1..]).After([values[0]])
    else if |values| == 1 then CutOff
    else ClientRun(g, g.next(s, values[0], values[1]), values[2..]).After([values[0], values[1]])
  }

  // A round ahead of a replay that agrees gives a replay that agrees.

  lemma EvadedAgrees<S(!new)>(g: Game<S>, s: S, hit: int, drawn: seq<int>, extra: seq<int>, final: S)
    requires !g.over(s) && g.misses(s, hit)
    requires ClientRun(g, g.next(s, hit, 0), drawn + extra) == Finished(final, drawn, extra)
    ensures ClientRun(g, s, [hit] + drawn + extra) == Finished(final, [hit] + drawn, extra)
  {
    assert ([hit] + drawn + extra)[1..] == drawn + extra;
  }

  lemma LandedAgrees<S(!new)>(g: Game<S>, s: S, hit: int, roll: int, drawn: seq<int>, extra: seq<int>, final: S)
    requires !g.over(s) && !g.misses(s, hit)
    requires ClientRun(g, g.next(s, hit, roll), drawn + extra) == Finished(final, drawn, extra)
    ensures ClientRun(g, s, [hit, roll] + drawn + extra) == Finished(final, [hit, roll] + drawn, extra)
  {
    assert ([hit, roll] + drawn + extra)[2..] == drawn + extra;
  }

  /** If the server's fight ends, the client's fight from the same start on the recorded values ends in the same
      state, never reads past their end, and leaves exactly what was appended to them. */
  lemma {:induction false} ReplayAgrees<S(!new)>(g: Game<S>, s: S, words: seq<nat>, extra: seq<int>)
    requires g.Sound() && ServerRun(g, s, words).Finished?
    ensures var server := ServerRun(g, s, words);
      ClientRun(g, s, server.drawn + extra) == Finished(server.final, server.drawn, extra)
    decreases |words|
  {
    if g.over(s) {
      assert [] + extra == extra;
    } else {
      var hit := InRange(words[0], 0, 99);
      if g.misses(s, hit) {
        var rest := ServerRun(g, g.next(s, hit, 0), words[1..]);
        ReplayAgrees(g, g.next(s, hit, 0), words[1..], extra);
        EvadedAgrees(g, s, hit, rest.drawn, extra, rest.final);
      } else {
        var roll := InRange(words[1], g.rollRange(s).0, g.rollRange(s).1);
        var rest := ServerRun(g, g.next(s, hit, roll), words[2..]);
        ReplayAgrees(g, g.next(s, hit, roll), words[2..], extra);
        LandedAgrees(g, s, hit, roll, rest.drawn, extra, rest.final);
      }
    }
  }

  /** What a replay has used and what it has left are the recording. */
  lemma {:induction false} ReplayConserves<S(!new)>(g: Game<S>, s: S, values: seq<int>)
    requires ClientRun(g, s, values).Finished?
    ensures ClientRun(g, s, values).drawn + ClientRun(g, s, values).unread == values
    decreases |values|
  {
    if !g.over(s) {
      var n := if g.misses(s, values[0]) then 1 else 2;
      var t := g.next(s, values[0], if n == 1 then 0 else values[1]);
      ReplayConserves(g, t, values[n..]);
      AfterConserves(ClientRun(g, t, values[n..]), values, n);
      assert ClientRun(g, s, values) == ClientRun(g, t, values[n..]).After(values[..n]);
    }
  }

  lemma AfterConserves<S>(rest: Outcome<S, int>, values: seq<int>, n: nat)
    requires rest.Finished? && n <= |values| && rest.drawn + rest.unread == values[n..]
    ensures rest.After(values[..n]).drawn + rest.unread == values
  {
    assert values[..n] + rest.drawn + rest.unread == values[..n] + (rest.drawn + rest.unread);
  }

  /** A recording cut short by even one value is never mistaken for a whole one. */
  lemma {:induction false} TruncatedReplayFails<S(!new)>(g: Game<S>, s: S, values: seq<int>, k: nat)
    requires ClientRun(g, s, values).Finished? && k < |ClientRun(g, s, values).drawn| && k <= |values|
    ensures ClientRun(g, s, values[..k]).CutOff?
    decreases |values|
  {
    if g.misses(s, values[0]) {
      if k > 0 {
        TruncatedReplayFails(g, g.next(s, values[0], 0), values[1..], k - 1);
        assert values[..k][1..] == values[1..][..k - 1];
      }
    } else if k > 1 {
      TruncatedReplayFails(g, g.next(s, values[0], values[1]), values[2..], k - 2);
      assert values[..k][2..] == values[2..][..k - 2];
    }
  }

  /** The states of a play, with the draws between them. */
  ghost predicate Play<S(!new)>(g: Game<S>, states: seq<S>, draws: seq<(int, int)>) {
    && |states| == |draws| + 1
    && (forall k :: 0 <= k < |draws| ==> PlayedAt(g, states, draws, k))
  }

  ghost predicate PlayedAt<S(!new)>(g: Game<S>, states: seq<S>, draws: seq<(int, int)>, k: nat)
    requires |states| == |draws| + 1 && k < |draws|
  {
    !g.over(states[k]) && states[k + 1] == g.next(states[k], draws[k].0, draws[k].1)
  }

  /** A finished call is a play from its start to its end, of at least one and at most two draws a round. */
  lemma {:induction false} ClientRunIsPlay<S(!new)>(g: Game<S>, s: S, values: seq<int>)
    returns (states: seq<S>, draws: seq<(int, int)>)
    requires ClientRun(g, s, values).Finished?
    ensures Play(g, states, draws) && states[0] == s && states[|draws|] == ClientRun(g, s, values).final
    ensures g.over(states[|draws|])
    ensures |draws| <= |ClientRun(g, s, values).drawn| <= 2 * |draws|
    decreases |values|
  {
    if g.over(s) {
      states, draws := [s], [];
    } else {
      var draw := (values[0], if g.misses(s, values[0]) then 0 else values[1]);
      var xs, ds := ClientRunIsPlay(g, g.next(s, draw.0, draw.1),
                                    if g.misses(s, values[0]) then values[1..] else values[2..]);
      states, draws := [s] + xs, [draw] + ds;
      forall k | 0 <= k < |draws|
        ensures PlayedAt(g, states, draws, k)
      {
        if k > 0 {
          assert PlayedAt(g, xs, ds, k - 1);
        }
      }
    }
  }

  // ---------- Ending, and not ----------

  /** `hit` and `roll` can be drawn in a round from `s`. */
  predicate Drawable<S(!new)>(g: Game<S>, s: S, hit: int, roll: int) {
    && 0 <= hit <= 99
    && (g.misses(s, hit) || g.rollRange(s).0 <= roll <= g.rollRange(s).1)
  }

  /** A rank that every round lowers bounds the draws that a call needs. */
  ghost predicate Ranked<S(!new)>(g: Game<S>, inv: S -> bool, rank: S -> int) {
    forall s, hit, roll :: inv(s) && !g.over(s) && Drawable(g, s, hit, roll) ==> Lowers(g, inv, rank, s, hit, roll)
  }

  ghost predicate Lowers<S(!new)>(g: Game<S>, inv: S -> bool, rank: S -> int, s: S, hit: int, roll: int) {
    inv(g.next(s, hit, roll)) && 0 <= rank(g.next(s, hit, roll)) < rank(s)
  }

  lemma {:induction false} RankedRunEnds<S(!new)>(g: Game<S>, inv: S -> bool, rank: S -> int, s: S, words: seq<nat>)
    requires g.Sound() && Ranked(g, inv, rank) && inv(s) && |words| >= 2 * rank(s)
    ensures ServerRun(g, s, words).Finished?
    decreases |words|
  {
    if !g.over(s) {
      var roll := g.rollRange(s).0;
      assert Drawable(g, s, 0, roll) && Lowers(g, inv, rank, s, 0, roll);
      var hit := InRange(words[0], 0, 99);
      if g.misses(s, hit) {
        assert Drawable(g, s, hit, 0) && Lowers(g, inv, rank, s, hit, 0);
        RankedRunEnds(g, inv, rank, g.next(s, hit, 0), words[1..]);
      } else {
        roll := InRange(words[1], g.rollRange(s).0, g.rollRange(s).1);
        assert Drawable(g, s, hit, roll) && Lowers(g, inv, rank, s, hit, roll);
        RankedRunEnds(g, inv, rank, g.next(s, hit, roll), words[2..]);
      }
    }
  }

  /** A draw that always keeps the game from being over, whatever is rolled with it. */
  ghost predicate Stalls<S(!new)>(g: Game<S>, inv: S -> bool, draw: nat) {
    forall s, roll :: inv(s) ==> StallsAt(g, inv, draw, s, roll)
  }

  ghost predicate StallsAt<S(!new)>(g: Game<S>, inv: S -> bool, draw: nat, s: S, roll: int) {
    !g.over(s) && inv(g.next(s, draw, roll))
  }

  lemma {:induction false} StalledServer<S(!new)>(g: Game<S>, inv: S -> bool, draw: nat, s: S, words: seq<nat>)
    requires g.Sound() && Stalls(g, inv, draw) && inv(s) && draw <= 99
    requires forall i :: 0 <= i < |words| ==> words[i] == draw
    ensures ServerRun(g, s, words).CutOff?
    decreases |words|
  {
    assert StallsAt(g, inv, draw, s, 0);
    if words != [] {
      assert words[0] == draw;
      InRangeIsOnto(draw, 0, 99);
      if g.misses(s, draw) {
        StalledServer(g, inv, draw, g.next(s, draw, 0), words[1..]);
      } else if |words| > 1 {
        var roll := InRange(words[1], g.rollRange(s).0, g.rollRange(s).1);
        assert StallsAt(g, inv, draw, s, roll);
        StalledServer(g, inv, draw, g.next(s, draw, roll), words[2..]);
      }
    }
  }

  lemma {:induction false} StalledClient<S(!new)>(g: Game<S>, inv: S -> bool, draw: nat, s: S, values: seq<int>)
    requires Stalls(g, inv, draw) && inv(s)
    requires forall i :: 0 <= i < |values| ==> values[i] == draw
    ensures ClientRun(g, s, values).CutOff?
    decreases |values|
  {
    assert StallsAt(g, inv, draw, s, 0) && StallsAt(g, inv, draw, s, draw);
    if values != [] {
      assert values[0] == draw;
      if g.misses(s, draw) {
        StalledClient(g, inv, draw, g.next(s, draw, 0), values[1..]);
      } else if |values| > 1 {
        assert values[1] == draw;
        StalledClient(g, inv, draw, g.next(s, draw, draw), values[2..]);
      }
    }
  }
}
