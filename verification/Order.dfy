/** The order of the fighters: friends then enemies, numbered, sorted by speed with the number breaking ties,
    and numbered again. */
module Order {
  import opened Structs
  import opened Fighter
  import opened Rounds
  import FightLaw
  import opened FightRuns

  predicate Precedes(f: Fightable, g: Fightable) {
    Before((f.Stat(SPEED), f.idx), (g.Stat(SPEED), g.idx))
  }

  ghost predicate Sorted(fs: seq<Fightable>) {
    forall i, j :: 0 <= i < j < |fs| ==> Precedes(fs[i], fs[j])
  }

  function Insert(f: Fightable, fs: seq<Fightable>): (r: seq<Fightable>)
    ensures |r| == |fs| + 1
  {
    if fs == [] || Precedes(fs[|fs| - 1], f) then fs + [f]
    else Insert(f, fs[..|fs| - 1]) + [fs[|fs| - 1]]
  }

  /** A correct sort, standing for `std::sort`: by `SortUnique` any other gives the same array. */
  function SortByTempo(fs: seq<Fightable>): (r: seq<Fightable>)
    ensures |r| == |fs|
  {
    if fs == [] then [] else Insert(fs[|fs| - 1], SortByTempo(fs[..|fs| - 1]))
  }

  function Teamed(fs: seq<Fightable>, team: int): seq<Fightable> {
    seq(|fs|, i requires 0 <= i < |fs| => fs[i].(team := team))
  }

  function Numbered(fs: seq<Fightable>): seq<Fightable> {
    seq(|fs|, i requires 0 <= i < |fs| => fs[i].(idx := i))
  }

  function Lineup(friends: seq<Fightable>, enemies: seq<Fightable>): seq<Fightable> {
    Numbered(Teamed(friends, 0) + Teamed(enemies, 1))
  }

  function Arrange(friends: seq<Fightable>, enemies: seq<Fightable>): (r: seq<Fightable>)
    ensures |r| == |friends| + |enemies|
  {
    Numbered(SortByTempo(Lineup(friends, enemies)))
  }

  // ---------- The sort is the only one ----------

  lemma {:induction false} InsertKeeps(f: Fightable, fs: seq<Fightable>)
    ensures multiset(Insert(f, fs)) == multiset(fs) + multiset{f}
  {
    if !(fs == [] || Precedes(fs[|fs| - 1], f)) {
      var n := |fs| - 1;
      assert fs == fs[..n] + [fs[n]];
      InsertKeeps(f, fs[..n]);
    }
  }

  lemma {:induction false} InsertSorts(f: Fightable, fs: seq<Fightable>)
    requires Sorted(fs) && forall i :: 0 <= i < |fs| ==> fs[i].idx != f.idx
    ensures Sorted(Insert(f, fs))
  {
    if !(fs == [] || Precedes(fs[|fs| - 1], f)) {
      var n := |fs| - 1;
      InsertSorts(f, fs[..n]);
      InsertKeeps(f, fs[..n]);
      forall i | 0 <= i < |Insert(f, fs[..n])|
        ensures Precedes(Insert(f, fs[..n])[i], fs[n])
      {
        assert Insert(f, fs[..n])[i] in multiset(fs[..n]) + multiset{f};
      }
    }
  }

  ghost predicate DistinctIdx(fs: seq<Fightable>) {
    forall i, j :: 0 <= i < j < |fs| ==> fs[i].idx != fs[j].idx
  }

  lemma {:induction false} SortIsCorrect(fs: seq<Fightable>)
    requires DistinctIdx(fs)
    ensures Sorted(SortByTempo(fs)) && multiset(SortByTempo(fs)) == multiset(fs)
  {
    if fs != [] {
      var n := |fs| - 1;
      assert fs == fs[..n] + [fs[n]];
      SortIsCorrect(fs[..n]);
      forall i | 0 <= i < |SortByTempo(fs[..n])|
        ensures SortByTempo(fs[..n])[i].idx != fs[n].idx
      {
        assert SortByTempo(fs[..n])[i] in multiset(fs[..n]);
      }
      InsertSorts(fs[n], SortByTempo(fs[..n]));
      InsertKeeps(fs[n], SortByTempo(fs[..n]));
    }
  }

  lemma LastIsGreatest(fs: seq<Fightable>, f: Fightable)
    requires Sorted(fs) && f in multiset(fs)
    ensures f == fs[|fs| - 1] || Precedes(f, fs[|fs| - 1])
  {
    var i :| 0 <= i < |fs| && fs[i] == f;
  }

  lemma SameLast(xs: seq<Fightable>, ys: seq<Fightable>)
    requires Sorted(xs) && Sorted(ys) && multiset(xs) == multiset(ys) && xs != [] && ys != []
    ensures xs[|xs| - 1] == ys[|ys| - 1]
  {
    DropLast(xs);
    DropLast(ys);
    LastIsGreatest(ys, xs[|xs| - 1]);
    LastIsGreatest(xs, ys[|ys| - 1]);
  }

  lemma SameSize(xs: seq<Fightable>, ys: seq<Fightable>)
    requires multiset(xs) == multiset(ys)
    ensures |xs| == |ys|
  {
    assert |multiset(xs)| == |multiset(ys)|;
  }

  /** Two sorted arrangements of the same fighters are equal. */
  lemma {:induction false} SortUnique(xs: seq<Fightable>, ys: seq<Fightable>)
    requires Sorted(xs) && Sorted(ys) && multiset(xs) == multiset(ys)
    ensures xs == ys
  {
    SameSize(xs, ys);
    if xs != [] {
      SameLast(xs, ys);
      var n := |xs| - 1;
      var last, lastToo := xs[n], ys[n];
      var xs', ys' := xs[..n], ys[..n];
      assert Sorted(xs') && xs == xs' + [last] && multiset(xs') == multiset(xs) - multiset{last} by {
        DropLast(xs);
      }
      assert Sorted(ys') && ys == ys' + [lastToo] && multiset(ys') == multiset(ys) - multiset{lastToo} by {
        DropLast(ys);
      }
      SortUnique(xs', ys');
    }
  }

  lemma DropLast(fs: seq<Fightable>)
    requires fs != []
    ensures fs[|fs| - 1] in multiset(fs)
    ensures multiset(fs[..|fs| - 1]) == multiset(fs) - multiset{fs[|fs| - 1]}
    ensures fs == fs[..|fs| - 1] + [fs[|fs| - 1]]
    ensures Sorted(fs) ==> Sorted(fs[..|fs| - 1])
  {
    assert fs == fs[..|fs| - 1] + [fs[|fs| - 1]];
  }

  /** Whatever correct sort the server and the client link against, both get this array. */
  lemma ArrangeDetermined(friends: seq<Fightable>, enemies: seq<Fightable>, sorted: seq<Fightable>)
    requires Sorted(sorted) && multiset(sorted) == multiset(Lineup(friends, enemies))
    ensures Numbered(sorted) == Arrange(friends, enemies)
  {
    SortIsCorrect(Lineup(friends, enemies));
    SortUnique(sorted, SortByTempo(Lineup(friends, enemies)));
  }

  // ---------- It starts a fit fight ----------

  lemma {:induction false} InsertCounts(f: Fightable, fs: seq<Fightable>, team: int)
    ensures CountLiving(Insert(f, fs), team)
            == CountLiving(fs, team) + if f.Living() && f.team == team then 1 else 0
  {
    if fs == [] || Precedes(fs[|fs| - 1], f) {
      assert (fs + [f])[..|fs|] == fs;
    } else {
      var n := |fs| - 1;
      InsertCounts(f, fs[..n], team);
      assert (Insert(f, fs[..n]) + [fs[n]])[..n + 1] == Insert(f, fs[..n]);
    }
  }

  lemma {:induction false} SortCounts(fs: seq<Fightable>, team: int)
    ensures CountLiving(SortByTempo(fs), team) == CountLiving(fs, team)
  {
    if fs != [] {
      SortCounts(fs[..|fs| - 1], team);
      InsertCounts(fs[|fs| - 1], SortByTempo(fs[..|fs| - 1]), team);
    }
  }

  lemma {:induction false} TeamCounts(fs: seq<Fightable>, n: nat, team: int)
    requires n <= |fs| && forall i :: 0 <= i < |fs| ==> fs[i].Living() && (fs[i].team == team <==> i < n)
    ensures CountLiving(fs, team) == n
  {
    if fs != [] {
      TeamCounts(fs[..|fs| - 1], if n == |fs| then n - 1 else n, team);
    }
  }

  lemma {:induction false} RestCounts(fs: seq<Fightable>, n: nat, team: int)
    requires n <= |fs| && forall i :: 0 <= i < |fs| ==> fs[i].Living() && (fs[i].team == team <==> n <= i)
    ensures CountLiving(fs, team) == |fs| - n
  {
    if fs != [] {
      if n == |fs| {
        RestCounts(fs[..|fs| - 1], n - 1, team);
      } else {
        RestCounts(fs[..|fs| - 1], n, team);
      }
    }
  }

  /** A fighter as `setup_self` should leave it for `go`; the engine does not check any of this. */
  ghost predicate Enters(f: Fightable) {
    && FitFighter(f.(team := 0))
    && f.Living()
    && f.progress == 0
  }

  ghost predicate CanFight(friends: seq<Fightable>, enemies: seq<Fightable>) {
    && (forall i :: 0 <= i < |friends| ==> Enters(friends[i]))
    && (forall i :: 0 <= i < |enemies| ==> Enters(enemies[i]))
    && (forall i, j :: 0 <= i < |friends| && 0 <= j < |enemies| ==>
          friends[i].Stat(ACCURACY) + enemies[j].Stat(ACCURACY) != 0)
  }

  function Start(friends: seq<Fightable>, enemies: seq<Fightable>): State {
    State(Arrange(friends, enemies), 0, [|friends|, |enemies|])
  }

  /** Every arranged fighter is one of the line-up, renumbered. */
  lemma ArrangedFrom(friends: seq<Fightable>, enemies: seq<Fightable>, i: nat) returns (k: nat)
    requires i < |friends| + |enemies|
    ensures k < |friends| + |enemies|
    ensures Arrange(friends, enemies)[i] == Lineup(friends, enemies)[k].(idx := i)
  {
    var line := Lineup(friends, enemies);
    SortIsCorrect(line);
    var f := SortByTempo(line)[i];
    assert f in multiset(SortByTempo(line));
    assert f in multiset(line);
    k :| 0 <= k < |line| && line[k] == f;
  }

  lemma LineupEnters(friends: seq<Fightable>, enemies: seq<Fightable>, k: nat)
    requires CanFight(friends, enemies) && k < |friends| + |enemies|
    ensures var f := Lineup(friends, enemies)[k];
      FitFighter(f) && f.Living() && f.progress == 0 && f.team == if k < |friends| then 0 else 1
  {
    assert Enters(if k < |friends| then friends[k] else enemies[k - |friends|]);
  }

  /** Fighters fit to enter start a fit fight: the counters `go` takes from the vector sizes are right. */
  lemma StartIsFresh(friends: seq<Fightable>, enemies: seq<Fightable>)
    requires CanFight(friends, enemies)
    ensures Fresh(Start(friends, enemies))
  {
    var all, line, n := Arrange(friends, enemies), Lineup(friends, enemies), |friends|;
    forall i | 0 <= i < |all|
      ensures FitFighter(all[i]) && all[i].idx == i && all[i].progress == 0
    {
      var k := ArrangedFrom(friends, enemies, i);
      LineupEnters(friends, enemies, k);
    }
    forall i, j | 0 <= i < |all| && 0 <= j < |all| && Opposed(all[i], all[j])
      ensures all[i].Stat(ACCURACY) + all[j].Stat(ACCURACY) != 0
    {
      OpposedAccuracies(friends, enemies, i, j);
    }
    StartCounts(friends, enemies);
  }

  lemma OpposedAccuracies(friends: seq<Fightable>, enemies: seq<Fightable>, i: nat, j: nat)
    requires CanFight(friends, enemies)
    requires i < |friends| + |enemies| && j < |friends| + |enemies|
    requires Opposed(Arrange(friends, enemies)[i], Arrange(friends, enemies)[j])
    ensures Arrange(friends, enemies)[i].Stat(ACCURACY) + Arrange(friends, enemies)[j].Stat(ACCURACY) != 0
  {
    var k := ArrangedFrom(friends, enemies, i);
    var l := ArrangedFrom(friends, enemies, j);
    LineupEnters(friends, enemies, k);
    LineupEnters(friends, enemies, l);
    var n, a, b := |friends|, if k < l then k else l, if k < l then l else k;
    assert a < n <= b;
    assert friends[a].Stat(ACCURACY) + enemies[b - n].Stat(ACCURACY) != 0;
  }

  lemma StartCounts(friends: seq<Fightable>, enemies: seq<Fightable>)
    requires CanFight(friends, enemies)
    ensures CountLiving(Arrange(friends, enemies), 0) == |friends|
    ensures CountLiving(Arrange(friends, enemies), 1) == |enemies|
  {
    var line := Lineup(friends, enemies);
    forall k | 0 <= k < |line|
      ensures line[k].Living() && line[k].team == if k < |friends| then 0 else 1
    {
      LineupEnters(friends, enemies, k);
    }
    TeamCounts(line, |friends|, 0);
    RestCounts(line, |friends|, 1);
    SortCounts(line, 0);
    SortCounts(line, 1);
    NumberingCounts(SortByTempo(line), 0);
    NumberingCounts(SortByTempo(line), 1);
  }

  lemma NumberingCounts(fs: seq<Fightable>, team: int)
    ensures CountLiving(Numbered(fs), team) == CountLiving(fs, team)
  {
    FightLaw.CountLivingSame(Numbered(fs), fs, team);
  }

  // ---------- The array, written out ----------

  lemma SortedFromLineup(friends: seq<Fightable>, enemies: seq<Fightable>, i: nat)
    requires i < |friends| + |enemies|
    ensures var line := Lineup(friends, enemies); var f := SortByTempo(line)[i];
      f.idx < |line| && line[f.idx] == f
  {
    var line := Lineup(friends, enemies);
    SortIsCorrect(line);
    assert SortByTempo(line)[i] in multiset(SortByTempo(line));
    var k :| 0 <= k < |line| && line[k] == SortByTempo(line)[i];
  }

  /** Where each fighter of the array came from, counting friends before enemies: everyone once, the slower first, and
      of equally fast ones the one that was given first. */
  lemma ArrangedBySpeed(friends: seq<Fightable>, enemies: seq<Fightable>) returns (from: seq<nat>)
    ensures var all, n := Arrange(friends, enemies), |friends|;
      && |from| == |all| == n + |enemies|
      && (forall i :: 0 <= i < |all| ==>
            from[i] < |all| && all[i] == (if from[i] < n then friends[from[i]].(team := 0)
                                          else enemies[from[i] - n].(team := 1)).(idx := i))
      && (forall i, j :: 0 <= i < j < |all| ==>
            from[i] != from[j]
            && (all[i].Stat(SPEED) < all[j].Stat(SPEED)
                || (all[i].Stat(SPEED) == all[j].Stat(SPEED) && from[i] < from[j])))
  {
    var line, n := Lineup(friends, enemies), |friends| + |enemies|;
    var sorted := SortByTempo(line);
    from := seq(n, i requires 0 <= i < n => sorted[i].idx);
    SortIsCorrect(line);
    forall i | 0 <= i < n
      ensures from[i] < n && line[from[i]] == sorted[i]
    {
      SortedFromLineup(friends, enemies, i);
    }
    forall i, j | 0 <= i < j < n
      ensures sorted[i].Stat(SPEED) < sorted[j].Stat(SPEED)
              || (sorted[i].Stat(SPEED) == sorted[j].Stat(SPEED) && from[i] < from[j])
    {
      assert Precedes(sorted[i], sorted[j]);
    }
    forall i, j | 0 <= i < j < n
      ensures from[i] != from[j]
    {
      assert Precedes(sorted[i], sorted[j]);
      assert line[from[i]] == sorted[i] && line[from[j]] == sorted[j];
    }
  }

  // ---------- Number and team on entry do not matter ----------

  /** The same fighter, whatever its number and team are before the constructor sets them. */
  predicate SameEntrant(f: Fightable, g: Fightable) { f.(idx := g.idx, team := g.team) == g }

  lemma SameEntrantsSameStart(f: Fightable, g: Fightable, enemies: seq<Fightable>)
    requires SameEntrant(f, g)
    ensures CanFight([f], enemies) <==> CanFight([g], enemies)
    ensures Start([f], enemies) == Start([g], enemies)
  {
    assert Teamed([f], 0)[0].(idx := 0) == Teamed([g], 0)[0].(idx := 0);
    assert Lineup([f], enemies) == Lineup([g], enemies);
    assert Enters(f) == Enters(g);
    assert forall key :: 0 <= key < STAT_KEYS ==> f.Stat(key) == g.Stat(key);
    if CanFight([f], enemies) {
      assert Enters([f][0]);
      EntersFirst(f, g, enemies);
    }
    if CanFight([g], enemies) {
      assert Enters([g][0]);
      EntersFirst(g, f, enemies);
    }
  }

  lemma EntersFirst(f: Fightable, g: Fightable, enemies: seq<Fightable>)
    requires CanFight([f], enemies) && Enters(g) && f.Stat(ACCURACY) == g.Stat(ACCURACY)
    ensures CanFight([g], enemies)
  {
    forall j | 0 <= j < |enemies|
      ensures g.Stat(ACCURACY) + enemies[j].Stat(ACCURACY) != 0
    {
      assert [f][0].Stat(ACCURACY) + enemies[j].Stat(ACCURACY) != 0;
    }
  }
}
