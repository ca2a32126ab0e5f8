/** The two vector helpers: first match, and erase-remove. */
module Util {
  import opened Structs

  /** The position of the first element that meets the condition. */
  function FirstWhere<T>(v: seq<T>, cond: T -> bool): (r: Option<nat>)
    ensures r.Some? ==> r.value < |v| && cond(v[r.value]) && forall i :: 0 <= i < r.value ==> !cond(v[i])
    ensures r.None? ==> forall i :: 0 <= i < |v| ==> !cond(v[i])
  {
    if v == [] then None
    else
      var r := FirstWhere(v[..|v| - 1], cond);
      if r.Some? then r else if cond(v[|v| - 1]) then Some(|v| - 1) else None
  }

  method FindIf<T>(v: seq<T>, cond: T -> bool) returns (r: Option<nat>)
    ensures r == FirstWhere(v, cond)
  {
    for i := 0 to |v|
      invariant forall k :: 0 <= k < i ==> !cond(v[k])
    {
      if cond(v[i]) {
        return Some(i);
      }
    }
    return None;
  }

  /** What erase-remove leaves: everything else, in order. */
  function Kept<T(!new)>(v: seq<T>, remove: T -> bool): (r: seq<T>)
    ensures forall x :: x in r <==> x in v && !remove(x)
    ensures |r| <= |v|
  {
    if v == [] then []
    else
      var r, last := Kept(v[..|v| - 1], remove), v[|v| - 1];
      assert v == v[..|v| - 1] + [last];
      if remove(last) then r else r + [last]
  }

  method VectorRemove<T(!new)>(v: seq<T>, remove: T -> bool) returns (r: seq<T>)
    ensures r == Kept(v, remove)
  {
    r := [];
    for i := 0 to |v|
      invariant r == Kept(v[..i], remove)
    {
      assert v[..i + 1][..i] == v[..i];
      if !remove(v[i]) {
        r := r + [v[i]];
      }
    }
    assert v[..|v|] == v;
  }

  lemma {:induction false} KeptAll<T(!new)>(v: seq<T>, remove: T -> bool)
    requires forall i :: 0 <= i < |v| ==> !remove(v[i])
    ensures Kept(v, remove) == v
  {
    if v != [] {
      var n := |v| - 1;
      assert v == v[..n] + [v[n]];
      KeptAll(v[..n], remove);
      assert Kept(v, remove) == Kept(v[..n], remove) + [v[n]];
    }
  }

  lemma {:induction false} KeptConcat<T(!new)>(v: seq<T>, w: seq<T>, remove: T -> bool)
    ensures Kept(v + w, remove) == Kept(v, remove) + Kept(w, remove)
  {
    if w == [] {
      assert v + w == v;
    } else {
      var earlier, last := w[..|w| - 1], w[|w| - 1];
      assert (v + w)[..|v + w| - 1] == v + earlier;
      KeptConcat(v, earlier, remove);
    }
  }

  lemma KeptAround<T(!new)>(before: seq<T>, x: T, after: seq<T>, remove: T -> bool)
    requires forall i :: 0 <= i < |before| ==> !remove(before[i])
    requires forall i :: 0 <= i < |after| ==> !remove(after[i])
    requires remove(x)
    ensures Kept(before + [x] + after, remove) == before + after
  {
    KeptAll(before, remove);
    KeptAll(after, remove);
    KeptConcat(before + [x], after, remove);
    assert (before + [x])[..|before|] == before;
  }

  /** Removing the one element at `s` shifts every later position down by one. */
  lemma KeptAllButOne<T(!new)>(v: seq<T>, remove: T -> bool, s: nat)
    requires s < |v| && forall i :: 0 <= i < |v| ==> (remove(v[i]) <==> i == s)
    ensures Kept(v, remove) == v[..s] + v[s + 1..]
  {
    assert v == v[..s] + [v[s]] + v[s + 1..];
    KeptAround(v[..s], v[s], v[s + 1..], remove);
  }
}
