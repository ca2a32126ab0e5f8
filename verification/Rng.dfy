/** The recording generator of the server and the replaying generator of the client. */
module Rng {
  import opened Structs

  /** The in-range integer that a raw word of the engine gives. */
  function InRange(word: nat, lower: int, upper: int): (r: int)
    requires lower <= upper
    ensures lower <= r <= upper
  {
    lower + word % (upper - lower + 1)
  }

  /** Every value of a range is given by some word, so nothing about the distribution is assumed. */
  lemma InRangeIsOnto(r: int, lower: int, upper: int)
    requires lower <= r <= upper
    ensures InRange(r - lower, lower, upper) == r
  {
  }

  class RngServer {
    /** The words the random engine will yield. They are unknown but finitely many: a call of `go` that
        returns has consumed finitely many, and one that outlives them is reported as unfinished. */
    var source: seq<nat>
    var generated: seq<int>

    constructor (source: seq<nat>)
      ensures this.source == source && generated == []
    {
      this.source, generated := source, [];
    }

    method Draw(lower: int, upper: int) returns (r: Option<int>)
      requires lower <= upper
      modifies this
      ensures r.None? <==> old(source) == []
      ensures r.None? ==> source == [] && generated == old(generated)
      ensures r.Some? ==> r.value == InRange(old(source)[0], lower, upper)
                          && source == old(source)[1..] && generated == old(generated) + [r.value]
    {
      if source == [] {
        return None;
      }
      var result := InRange(source[0], lower, upper);
      source := source[1..];
      generated := generated + [result];
      return Some(result);
    }
  }

  class RngClient {
    const precomputed: seq<int>
    var internalIdx: nat

    ghost predicate Valid() reads this { internalIdx <= |precomputed| }

    ghost function Unread(): seq<int>
      reads this
      requires Valid()
    {
      precomputed[internalIdx..]
    }

    constructor (precomputed: seq<int>)
      ensures Valid() && this.precomputed == precomputed && Unread() == precomputed
    {
      this.precomputed, internalIdx := precomputed, 0;
    }

    /** The range is ignored. `None` is the failing assertion on reading past the end. */
    method Draw(lower: int, upper: int) returns (r: Option<int>)
      requires Valid()
      modifies this
      ensures Valid()
      ensures r.None? <==> old(Unread()) == []
      ensures r.None? ==> Unread() == []
      ensures r.Some? ==> r.value == old(Unread())[0] && Unread() == old(Unread())[1..]
    {
      if internalIdx >= |precomputed| {
        return None;
      }
      internalIdx := internalIdx + 1;
      return Some(precomputed[internalIdx - 1]);
    }
  }
}
