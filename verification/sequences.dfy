/** Facts about the runs of counter values the allocators hand out. */
module Sequences {

  /** How many entries of `s` satisfy `p`. */
  function Count<T>(s: seq<T>, p: T -> bool): (n: nat)
    ensures n <= |s|
  {
    if |s| == 0 then 0 else (if p(s[0]) then 1 else 0) + Count(s[1..], p)
  }

  /** `s` is first, first + 1, first + 2, ... in order. */
  predicate Consecutive(s: seq<nat>, first: nat) {
    forall i :: 0 <= i < |s| ==> s[i] == first + i
  }

  /** The values of a sequence, as a set. */
  function Elements(s: seq<nat>): set<nat> {
    set i | 0 <= i < |s| :: s[i]
  }

  /** A consecutive run is strictly increasing (so pairwise distinct) and
      holds exactly the integers from `first` to `first + |s| - 1`. */
  lemma ConsecutiveRun(s: seq<nat>, first: nat)
    requires Consecutive(s, first)
    ensures forall i, j :: 0 <= i < j < |s| ==> s[i] < s[j]
    ensures forall k: nat :: k in Elements(s) <==> first <= k < first + |s|
  {
    forall k: nat | first <= k < first + |s|
      ensures k in Elements(s)
    {
      assert s[k - first] == k;
    }
  }
}
