/** Keeping the elements of a sequence that satisfy a predicate. */
module Filters {

  function Filter<T>(p: T -> bool, s: seq<T>): seq<T> {
    if s == [] then [] else (if p(s[0]) then [s[0]] else []) + Filter(p, s[1..])
  }

  /** `kept` is what stands in `s` at the positions `at`. */
  ghost predicate StandsAt<T(!new)>(s: seq<T>, kept: seq<T>, at: seq<nat>) {
    |at| == |kept| && forall k :: 0 <= k < |at| ==> at[k] < |s| && kept[k] == s[at[k]]
  }

  ghost predicate Ascending(at: seq<nat>) {
    forall j, k :: 0 <= j < k < |at| ==> at[j] < at[k]
  }

  /** The positions are exactly those of the elements that satisfy `p`. */
  ghost predicate Exactly<T(!new)>(p: T -> bool, s: seq<T>, at: seq<nat>) {
    forall i :: 0 <= i < |s| ==> (i in at <==> p(s[i]))
  }

  function Shift(at: seq<nat>): (r: seq<nat>)
    ensures |r| == |at| && forall k :: 0 <= k < |at| ==> r[k] == at[k] + 1
  {
    seq(|at|, k requires 0 <= k < |at| => at[k] + 1)
  }

  lemma {:induction false} ShiftMember(at: seq<nat>, i: nat)
    ensures i in Shift(at) <==> i > 0 && i - 1 in at
  {
    if i > 0 && i - 1 in at {
      var k :| 0 <= k < |at| && at[k] == i - 1;
      assert Shift(at)[k] == i;
    }
  }

  function Prefixed(first: bool, at: seq<nat>): seq<nat> {
    if first then [0] + Shift(at) else Shift(at)
  }

  lemma {:induction false} PrefixedStands<T(!new)>(s: seq<T>, kept: seq<T>, at: seq<nat>, first: bool)
    requires s != [] && StandsAt(s[1..], kept, at)
    ensures StandsAt(s, if first then [s[0]] + kept else kept, Prefixed(first, at))
  {
  }

  lemma {:induction false} PrefixedAscends(at: seq<nat>, first: bool)
    requires Ascending(at)
    ensures Ascending(Prefixed(first, at))
  {
  }

  lemma {:induction false} PrefixedExact<T(!new)>(p: T -> bool, s: seq<T>, at: seq<nat>)
    requires s != [] && Exactly(p, s[1..], at)
    ensures Exactly(p, s, Prefixed(p(s[0]), at))
  {
    hide Shift;
    forall i | 0 <= i < |s| ensures i in Prefixed(p(s[0]), at) <==> p(s[i]) {
      ShiftMember(at, i);
      if i > 0 {
        assert s[1..][i - 1] == s[i];
      }
    }
  }

  /** A filter keeps exactly the elements that satisfy the predicate, in order and as often as they occur. */
  lemma {:induction false} FilterKeeps<T(!new)>(p: T -> bool, s: seq<T>) returns (at: seq<nat>)
    ensures StandsAt(s, Filter(p, s), at) && Ascending(at) && Exactly(p, s, at)
  {
    if s == [] {
      at := [];
    } else {
      var rest := FilterKeeps(p, s[1..]);
      hide StandsAt, Ascending, Exactly, Prefixed;
      at := Prefixed(p(s[0]), rest);
      PrefixedStands(s, Filter(p, s[1..]), rest, p(s[0]));
      PrefixedAscends(rest, p(s[0]));
      PrefixedExact(p, s, rest);
      assert [] + Filter(p, s[1..]) == Filter(p, s[1..]);
    }
  }
}
