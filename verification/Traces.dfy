/** Runs that may stop early: what happened is a prefix of what was planned. */
module Traces {

  function Last<T>(s: seq<T>): T
    requires s != []
  {
    s[|s| - 1]
  }

  /** The plan `p` continued, from its last state, by the plan `q`. */
  function Then<T>(p: seq<T>, q: seq<T>): (r: seq<T>)
    requires p != [] && q != []
    ensures |r| == |p| + |q| - 1 && p <= r
    ensures |q| > 1 ==> Last(r) == Last(q)
    ensures forall x :: x in r ==> x in p || x in q
  {
    p + q[1..]
  }

  /** The states recorded since the last one of `before`, that one included, are a prefix of `plan`. */
  ghost predicate Ran<T>(before: seq<T>, after: seq<T>, plan: seq<T>) {
    && before != []
    && before <= after
    && after[|before| - 1..] <= plan
  }

  lemma RanNone<T>(before: seq<T>, plan: seq<T>)
    requires before != [] && plan != [] && Last(before) == plan[0]
    ensures Ran(before, before, plan)
  {
  }

  lemma RanLast<T>(before: seq<T>, after: seq<T>, plan: seq<T>)
    requires Ran(before, after, plan)
    ensures 0 < |before| <= |after| < |before| + |plan|
    ensures Last(after) == plan[|after| - |before|]
    ensures forall i :: |before| <= i < |after| ==> after[i] == plan[i - |before| + 1]
  {
    forall i | |before| - 1 <= i < |after|
      ensures after[i] == plan[i - |before| + 1]
    {
      assert after[|before| - 1..][i - (|before| - 1)] == plan[i - |before| + 1];
    }
  }

  lemma RanFirst<T>(before: seq<T>, after: seq<T>, plan: seq<T>)
    requires Ran(before, after, plan)
    ensures after[|before| - 1] == plan[0]
  {
    assert after[|before| - 1..][0] == plan[0];
  }

  /** One more step, if it is the next one planned, continues the run. */
  lemma RanPush<T>(before: seq<T>, log: seq<T>, next: T, plan: seq<T>)
    requires Ran(before, log, plan) && |log| - |before| + 1 < |plan|
    requires next == plan[|log| - |before| + 1]
    ensures Ran(before, log + [next], plan)
  {
    var since := log[|before| - 1..];
    assert (log + [next])[|before| - 1..] == since + [next];
    assert since == plan[..|since|];
    assert plan[..|since| + 1] == since + [next];
  }

  /** A run of a plan is a run of every longer plan. */
  lemma RanMore<T>(before: seq<T>, after: seq<T>, plan: seq<T>, longer: seq<T>)
    requires Ran(before, after, plan) && plan <= longer
    ensures Ran(before, after, longer)
  {
    var since := after[|before| - 1..];
    assert since == plan[..|since|] == longer[..|since|];
  }

  /** A complete run of one plan, followed by a run of another from there. */
  lemma RanThen<T>(before: seq<T>, mid: seq<T>, after: seq<T>, plan: seq<T>, rest: seq<T>)
    requires Ran(before, mid, plan) && |mid| - |before| == |plan| - 1
    requires Ran(mid, after, rest)
    ensures Ran(before, after, Then(plan, rest))
  {
    var first, second := mid[|before| - 1..], after[|mid| - 1..];
    assert first == plan;
    assert mid == after[..|mid|];
    assert after[|before| - 1..] == first + second[1..];
    assert second == rest[..|second|];
    assert Then(plan, rest)[..|plan| + |second| - 1] == plan + rest[1..|second|];
  }
}
