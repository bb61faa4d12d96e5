/** `Array.prototype.filter` and what the screens rely on about it. */
module Lists {

  /** The elements satisfying `p`, in their original order. */
  function Filter<T>(s: seq<T>, p: T -> bool): (r: seq<T>)
    ensures |r| <= |s|
    ensures forall i :: 0 <= i < |r| ==> r[i] in s && p(r[i])
    ensures forall i :: 0 <= i < |s| && p(s[i]) ==> s[i] in r
  {
    if |s| == 0 then []
    else
      var rest := Filter(s[1..], p);
      var r := (if p(s[0]) then [s[0]] else []) + rest;
      assert forall i :: 1 <= i < |s| ==> s[i] == s[1..][i - 1];
      assert forall i :: 0 <= i < |r| ==> r[i] == s[0] || r[i] in rest;
      r
  }

  /** Filtering a concatenation filters each half in turn. */
  lemma {:induction false} FilterAppend<T>(a: seq<T>, b: seq<T>, p: T -> bool)
    ensures Filter(a + b, p) == Filter(a, p) + Filter(b, p)
    decreases |a|
  {
    if |a| > 0 {
      assert (a + b)[0] == a[0];
      assert (a + b)[1..] == a[1..] + b;
      FilterAppend(a[1..], b, p);
    } else {
      assert a + b == b;
    }
  }

  /** A predicate every element satisfies keeps the whole sequence. */
  lemma {:induction false} FilterKeepsAll<T>(s: seq<T>, p: T -> bool)
    requires forall i :: 0 <= i < |s| ==> p(s[i])
    ensures Filter(s, p) == s
    decreases |s|
  {
    if |s| > 0 {
      FilterKeepsAll(s[1..], p);
    }
  }

  /** Predicates that agree on every element filter alike. */
  lemma {:induction false} FilterCongruent<T>(s: seq<T>, p: T -> bool, q: T -> bool)
    requires forall i :: 0 <= i < |s| ==> p(s[i]) == q(s[i])
    ensures Filter(s, p) == Filter(s, q)
    decreases |s|
  {
    if |s| > 0 {
      FilterCongruent(s[1..], p, q);
    }
  }

  /** `r` is the subsequence of `s` at the increasing positions `idx`,
      which are exactly the positions whose element satisfies `p`. */
  ghost predicate PositionsOf<T>(s: seq<T>, p: T -> bool, r: seq<T>, idx: seq<nat>) {
    && |idx| == |r|
    && (forall k :: 0 <= k < |idx| ==> idx[k] < |s| && r[k] == s[idx[k]])
    && (forall k, l :: 0 <= k < l < |idx| ==> idx[k] < idx[l])
    && (forall i :: 0 <= i < |s| ==> (p(s[i]) <==> i in idx))
  }

  function Shift(idx: seq<nat>): (r: seq<nat>)
    ensures |r| == |idx|
    ensures forall k :: 0 <= k < |idx| ==> r[k] == idx[k] + 1
  {
    seq(|idx|, k requires 0 <= k < |idx| => idx[k] + 1)
  }

  function Cons(s0: bool, tail: seq<nat>): seq<nat> {
    (if s0 then [0] else []) + Shift(tail)
  }

  /** The positions in `s` follow from those in its tail. */
  lemma PositionsStep<T>(s: seq<T>, p: T -> bool, tail: seq<nat>)
    requires |s| > 0
    requires PositionsOf(s[1..], p, Filter(s[1..], p), tail)
    ensures PositionsOf(s, p, Filter(s, p), Cons(p(s[0]), tail))
  {
    StepPicks(s, p, tail);
    StepIncreasing(s, p, tail);
    StepComplete(s, p, tail);
  }

  lemma StepPicks<T>(s: seq<T>, p: T -> bool, tail: seq<nat>)
    requires |s| > 0
    requires |tail| == |Filter(s[1..], p)|
    requires forall k :: 0 <= k < |tail| ==> tail[k] < |s[1..]| && Filter(s[1..], p)[k] == s[1..][tail[k]]
    ensures var idx := Cons(p(s[0]), tail);
      && |idx| == |Filter(s, p)|
      && forall k :: 0 <= k < |idx| ==> idx[k] < |s| && Filter(s, p)[k] == s[idx[k]]
  {
    var rt := Filter(s[1..], p);
    assert Filter(s, p) == (if p(s[0]) then [s[0]] else []) + rt;
    ShiftPicks(s, rt, tail);
    if p(s[0]) {
      PrependPick(s, rt, Shift(tail));
    }
  }

  /** The tail's positions, shifted by one, pick the same elements from
      the whole sequence. */
  lemma ShiftPicks<T>(s: seq<T>, rt: seq<T>, tail: seq<nat>)
    requires |s| > 0 && |tail| == |rt|
    requires forall k :: 0 <= k < |tail| ==> tail[k] < |s[1..]| && rt[k] == s[1..][tail[k]]
    ensures forall k :: 0 <= k < |tail| ==> Shift(tail)[k] < |s| && rt[k] == s[Shift(tail)[k]]
  {
  }

  /** Picking the head first, then the shifted positions. */
  lemma PrependPick<T>(s: seq<T>, rt: seq<T>, sh: seq<nat>)
    requires |s| > 0 && |sh| == |rt|
    requires forall k :: 0 <= k < |sh| ==> sh[k] < |s| && rt[k] == s[sh[k]]
    ensures var idx := [0] + sh;
      var r := [s[0]] + rt;
      forall k :: 0 <= k < |idx| ==> idx[k] < |s| && r[k] == s[idx[k]]
  {
    var idx := [0] + sh;
    var r := [s[0]] + rt;
    forall k | 0 <= k < |idx|
      ensures idx[k] < |s| && r[k] == s[idx[k]]
    {
      if k > 0 {
        assert idx[k] == sh[k - 1] && r[k] == rt[k - 1];
      }
    }
  }

  lemma StepIncreasing<T>(s: seq<T>, p: T -> bool, tail: seq<nat>)
    requires |s| > 0
    requires forall k, l :: 0 <= k < l < |tail| ==> tail[k] < tail[l]
    ensures var idx := Cons(p(s[0]), tail);
      forall k, l :: 0 <= k < l < |idx| ==> idx[k] < idx[l]
  {
    var idx := Cons(p(s[0]), tail);
    var h := if p(s[0]) then 1 else 0;
    forall k, l | 0 <= k < l < |idx|
      ensures idx[k] < idx[l]
    {
      assert idx[l] == tail[l - h] + 1;
      if k >= h {
        assert idx[k] == tail[k - h] + 1;
      }
    }
  }

  lemma StepComplete<T>(s: seq<T>, p: T -> bool, tail: seq<nat>)
    requires |s| > 0
    requires forall i :: 0 <= i < |s[1..]| ==> (p(s[1..][i]) <==> i in tail)
    ensures var idx := Cons(p(s[0]), tail);
      forall i :: 0 <= i < |s| ==> (p(s[i]) <==> i in idx)
  {
    var sh := Shift(tail);
    var idx := Cons(p(s[0]), tail);
    var h := if p(s[0]) then 1 else 0;
    forall i | 0 <= i < |s|
      ensures p(s[i]) <==> i in idx
    {
      if i == 0 {
        assert 0 !in sh;
      } else {
        assert s[i] == s[1..][i - 1];
        if i - 1 in tail {
          var k :| 0 <= k < |tail| && tail[k] == i - 1;
          assert idx[k + h] == sh[k] == i;
        }
        if i in idx {
          var k :| 0 <= k < |idx| && idx[k] == i;
          assert sh[k - h] == i;
        }
      }
    }
  }

  /** The result of `Filter` is the subsequence of `s` at the positions
      whose element satisfies `p`, in increasing order. */
  lemma {:induction false} FilterPositions<T>(s: seq<T>, p: T -> bool) returns (idx: seq<nat>)
    ensures PositionsOf(s, p, Filter(s, p), idx)
    decreases |s|
  {
    if |s| == 0 {
      idx := [];
    } else {
      var tail := FilterPositions(s[1..], p);
      PositionsStep(s, p, tail);
      idx := Cons(p(s[0]), tail);
    }
  }
}
