/** The best-path collector: the list of completed states the search keeps
    while it runs. A completion shorter than the stored ones clears the list,
    one of equal length joins it, a longer one is ignored. */
module Collector {
  import opened Traces

  /** Every stored state has the same path length. */
  predicate Uniform(xs: seq<TraceState>) {
    forall i :: 0 <= i < |xs| ==> PathLength(xs[i]) == PathLength(xs[0])
  }

  function Min(a: nat, b: nat): nat {
    if a <= b then a else b
  }

  function Record(best: seq<TraceState>, c: TraceState): (r: seq<TraceState>)
    ensures Uniform(best) ==> Uniform(r)
    ensures (|r| > 0 && c in r) || r == best
    ensures |best| == 0 ==> r == [c]
    ensures |best| > 0 && Uniform(best) ==> PathLength(r[0]) == Min(PathLength(best[0]), PathLength(c))
  {
    if |best| == 0 || PathLength(best[0]) > PathLength(c) then [c]
    else if PathLength(best[0]) == PathLength(c) then best + [c]
    else best
  }

  /** The collector's contents after the completions 'xs' were recorded in
      order. */
  function Collect(xs: seq<TraceState>): (r: seq<TraceState>)
    ensures Uniform(r)
    ensures |r| > 0 <==> |xs| > 0
  {
    if |xs| == 0 then [] else Record(Collect(xs[..|xs| - 1]), xs[|xs| - 1])
  }

  /** The least path length among 'xs'. */
  function MinLength(xs: seq<TraceState>): (r: nat)
    requires |xs| > 0
    ensures forall i :: 0 <= i < |xs| ==> r <= PathLength(xs[i])
    ensures exists i :: 0 <= i < |xs| && PathLength(xs[i]) == r
  {
    if |xs| == 1 then PathLength(xs[0])
    else
      var m := MinLength(xs[..|xs| - 1]);
      assert forall i :: 0 <= i < |xs| - 1 ==> xs[..|xs| - 1][i] == xs[i];
      Min(m, PathLength(xs[|xs| - 1]))
  }

  /** The members of 'xs' whose path length is 'len', in their order. */
  function WithLength(xs: seq<TraceState>, len: nat): (r: seq<TraceState>)
    ensures forall i :: 0 <= i < |r| ==> PathLength(r[i]) == len && r[i] in xs
    ensures |r| > 0 <==> exists i :: 0 <= i < |xs| && PathLength(xs[i]) == len
  {
    if |xs| == 0 then []
    else
      var init := xs[..|xs| - 1];
      assert forall i :: 0 <= i < |xs| - 1 ==> init[i] == xs[i];
      var last := xs[|xs| - 1];
      WithLength(init, len) + (if PathLength(last) == len then [last] else [])
  }

  /** Reference definition: every member of 'xs' of least path length, in
      their order. */
  function Shortest(xs: seq<TraceState>): seq<TraceState> {
    if |xs| == 0 then [] else WithLength(xs, MinLength(xs))
  }

  /** With a member of length 'len' and none shorter, the shortest members
      are exactly those of length 'len'. */
  lemma {:induction false} ShortestHasLength(xs: seq<TraceState>, j: nat, len: nat)
    requires j < |xs| && PathLength(xs[j]) == len
    requires forall i :: 0 <= i < |xs| ==> len <= PathLength(xs[i])
    ensures |Shortest(xs)| > 0
    ensures forall k :: 0 <= k < |Shortest(xs)| ==> PathLength(Shortest(xs)[k]) == len
  {
    var m := MinLength(xs);
    assert m == len;
  }

  lemma {:induction false} WithLengthNone(xs: seq<TraceState>, len: nat)
    requires forall i :: 0 <= i < |xs| ==> PathLength(xs[i]) > len
    ensures WithLength(xs, len) == []
  {
  }

  /** Recording completions one by one leaves exactly the shortest of them,
      in the order they arrived. */
  lemma {:induction false} CollectIsShortest(xs: seq<TraceState>)
    ensures Collect(xs) == Shortest(xs)
  {
    if |xs| > 0 {
      var init, c := xs[..|xs| - 1], xs[|xs| - 1];
      if |init| == 0 {
        assert xs == [c];
      } else {
        CollectIsShortest(init);
        var m := MinLength(init);
        var best := Collect(init);
        assert best == WithLength(init, m);
        assert |best| > 0;
        assert PathLength(best[0]) == m;
        if PathLength(c) < m {
          WithLengthNone(init, PathLength(c));
          assert MinLength(xs) == PathLength(c);
        } else {
          assert MinLength(xs) == m;
        }
      }
    }
  }

  lemma {:induction false} WithLengthCount(xs: seq<TraceState>, len: nat, t: TraceState)
    ensures multiset(WithLength(xs, len))[t] == if PathLength(t) == len then multiset(xs)[t] else 0
  {
    if |xs| > 0 {
      var init, last := xs[..|xs| - 1], xs[|xs| - 1];
      assert xs == init + [last];
      WithLengthCount(init, len, t);
    }
  }

  lemma {:induction false} MinLengthOfPermutation(xs: seq<TraceState>, ys: seq<TraceState>)
    requires |xs| > 0 && multiset(xs) == multiset(ys)
    ensures |ys| > 0 && MinLength(xs) == MinLength(ys)
  {
    assert |xs| == |multiset(xs)| == |ys|;
    var i :| 0 <= i < |xs| && PathLength(xs[i]) == MinLength(xs);
    var j :| 0 <= j < |ys| && PathLength(ys[j]) == MinLength(ys);
    assert xs[i] in multiset(ys);
    assert ys[j] in multiset(xs);
  }

  /** The shortest completions, as a collection, do not depend on the order
      in which the completions were found. */
  lemma {:induction false} ShortestOfPermutation(xs: seq<TraceState>, ys: seq<TraceState>)
    requires multiset(xs) == multiset(ys)
    ensures multiset(Shortest(xs)) == multiset(Shortest(ys))
  {
    if |xs| > 0 {
      MinLengthOfPermutation(xs, ys);
      var m := MinLength(xs);
      forall t ensures multiset(WithLength(xs, m))[t] == multiset(WithLength(ys, m))[t] {
        WithLengthCount(xs, m, t);
        WithLengthCount(ys, m, t);
      }
    } else {
      assert |ys| == |multiset(ys)| == 0;
    }
  }

  /** Two uniform collections with the same members report the same length. */
  lemma {:induction false} SameLengthFirst(xs: seq<TraceState>, ys: seq<TraceState>)
    requires multiset(xs) == multiset(ys) && Uniform(ys)
    ensures |xs| > 0 <==> |ys| > 0
    ensures |xs| > 0 ==> PathLength(xs[0]) == PathLength(ys[0])
  {
    assert |xs| == |multiset(xs)| == |ys|;
    if |xs| > 0 {
      assert xs[0] in multiset(ys);
      var j :| 0 <= j < |ys| && ys[j] == xs[0];
    }
  }
}
