/** Sequence facts shared by the pipeline stages: duplicate-freedom, the
    distinct values of a column, and order-preserving index embeddings. */
module Collections {
  import opened Records

  predicate NoDup<T(==)>(xs: seq<T>)
  {
    forall i, j :: 0 <= i < j < |xs| ==> xs[i] != xs[j]
  }

  /** The distinct values of `xs` in order of first appearance, as pandas'
      `unique()` lists them. */
  function Distinct(xs: seq<string>): (r: seq<string>)
    ensures NoDup(r)
    ensures forall x :: x in r <==> x in xs
    ensures |r| <= |xs|
  {
    if |xs| == 0 then []
    else
      var d := Distinct(xs[..|xs| - 1]);
      var last := xs[|xs| - 1];
      assert xs == xs[..|xs| - 1] + [last];
      if last in d then d else d + [last]
  }

  /** A duplicate-free sequence has as many elements as its set. */
  lemma {:induction false} NoDupCardinality<T>(xs: seq<T>)
    requires NoDup(xs)
    ensures |set x | x in xs| == |xs|
  {
    if |xs| > 0 {
      var init := xs[..|xs| - 1];
      var last := xs[|xs| - 1];
      NoDupCardinality(init);
      forall i | 0 <= i < |init|
        ensures init[i] != last
      {
        assert init[i] == xs[i];
      }
      assert xs == init + [last];
      assert (set x | x in xs) == (set x | x in init) + {last};
    }
  }

  /** The number of distinct values never exceeds the number of rows. */
  lemma DistinctCount(xs: seq<string>)
    ensures |set x | x in xs| == |Distinct(xs)| <= |xs|
  {
    var d := Distinct(xs);
    NoDupCardinality(d);
    assert (set x | x in xs) == (set x | x in d);
  }

  predicate Increasing(idx: seq<nat>)
  {
    forall i, j :: 0 <= i < j < |idx| ==> idx[i] < idx[j]
  }

  /** Every index moved one position to the right. */
  function Shift(idx: seq<nat>): (r: seq<nat>)
    ensures |r| == |idx|
    ensures forall k :: 0 <= k < |r| ==> r[k] == idx[k] + 1
  {
    seq(|idx|, k requires 0 <= k < |idx| => idx[k] + 1)
  }

  lemma ShiftIncreasing(idx: seq<nat>)
    requires Increasing(idx)
    ensures Increasing(Shift(idx))
  {
  }

  /** Position 0 in front of positions that are all past it. */
  lemma ConsIncreasing(shifted: seq<nat>)
    requires Increasing(shifted)
    requires forall k :: 0 <= k < |shifted| ==> 0 < shifted[k]
    ensures Increasing([0] + shifted)
  {
    var origin := [0] + shifted;
    forall i, j | 0 <= i < j < |origin|
      ensures origin[i] < origin[j]
    {
      assert origin[j] == shifted[j - 1];
      if i > 0 {
        assert origin[i] == shifted[i - 1];
      }
    }
  }

  /** `ys` is what a row-by-row loop over `xs` collects when each element
      `x` contributes `pick(x)`, if any, and `origin[k]` is the position of
      the element behind `ys[k]`: positions strictly increase, each names an
      element whose contribution is that output, and every element that
      contributes something is listed. */
  ghost predicate Embedding<A, B>(xs: seq<A>, ys: seq<B>, origin: seq<nat>, pick: A -> Option<B>)
  {
    && |origin| == |ys|
    && Increasing(origin)
    && (forall k :: 0 <= k < |origin| ==> origin[k] < |xs| && pick(xs[origin[k]]) == Some(ys[k]))
    && (forall i :: 0 <= i < |xs| && pick(xs[i]).Some? ==> i in origin)
  }

  /** An embedding into `xs[1..]`, moved one position right, is an
      embedding into `xs` of everything after the first element. */
  lemma ShiftedEmbedding<A, B>(xs: seq<A>, ys: seq<B>, tail: seq<nat>, pick: A -> Option<B>)
    requires |xs| > 0 && Embedding(xs[1..], ys, tail, pick)
    ensures |Shift(tail)| == |ys| && Increasing(Shift(tail))
    ensures forall k :: 0 <= k < |tail| ==>
              0 < Shift(tail)[k] < |xs| && pick(xs[Shift(tail)[k]]) == Some(ys[k])
    ensures forall i :: 0 < i < |xs| && pick(xs[i]).Some? ==> i in Shift(tail)
  {
    var shifted := Shift(tail);
    ShiftIncreasing(tail);
    forall k | 0 <= k < |shifted|
      ensures shifted[k] < |xs| && pick(xs[shifted[k]]) == Some(ys[k])
    {
      assert xs[shifted[k]] == xs[1..][tail[k]];
    }
    forall i | 0 < i < |xs| && pick(xs[i]).Some?
      ensures i in shifted
    {
      assert xs[1..][i - 1] == xs[i];
      var k :| 0 <= k < |tail| && tail[k] == i - 1;
      assert shifted[k] == i;
    }
  }

  /** A first element that contributes nothing leaves the output as it was. */
  lemma EmbeddingSkip<A, B>(xs: seq<A>, ys: seq<B>, tail: seq<nat>, pick: A -> Option<B>)
    requires |xs| > 0 && pick(xs[0]).None?
    requires Embedding(xs[1..], ys, tail, pick)
    ensures Embedding(xs, ys, Shift(tail), pick)
  {
    ShiftedEmbedding(xs, ys, tail, pick);
  }

  /** A first element that contributes puts its output in front. */
  lemma EmbeddingCons<A, B>(xs: seq<A>, ys: seq<B>, tail: seq<nat>, pick: A -> Option<B>)
    requires |xs| > 0 && pick(xs[0]).Some?
    requires Embedding(xs[1..], ys, tail, pick)
    ensures Embedding(xs, [pick(xs[0]).value] + ys, [0] + Shift(tail), pick)
  {
    ShiftedEmbedding(xs, ys, tail, pick);
    ConsIncreasing(Shift(tail));
    ConsOutputs(xs, ys, Shift(tail), pick);
    ConsCover(xs, Shift(tail), pick);
  }

  lemma ConsOutputs<A, B>(xs: seq<A>, ys: seq<B>, shifted: seq<nat>, pick: A -> Option<B>)
    requires |xs| > 0 && pick(xs[0]).Some? && |shifted| == |ys|
    requires forall k :: 0 <= k < |shifted| ==> 0 < shifted[k] < |xs| && pick(xs[shifted[k]]) == Some(ys[k])
    ensures forall k :: 0 <= k < |shifted| + 1 ==>
              ([0] + shifted)[k] < |xs| && pick(xs[([0] + shifted)[k]]) == Some(([pick(xs[0]).value] + ys)[k])
  {
    var origin := [0] + shifted;
    var out := [pick(xs[0]).value] + ys;
    forall k | 0 <= k < |origin|
      ensures origin[k] < |xs| && pick(xs[origin[k]]) == Some(out[k])
    {
      if k > 0 {
        assert origin[k] == shifted[k - 1] && out[k] == ys[k - 1];
      }
    }
  }

  lemma ConsCover<A, B>(xs: seq<A>, shifted: seq<nat>, pick: A -> Option<B>)
    requires |xs| > 0
    requires forall i :: 0 < i < |xs| && pick(xs[i]).Some? ==> i in shifted
    ensures forall i :: 0 <= i < |xs| && pick(xs[i]).Some? ==> i in [0] + shifted
  {
    var origin := [0] + shifted;
    forall i | 0 <= i < |xs| && pick(xs[i]).Some?
      ensures i in origin
    {
      if i == 0 {
        assert origin[0] == 0;
      } else {
        var k :| 0 <= k < |shifted| && shifted[k] == i;
        assert origin[k + 1] == i;
      }
    }
  }
}
