/** `df.groupby(column)['length'].sum().reset_index()`: one bucket per
    distinct value of a string column, holding the summed lengths of its rows.
    pandas sorts the group keys by default, so the buckets come out in
    ascending key order. */
module Grouping {
  import opened Records
  import opened Collections
  import Strings

  /** One row of a grouped sum: the group key and its summed length. */
  datatype Bucket = Bucket(key: string, total: nat)

  function Keys(bs: seq<Bucket>): set<string>
  {
    set b | b in bs :: b.key
  }

  /** Keys strictly ascending (so, in particular, no key twice). */
  predicate Ascending(bs: seq<Bucket>)
  {
    forall i, j :: 0 <= i < j < |bs| ==> Strings.Less(bs[i].key, bs[j].key)
  }

  /** The key column, row by row. */
  function KeyList(bs: seq<Bucket>): (ks: seq<string>)
    ensures |ks| == |bs|
    ensures forall i :: 0 <= i < |bs| ==> ks[i] == bs[i].key
  {
    seq(|bs|, i requires 0 <= i < |bs| => bs[i].key)
  }

  /** No key occurs in two rows. */
  predicate UniqueKeys(bs: seq<Bucket>)
  {
    NoDup(KeyList(bs))
  }

  /** Sum of the `total` column. */
  function TotalOf(bs: seq<Bucket>): nat
  {
    if |bs| == 0 then 0 else bs[0].total + TotalOf(bs[1..])
  }

  /** Sum of the totals of the buckets keyed `k` (at most one when keys are
      unique); zero when there is none. */
  function TotalAt(bs: seq<Bucket>, k: string): nat
  {
    if |bs| == 0 then 0
    else (if bs[0].key == k then bs[0].total else 0) + TotalAt(bs[1..], k)
  }

  /** The reference sum: lengths of the rows whose column `c` equals `k`. */
  function SumFor(rs: seq<PacketRecord>, c: Column, k: string): nat
  {
    if |rs| == 0 then 0
    else (if KeyOf(rs[0], c) == k then rs[0].length else 0) + SumFor(rs[1..], c, k)
  }

  lemma KeysCons(b: Bucket, bs: seq<Bucket>)
    ensures Keys([b] + bs) == {b.key} + Keys(bs)
  {
    assert forall x :: x in [b] + bs <==> x == b || x in bs;
  }

  /** Adds `n` bytes to the bucket `k`, creating it at its sorted place when
      it is missing. */
  function Insert(bs: seq<Bucket>, k: string, n: nat): (r: seq<Bucket>)
    requires Ascending(bs)
    ensures InsertPost(bs, k, n, r)
  {
    if |bs| == 0 then [Bucket(k, n)]
    else if bs[0].key == k then
      MergeFirst(bs, n);
      [Bucket(k, bs[0].total + n)] + bs[1..]
    else if Strings.Less(k, bs[0].key) then
      PrependNew(bs, k, n);
      [Bucket(k, n)] + bs
    else
      var rest := Insert(bs[1..], k, n);
      KeepFirst(bs, k, n, rest);
      [bs[0]] + rest
  }

  /** What inserting `n` bytes under `k` into `bs` promises of its result `r`:
      the order is kept, the key set gains `k`, at most one bucket is added,
      and exactly the bucket `k` grows by `n`. */
  ghost predicate InsertPost(bs: seq<Bucket>, k: string, n: nat, r: seq<Bucket>)
  {
    && Ascending(r)
    && Keys(r) == Keys(bs) + {k}
    && |r| <= |bs| + 1
    && TotalOf(r) == TotalOf(bs) + n
    && (forall k' :: TotalAt(r, k') == TotalAt(bs, k') + (if k' == k then n else 0))
  }

  lemma MergeFirst(bs: seq<Bucket>, n: nat)
    requires Ascending(bs) && |bs| > 0
    ensures InsertPost(bs, bs[0].key, n, [Bucket(bs[0].key, bs[0].total + n)] + bs[1..])
  {
    var r := [Bucket(bs[0].key, bs[0].total + n)] + bs[1..];
    KeysCons(bs[0], bs[1..]);
    KeysCons(r[0], bs[1..]);
    assert bs == [bs[0]] + bs[1..];
    assert r[1..] == bs[1..];
    forall i, j | 0 <= i < j < |r|
      ensures Strings.Less(r[i].key, r[j].key)
    {
      assert r[j] == bs[j] && r[i].key == bs[i].key;
    }
  }

  lemma PrependNew(bs: seq<Bucket>, k: string, n: nat)
    requires Ascending(bs) && |bs| > 0 && Strings.Less(k, bs[0].key)
    ensures InsertPost(bs, k, n, [Bucket(k, n)] + bs)
  {
    var r := [Bucket(k, n)] + bs;
    KeysCons(Bucket(k, n), bs);
    assert r[1..] == bs;
    forall x | x in Keys(bs)
      ensures Strings.Less(k, x)
    {
      var b :| b in bs && b.key == x;
      var j :| 0 <= j < |bs| && bs[j] == b;
      if j > 0 {
        Strings.LessTransitive(k, bs[0].key, bs[j].key);
      }
    }
    AscendingCons(Bucket(k, n), bs);
  }

  lemma KeepFirst(bs: seq<Bucket>, k: string, n: nat, rest: seq<Bucket>)
    requires Ascending(bs) && |bs| > 0 && bs[0].key != k && !Strings.Less(k, bs[0].key)
    requires InsertPost(bs[1..], k, n, rest)
    ensures InsertPost(bs, k, n, [bs[0]] + rest)
  {
    var r := [bs[0]] + rest;
    Strings.LessTotal(k, bs[0].key);
    KeysCons(bs[0], bs[1..]);
    KeysCons(bs[0], rest);
    assert bs == [bs[0]] + bs[1..];
    assert r[1..] == rest;
    forall x | x in Keys(rest)
      ensures Strings.Less(bs[0].key, x)
    {
      if x != k {
        var b :| b in bs[1..] && b.key == x;
        var j :| 0 <= j < |bs[1..]| && bs[1..][j] == b;
        assert bs[j + 1] == b;
      }
    }
    AscendingCons(bs[0], rest);
  }

  lemma AscendingCons(b: Bucket, bs: seq<Bucket>)
    requires Ascending(bs)
    requires forall x :: x in Keys(bs) ==> Strings.Less(b.key, x)
    ensures Ascending([b] + bs)
  {
    var r := [b] + bs;
    forall i, j | 0 <= i < j < |r|
      ensures Strings.Less(r[i].key, r[j].key)
    {
      assert r[j] == bs[j - 1];
      if i == 0 {
        assert bs[j - 1] in bs;
      }
    }
  }

  /** The grouped sum of the `length` column by column `c`. */
  function GroupSum(rs: seq<PacketRecord>, c: Column): (bs: seq<Bucket>)
    ensures Ascending(bs)
    ensures Keys(bs) == Present(rs, c)
    ensures |bs| <= |rs|
    ensures TotalOf(bs) == SumLengths(rs)
    ensures forall k :: TotalAt(bs, k) == SumFor(rs, c, k)
  {
    if |rs| == 0 then []
    else
      PresentCons(rs, c);
      Insert(GroupSum(rs[1..], c), KeyOf(rs[0], c), rs[0].length)
  }

  lemma {:induction false} AscendingUnique(bs: seq<Bucket>)
    requires Ascending(bs)
    ensures UniqueKeys(bs)
  {
    forall i, j | 0 <= i < j < |bs|
      ensures bs[i].key != bs[j].key
    {
      Strings.LessIrreflexive(bs[i].key);
    }
  }

  lemma {:induction false} TotalAtAbsent(bs: seq<Bucket>, k: string)
    requires k !in Keys(bs)
    ensures TotalAt(bs, k) == 0
  {
    if |bs| > 0 {
      KeysCons(bs[0], bs[1..]);
      assert bs == [bs[0]] + bs[1..];
      TotalAtAbsent(bs[1..], k);
    }
  }

  /** With unique keys, the total recorded under a row's key is that row's
      total. */
  lemma {:induction false} TotalAtRow(bs: seq<Bucket>, i: nat)
    requires UniqueKeys(bs) && i < |bs|
    ensures TotalAt(bs, bs[i].key) == bs[i].total
  {
    var k := bs[i].key;
    assert bs == [bs[0]] + bs[1..];
    if i == 0 {
      forall x | x in bs[1..]
        ensures x.key != k
      {
        var j :| 0 <= j < |bs[1..]| && bs[1..][j] == x;
        assert bs[j + 1] == x;
      }
      TotalAtAbsent(bs[1..], k);
    } else {
      assert bs[1..][i - 1] == bs[i];
      TotalAtRow(bs[1..], i - 1);
    }
  }

  /** Every bucket of the grouped sum holds the summed length of exactly the
      rows with its key. */
  lemma GroupRows(rs: seq<PacketRecord>, c: Column)
    ensures forall i :: 0 <= i < |GroupSum(rs, c)| ==>
              GroupSum(rs, c)[i].total == SumFor(rs, c, GroupSum(rs, c)[i].key)
  {
    var bs := GroupSum(rs, c);
    AscendingUnique(bs);
    forall i | 0 <= i < |bs|
      ensures bs[i].total == SumFor(rs, c, bs[i].key)
    {
      TotalAtRow(bs, i);
    }
  }
}
