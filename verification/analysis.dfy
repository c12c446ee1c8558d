/** `analyze_packets`: the summary counts of a capture and its protocol
    breakdown, the byte sums per protocol sorted by total, largest first. */
module Analysis {
  import opened Records
  import opened Collections
  import opened Grouping
  import Filters

  /** The summary dictionary. `avgPacketSize` is the exact mean; the source
      rounds it to two decimals. */
  datatype Summary = Summary(
    totalPackets: nat,
    uniqueSources: nat,
    uniqueDestinations: nat,
    avgPacketSize: real
  )

  /** The pair `analyze_packets` returns. An empty capture gives the empty
      dictionary, modelled as `None`, and an empty table. */
  datatype Report = Report(summary: Option<Summary>, protocols: seq<Bucket>)

  predicate NonIncreasing(bs: seq<Bucket>)
  {
    forall i, j :: 0 <= i < j < |bs| ==> bs[i].total >= bs[j].total
  }

  /** Places `b` into a table already sorted by total, largest first. */
  function InsertByTotal(b: Bucket, s: seq<Bucket>): (r: seq<Bucket>)
    requires NonIncreasing(s)
    ensures InsertByTotalPost(b, s, r)
  {
    if |s| == 0 then [b]
    else if b.total >= s[0].total then
      PlaceFirst(b, s);
      [b] + s
    else
      var rest := InsertByTotal(b, s[1..]);
      PlaceLater(b, s, rest);
      [s[0]] + rest
  }

  /** What placing `b` into the sorted table `s` promises of the result `r`:
      still sorted, the rows of `s` plus `b`, and keys kept unique when `b`
      brings a new key. */
  ghost predicate InsertByTotalPost(b: Bucket, s: seq<Bucket>, r: seq<Bucket>)
  {
    && NonIncreasing(r)
    && multiset(r) == multiset(s) + multiset{b}
    && TotalOf(r) == TotalOf(s) + b.total
    && Keys(r) == Keys(s) + {b.key}
    && (UniqueKeys(s) && b.key !in Keys(s) ==> UniqueKeys(r))
  }

  lemma PlaceFirst(b: Bucket, s: seq<Bucket>)
    requires NonIncreasing(s) && |s| > 0 && b.total >= s[0].total
    ensures InsertByTotalPost(b, s, [b] + s)
  {
    var r := [b] + s;
    KeysCons(b, s);
    assert r[1..] == s;
    ConsUnique(b, s);
    forall i, j | 0 <= i < j < |r|
      ensures r[i].total >= r[j].total
    {
      assert r[j] == s[j - 1];
      if i > 0 {
        assert r[i] == s[i - 1];
      }
    }
  }

  lemma PlaceLater(b: Bucket, s: seq<Bucket>, rest: seq<Bucket>)
    requires NonIncreasing(s) && |s| > 0 && b.total < s[0].total
    requires InsertByTotalPost(b, s[1..], rest)
    ensures InsertByTotalPost(b, s, [s[0]] + rest)
  {
    LaterRows(b, s, rest);
    BoundedByHead(b, s, rest);
    SortedCons(s[0], rest);
    UniqueLater(b, s, rest);
  }

  /** Keeping `s[0]` in front of the placed rest gives the rows of `s` plus
      `b`. */
  lemma LaterRows(b: Bucket, s: seq<Bucket>, rest: seq<Bucket>)
    requires |s| > 0
    requires multiset(rest) == multiset(s[1..]) + multiset{b}
    requires TotalOf(rest) == TotalOf(s[1..]) + b.total
    requires Keys(rest) == Keys(s[1..]) + {b.key}
    ensures multiset([s[0]] + rest) == multiset(s) + multiset{b}
    ensures TotalOf([s[0]] + rest) == TotalOf(s) + b.total
    ensures Keys([s[0]] + rest) == Keys(s) + {b.key}
  {
    assert s == [s[0]] + s[1..];
    assert ([s[0]] + rest)[1..] == rest;
    KeysCons(s[0], s[1..]);
    KeysCons(s[0], rest);
  }

  /** Keeping `s[0]` in front of the placed rest keeps keys unique. */
  lemma UniqueLater(b: Bucket, s: seq<Bucket>, rest: seq<Bucket>)
    requires |s| > 0
    requires Keys(rest) == Keys(s[1..]) + {b.key}
    requires UniqueKeys(s[1..]) && b.key !in Keys(s[1..]) ==> UniqueKeys(rest)
    ensures UniqueKeys(s) && b.key !in Keys(s) ==> UniqueKeys([s[0]] + rest)
  {
    if UniqueKeys(s) && b.key !in Keys(s) {
      assert s == [s[0]] + s[1..];
      KeysCons(s[0], s[1..]);
      TailUnique(s);
      ConsUnique(s[0], rest);
    }
  }

  /** Rows of `s[1..]` plus `b` all have totals at most that of `s[0]`. */
  lemma BoundedByHead(b: Bucket, s: seq<Bucket>, rest: seq<Bucket>)
    requires NonIncreasing(s) && |s| > 0 && b.total < s[0].total
    requires multiset(rest) == multiset(s[1..]) + multiset{b}
    ensures forall x :: x in rest ==> x.total <= s[0].total
  {
    forall x | x in rest
      ensures x.total <= s[0].total
    {
      assert x in multiset(rest);
      if x != b {
        assert x in multiset(s[1..]);
        var j :| 0 <= j < |s[1..]| && s[1..][j] == x;
        assert s[j + 1] == x;
      }
    }
  }

  lemma SortedCons(h: Bucket, rest: seq<Bucket>)
    requires NonIncreasing(rest)
    requires forall x :: x in rest ==> x.total <= h.total
    ensures NonIncreasing([h] + rest)
  {
    var r := [h] + rest;
    forall i, j | 0 <= i < j < |r|
      ensures r[i].total >= r[j].total
    {
      assert r[j] == rest[j - 1];
      if i == 0 {
        assert rest[j - 1] in rest;
      } else {
        assert r[i] == rest[i - 1];
      }
    }
  }

  lemma TailUnique(s: seq<Bucket>)
    requires |s| > 0 && UniqueKeys(s)
    ensures UniqueKeys(s[1..]) && s[0].key !in Keys(s[1..])
  {
    forall x | x in s[1..]
      ensures x.key != s[0].key
    {
      var j :| 0 <= j < |s[1..]| && s[1..][j] == x;
      assert s[j + 1] == x;
    }
  }

  lemma ConsUnique(b: Bucket, s: seq<Bucket>)
    ensures UniqueKeys(s) && b.key !in Keys(s) ==> UniqueKeys([b] + s)
  {
    if UniqueKeys(s) && b.key !in Keys(s) {
      var r := [b] + s;
      forall i, j | 0 <= i < j < |r|
        ensures r[i].key != r[j].key
      {
        assert r[j] == s[j - 1];
        if i == 0 {
          assert s[j - 1] in s;
        } else {
          assert r[i] == s[i - 1];
        }
      }
    }
  }

  /** `sort_values(by='total_bytes', ascending=False)`: a permutation of the
      table, largest total first. The order among equal totals is not
      promised. */
  function SortByTotalDesc(bs: seq<Bucket>): (r: seq<Bucket>)
    ensures NonIncreasing(r)
    ensures multiset(r) == multiset(bs)
    ensures TotalOf(r) == TotalOf(bs)
    ensures Keys(r) == Keys(bs)
    ensures UniqueKeys(bs) ==> UniqueKeys(r)
  {
    if |bs| == 0 then []
    else
      var sorted := SortByTotalDesc(bs[1..]);
      var r := InsertByTotal(bs[0], sorted);
      SortStep(bs, sorted, r);
      SortStepUnique(bs, sorted, r);
      r
  }

  /** Placing the first row into the sorted rest gives the rows of the
      whole table. */
  lemma SortStep(bs: seq<Bucket>, sorted: seq<Bucket>, r: seq<Bucket>)
    requires |bs| > 0
    requires multiset(sorted) == multiset(bs[1..])
    requires TotalOf(sorted) == TotalOf(bs[1..]) && Keys(sorted) == Keys(bs[1..])
    requires multiset(r) == multiset(sorted) + multiset{bs[0]}
    requires TotalOf(r) == TotalOf(sorted) + bs[0].total
    requires Keys(r) == Keys(sorted) + {bs[0].key}
    ensures multiset(r) == multiset(bs) && TotalOf(r) == TotalOf(bs) && Keys(r) == Keys(bs)
  {
    assert bs == [bs[0]] + bs[1..];
    KeysCons(bs[0], bs[1..]);
  }

  /** ... and keeps its keys unique. */
  lemma SortStepUnique(bs: seq<Bucket>, sorted: seq<Bucket>, r: seq<Bucket>)
    requires |bs| > 0
    requires Keys(sorted) == Keys(bs[1..])
    requires UniqueKeys(bs[1..]) ==> UniqueKeys(sorted)
    requires UniqueKeys(sorted) && bs[0].key !in Keys(sorted) ==> UniqueKeys(r)
    ensures UniqueKeys(bs) ==> UniqueKeys(r)
  {
    if UniqueKeys(bs) {
      TailUnique(bs);
    }
  }

  /** What the summary of `rs` states: the number of rows, the numbers of
      distinct sources and destinations, and the mean length. */
  ghost predicate SummaryOf(rs: seq<PacketRecord>, s: Summary)
  {
    && s.totalPackets == |rs|
    && s.uniqueSources == |Present(rs, Src)|
    && s.uniqueDestinations == |Present(rs, Dst)|
    && IsMean(s.avgPacketSize, SumLengths(rs), s.totalPackets)
  }

  /** `m` times the number of rows is the total: the exact mean. */
  ghost predicate IsMean(m: real, total: nat, count: nat)
  {
    m * (count as real) == total as real
  }

  /** The summary of a non-empty capture. */
  function Summarize(rs: seq<PacketRecord>): (s: Summary)
    requires |rs| > 0
    ensures SummaryOf(rs, s)
    ensures s.uniqueSources <= s.totalPackets && s.uniqueDestinations <= s.totalPackets
  {
    Summary(|rs|, CountDistinct(rs, Src), CountDistinct(rs, Dst), Mean(SumLengths(rs), |rs|))
  }

  /** `df[column].nunique()`. */
  function CountDistinct(rs: seq<PacketRecord>, c: Column): (n: nat)
    ensures n == |Present(rs, c)| <= |rs|
  {
    DistinctCount(Values(rs, c));
    ValuesPresent(rs, c);
    |Distinct(Values(rs, c))|
  }

  /** `df['length'].mean()`, as an exact quotient. */
  function Mean(total: nat, count: nat): (m: real)
    requires count > 0
    ensures IsMean(m, total, count)
  {
    total as real / count as real
  }

  /** What the protocol table of `rs` states: one row per protocol present,
      each holding the bytes of that protocol's rows, largest total first. */
  ghost predicate BreakdownOf(rs: seq<PacketRecord>, table: seq<Bucket>)
  {
    && UniqueKeys(table)
    && Keys(table) == Present(rs, Proto)
    && NonIncreasing(table)
    && TotalOf(table) == SumLengths(rs)
    && (forall i :: 0 <= i < |table| ==> table[i].total == SumFor(rs, Proto, table[i].key))
  }

  /** The protocol table: group by `proto`, sum `length`, sort by total. */
  function ProtocolBreakdown(rs: seq<PacketRecord>): (table: seq<Bucket>)
    ensures BreakdownOf(rs, table)
  {
    var grouped := GroupSum(rs, Proto);
    AscendingUnique(grouped);
    GroupRows(rs, Proto);
    var table := SortByTotalDesc(grouped);
    forall i | 0 <= i < |table|
      ensures table[i].total == SumFor(rs, Proto, table[i].key)
    {
      assert table[i] in multiset(grouped);
      var j :| 0 <= j < |grouped| && grouped[j] == table[i];
    }
    table
  }

  /** An empty capture yields the empty dictionary and an empty table; any
      other yields its summary and its protocol table. */
  function AnalyzePackets(rs: seq<PacketRecord>): (report: Report)
    ensures report.summary.None? <==> |rs| == 0
    ensures |rs| == 0 ==> report.protocols == []
    ensures report.summary.Some? ==> SummaryOf(rs, report.summary.value)
    ensures report.summary.Some? ==>
              report.summary.value.uniqueSources <= report.summary.value.totalPackets &&
              report.summary.value.uniqueDestinations <= report.summary.value.totalPackets
    ensures BreakdownOf(rs, report.protocols)
  {
    if |rs| == 0 then
      assert Present(rs, Proto) == {};
      Report(None, [])
    else Report(Some(Summarize(rs)), ProtocolBreakdown(rs))
  }

  /** A protocol's row holds the bytes of the rows `filter_by_protocol` keeps
      for it. */
  lemma {:induction false} BreakdownMatchesFilter(rs: seq<PacketRecord>, protocol: string)
    ensures SumFor(rs, Proto, protocol) == SumLengths(Filters.FilterByProtocol(rs, protocol))
  {
    SelectSum(rs, protocol);
  }

  lemma {:induction false} SelectSum(rs: seq<PacketRecord>, protocol: string)
    ensures SumFor(rs, Proto, protocol) == SumLengths(Filters.Select(rs, Filters.ByProtocol(protocol)))
  {
    if |rs| > 0 {
      SelectSum(rs[1..], protocol);
      var rest := Filters.Select(rs[1..], Filters.ByProtocol(protocol));
      if rs[0].proto == protocol {
        assert Filters.Select(rs, Filters.ByProtocol(protocol)) == [rs[0]] + rest;
        assert ([rs[0]] + rest)[1..] == rest;
      }
    }
  }
}
