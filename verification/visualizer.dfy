/** `visualizer.py`: the two chart builders. Plotting itself is not modelled;
    a figure is represented by the table it would draw. */
module Visualizer {
  import opened Records
  import opened Grouping
  import Analysis

  /** A pie chart of protocol totals, or a line chart of bytes per second. */
  datatype Figure = Pie(slices: seq<Bucket>) | Line(points: seq<Bucket>)

  /** What a plotting call yields: a figure, or the error raised when an
      argument names a column the table does not have. */
  datatype Plot = Drawn(figure: Figure) | MissingColumn(name: string)

  /** The columns of the protocol table: `groupby('proto')` followed by
      `reset_index()` keeps `proto`, and `length` is renamed `total_bytes`. */
  const ProtocolColumns: seq<string> := ["proto", "total_bytes"]

  /** `px.pie(table, values=values, names=names)`: both arguments must name
      columns of the table. */
  function PieOf(table: seq<Bucket>, values: string, names: string): (p: Plot)
    ensures p.Drawn? <==> values in ProtocolColumns && names in ProtocolColumns
    ensures p.Drawn? ==> p.figure == Pie(table)
    ensures p.MissingColumn? ==> p.name !in ProtocolColumns && (p.name == values || p.name == names)
  {
    if values !in ProtocolColumns then MissingColumn(values)
    else if names !in ProtocolColumns then MissingColumn(names)
    else Drawn(Pie(table))
  }

  /** `plot_protocol_distribution` as written: it names the slices by a
      `protocol` column, which the protocol table does not have. */
  function PlotProtocolDistributionAsWritten(table: Option<seq<Bucket>>): (fig: Option<Plot>)
    ensures fig.None? <==> table.None? || |table.value| == 0
    ensures fig.Some? ==> fig.value == MissingColumn("protocol")
  {
    if table.None? || |table.value| == 0 then None
    else Some(PieOf(table.value, "total_bytes", "protocol"))
  }

  /** Every non-empty capture reaches the pie chart with a non-empty table,
      and the call as written then fails on the `protocol` column. */
  lemma AsWrittenPieFails(rs: seq<PacketRecord>)
    requires |rs| > 0
    ensures PlotProtocolDistributionAsWritten(Some(Analysis.AnalyzePackets(rs).protocols))
         == Some(MissingColumn("protocol"))
  {
    var table := Analysis.AnalyzePackets(rs).protocols;
    assert rs[0] in rs;
    assert rs[0].proto in Keys(table);
    assert "protocol" != "proto" && "protocol" != "total_bytes";
  }

  /** `plot_protocol_distribution` naming the slices by the `proto` column:
      no figure for a missing or empty table; otherwise a pie of exactly that
      table. */
  function PlotProtocolDistribution(table: Option<seq<Bucket>>): (fig: Option<Plot>)
    ensures fig.None? <==> table.None? || |table.value| == 0
    ensures fig.Some? ==> fig.value == Drawn(Pie(table.value))
  {
    if table.None? || |table.value| == 0 then None
    else Some(PieOf(table.value, "total_bytes", "proto"))
  }

  /** With the `proto` column named, every non-empty capture gets its pie. */
  lemma CorrectedPieDraws(rs: seq<PacketRecord>)
    requires |rs| > 0
    ensures PlotProtocolDistribution(Some(Analysis.AnalyzePackets(rs).protocols))
         == Some(Drawn(Pie(Analysis.AnalyzePackets(rs).protocols)))
  {
    var table := Analysis.AnalyzePackets(rs).protocols;
    assert rs[0] in rs;
    assert rs[0].proto in Keys(table);
  }

  /** The bandwidth series: lengths summed per timestamp, one point per
      distinct timestamp, in ascending timestamp order. */
  function BandwidthSeries(rs: seq<PacketRecord>): (series: seq<Bucket>)
    ensures Ascending(series) && UniqueKeys(series)
    ensures Keys(series) == Present(rs, Timestamp)
    ensures |series| <= |rs|
    ensures TotalOf(series) == SumLengths(rs)
    ensures forall i :: 0 <= i < |series| ==>
              series[i].total == SumFor(rs, Timestamp, series[i].key)
  {
    GroupRows(rs, Timestamp);
    AscendingUnique(GroupSum(rs, Timestamp));
    GroupSum(rs, Timestamp)
  }

  /** No figure for missing or empty records; otherwise a line through the
      bandwidth series. */
  function PlotBandwidthOverTime(df: Option<seq<PacketRecord>>): (fig: Option<Figure>)
    ensures fig.None? <==> df.None? || |df.value| == 0
    ensures fig.Some? ==> fig.value.Line? && |fig.value.points| > 0
    ensures fig.Some? ==> fig.value.points == BandwidthSeries(df.value)
  {
    if df.None? || |df.value| == 0 then None
    else
      var rs := df.value;
      assert rs[0] in rs;
      Some(Line(BandwidthSeries(rs)))
  }
}
