# Network traffic analyzer — packet-record pipeline in Dafny

This project models the data pipeline of a small network-traffic dashboard.
Sniffed packets become packet records (`timestamp`, `src`, `dst`, `proto`,
`length`). The records can be filtered by protocol or by address, summarised
(packet count, distinct sources and destinations, mean size), broken down by
protocol (bytes per protocol, largest first) and bucketed into a
bytes-per-second series for a line chart.

A data frame of records is a `seq<PacketRecord>`. A grouped table is a
`seq<Bucket>`, where each bucket holds a key and a summed length. A
`None`/empty guard becomes an `Option`. Every operation is a pure function.

Modules, one per source file plus shared pieces:

- `Records`: the record type, `Option`, the string columns, length sums and the set of values present in a column.
- `Strings`: Python's ordering of `str`, lexicographic by code point. pandas uses it to sort group keys.
- `Collections`: duplicate-freedom, distinct values in first-seen order, and order-preserving index embeddings.
- `Capture` (`src/packet_capture.py`): the packet-to-record loop of `capture_packets`.
- `Filters` (`src/utils.py`): `filter_by_protocol` and `filter_by_ip`.
- `Grouping`: `groupby(column)['length'].sum()`. Keys come out sorted ascending, as pandas' default `sort=True` gives.
- `Analysis` (`src/packet_analysis.py`): `analyze_packets`.
- `Visualizer` (`src/visualizer.py`): the guards and the data behind the two charts.

Facts about the code that shape the model:

- `analyze_packets` on an empty frame returns `{}` and `pd.DataFrame()` (src/packet_analysis.py:6-7). The model returns `Report(None, [])`.
- The breakdown's key column is `proto` (src/packet_analysis.py:17-20).
- `sort_values` is not stable, so no order among equal totals is promised (src/packet_analysis.py:21).
- A row-by-row loop that keeps or converts some rows in order is stated once, as `Collections.Embedding`. It covers both the capture loop and the boolean-mask filters.

## Model

| member | source | states |
|---|---|---|
| Capture.ProtocolOf | src/packet_capture.py:12-18 | The label is one of TCP, UDP, ICMP, OTHER. It is TCP exactly when a TCP layer is present. It is UDP exactly when TCP is absent and UDP present. It is ICMP exactly when TCP and UDP are absent and ICMP present. It is OTHER exactly when none of the three is present. |
| Capture.ToRecord | src/packet_capture.py:11-25 | A packet yields no record exactly when it has no IP layer. Otherwise the record copies the IP source, IP destination, time and total length, and carries the packet's protocol label. |
| Capture.CapturePackets | src/packet_capture.py:10-26 | There are never more records than packets, and every record's protocol is one of the four labels. |
| Capture.CaptureOrigins | src/packet_capture.py:10-25 | The records are exactly the IP packets, converted, in packet order. Each record maps to a strictly increasing packet position whose packet converts to that record, so it has IP, and every IP packet is listed. |
| Capture.CaptureConcat | src/packet_capture.py:10-25 | Capturing a concatenation of two batches gives the concatenation of their records. |
| Capture.CaptureNoIp | src/packet_capture.py:10-11 | A batch with no IP packet produces no record. |
| Filters.Select | src/utils.py:6 | A boolean-mask selection holds exactly the input rows the predicate accepts, and is no longer than the input. |
| Filters.SelectOrigins | src/utils.py:6-12 | A selection is the accepted rows in input order. Its rows sit at strictly increasing input positions, and every accepted row is among them. |
| Filters.SelectIdempotent | src/utils.py:6-12 | Selecting twice with the same predicate equals selecting once. |
| Filters.SelectCommute | src/utils.py:6-12 | Two selections applied in either order give the same rows. |
| Filters.FilterByProtocol | src/utils.py:4-6 | An empty input is returned unchanged. Otherwise a row is kept iff its `proto` equals the selector exactly, and the result is no longer than the input. |
| Filters.FilterByIp | src/utils.py:8-12 | An empty input is returned unchanged. Otherwise a row is kept iff its `src` or its `dst` equals the address exactly, and the result is no longer than the input. |
| Filters.FilterByProtocolOrder | src/utils.py:6 | The protocol filter keeps every row of that protocol and no other, in input order. |
| Filters.FilterByIpOrder | src/utils.py:12 | The address filter keeps every row sent from or to the address and no other, in input order. |
| Filters.FilterByProtocolIdempotent | src/utils.py:4-6 | Filtering by protocol twice equals filtering once. |
| Filters.FilterByIpIdempotent | src/utils.py:8-12 | Filtering by address twice equals filtering once. |
| Filters.FiltersCommute | src/utils.py:4-12 | The protocol filter and the address filter commute, and the combined result is never longer than the input. |
| Strings.LessTransitive | src/visualizer.py:16 | The key order pandas sorts by is transitive. |
| Strings.LessTotal | src/visualizer.py:16 | Any two different keys are ordered one way or the other. |
| Strings.LessIrreflexive | src/visualizer.py:16 | No key is below itself, so strictly ascending keys are pairwise distinct. |
| Collections.Distinct | src/packet_analysis.py:11-12 | The distinct values have no duplicates, contain exactly the input's values, and are no more numerous than the input. |
| Collections.DistinctCount | src/packet_analysis.py:11-12 | The number of distinct values equals the size of the set of values, and is at most the number of rows. |
| Grouping.Insert | src/visualizer.py:16 | Adding a row's length to its group keeps the keys strictly ascending. The key set gains the row's key, at most one bucket is added, the grand total grows by the length, and only that key's total changes. |
| Grouping.GroupSum | src/packet_analysis.py:17-19 | Group keys are strictly ascending and are exactly the values present in the column. There are at most as many groups as rows. The totals add up to the sum of all lengths, and the total under any key is the summed length of the rows with that key. |
| Grouping.GroupRows | src/packet_analysis.py:17-20 | Every group's total is the summed length of exactly the rows carrying its key. |
| Grouping.AscendingUnique | src/visualizer.py:16 | Strictly ascending group keys contain no duplicate. |
| Analysis.InsertByTotal | src/packet_analysis.py:21 | Placing a row into a table sorted by total, largest first, keeps it sorted. The result is the old rows plus the new one as a multiset, and it keeps keys unique when the new key is fresh. |
| Analysis.SortByTotalDesc | src/packet_analysis.py:21 | The sorted table is a permutation of the input and is non-increasing by total. It has the same keys, the same grand total, and unique keys whenever the input had them. |
| Analysis.CountDistinct | src/packet_analysis.py:11-12 | `nunique` of a column is the number of distinct values present and is at most the number of rows. |
| Analysis.Mean | src/packet_analysis.py:13 | The mean times the row count is the total length. |
| Analysis.Summarize | src/packet_analysis.py:9-14 | For a non-empty capture: `total_packets` is the row count, `unique_sources`/`unique_destinations` are the numbers of distinct `src`/`dst` values (each at most the row count), and `avg_packet_size` times `total_packets` is the total length. |
| Analysis.ProtocolBreakdown | src/packet_analysis.py:16-22 | One row per protocol present, with no duplicate protocol. Each row's total is the summed length of that protocol's records, the totals add up to the total length, and rows are non-increasing by total. |
| Analysis.AnalyzePackets | src/packet_analysis.py:4-24 | The summary is absent exactly when the input is empty, and the table is then empty. Otherwise the summary and table satisfy the properties listed for `Summarize` and `ProtocolBreakdown`. |
| Analysis.BreakdownMatchesFilter | src/packet_analysis.py:17-20 | The bytes grouped under a protocol equal the total length of the rows `filter_by_protocol` keeps for it. |
| Visualizer.PieOf | src/visualizer.py:7 | The pie is drawn exactly when both named columns exist in the protocol table. Otherwise the error names a missing column that was passed. |
| Visualizer.PlotProtocolDistributionAsWritten | src/visualizer.py:4-7 | No figure exactly when the table is missing or empty. Otherwise the call fails on the missing `protocol` column. |
| Visualizer.AsWrittenPieFails | src/visualizer.py:7 | For every non-empty capture, the pie as written fails on the missing `protocol` column. |
| Visualizer.PlotProtocolDistribution | src/visualizer.py:4-10 | No figure exactly when the table is missing or empty. Otherwise it is a pie of exactly that table. |
| Visualizer.CorrectedPieDraws | src/visualizer.py:7 | With the `proto` column named, every non-empty capture gets its pie. |
| Visualizer.BandwidthSeries | src/visualizer.py:16 | One point per distinct timestamp, strictly ascending, so there are no duplicates. Each point's length is the summed length of that second's records, and the points add up to the total length. |
| Visualizer.PlotBandwidthOverTime | src/visualizer.py:12-19 | No figure exactly when the records are missing or empty. Otherwise the figure is a non-empty line through the bandwidth series. |

## Left out

- Live capture with scapy's `sniff` and the packet objects (src/packet_capture.py:8) are foreign I/O. A packet is reduced to four layer flags, its IP addresses, a time and a size.
- Timestamp formatting with `strftime`/`localtime` (src/packet_capture.py:20) uses the clock and locale. A packet carries its time already rendered, and timestamps are opaque strings.
- Analysis.Summarize: states the exact mean, not the mean rounded to two decimals (src/packet_analysis.py:13), because floating-point rounding is not modelled.
- `bytes_to_kb` and `bytes_to_mb` (src/utils.py:14-20) are floating-point conversions and are not modelled.
- Analysis.SortByTotalDesc: promises no order among equal totals, because pandas' default `sort_values` is not stable.
- Plotly figure construction and layout (src/visualizer.py:7-9, 17-18) are foreign rendering. A figure is represented by the table it draws. Only the column-name check of `px.pie` is modelled.
- Visualizer.PlotBandwidthOverTime: does not check the `x`/`y` column names of `px.line`. The series has the `timestamp` and `length` columns the call names.
- The Streamlit page in app.py (slider, button, spinner, rendering) is presentation and control flow.
- A data frame's dtypes are not modelled, and an empty frame is an empty sequence. The only column schema modelled is `Visualizer.ProtocolColumns`, the protocol table's columns, which the `px.pie` column check uses.
- Sums of `length` are unbounded `nat`s. pandas sums in int64, but a wrap-around would need more than 2^63 bytes, so it cannot happen in practice.

## Findings

| source | as written | input that shows it | evidently intended | confidence | as-written member | corrected member |
|---|---|---|---|---|---|---|
| src/visualizer.py:7 | `px.pie(proto_df, values='total_bytes', names='protocol')` names a `protocol` column. The table from src/packet_analysis.py:16-22 has only the columns `proto` and `total_bytes`, so plotly raises a missing-column error. | Any capture with at least one IP packet, e.g. one TCP record, reaching src/visualizer.py:7 through app.py:26. | `names='proto'`, so a pie of the breakdown is drawn. | high; not executed | Visualizer.AsWrittenPieFails | Visualizer.PlotProtocolDistribution |
