/** The packet record shared by every stage of the pipeline: one row of the
    data frame built by `capture_packets`, with the columns `timestamp`,
    `src`, `dst`, `proto` and `length`. */
module Records {

  /** Python's `None` / a present value. */
  datatype Option<+T> = None | Some(value: T)

  /** A captured packet. `length` is `len(pkt)`, hence a natural number;
      `timestamp` is the `HH:MM:SS` string, kept opaque. */
  datatype PacketRecord = PacketRecord(
    timestamp: string,
    src: string,
    dst: string,
    proto: string,
    length: nat
  )

  /** The string-valued columns of the data frame. */
  datatype Column = Timestamp | Src | Dst | Proto

  function KeyOf(r: PacketRecord, c: Column): string
  {
    match c
    case Timestamp => r.timestamp
    case Src => r.src
    case Dst => r.dst
    case Proto => r.proto
  }

  /** The column `c` of the data frame, in row order. */
  function Values(rs: seq<PacketRecord>, c: Column): (vs: seq<string>)
    ensures |vs| == |rs|
    ensures forall i :: 0 <= i < |rs| ==> vs[i] == KeyOf(rs[i], c)
  {
    seq(|rs|, i requires 0 <= i < |rs| => KeyOf(rs[i], c))
  }

  /** The set of values that occur in column `c`. */
  function Present(rs: seq<PacketRecord>, c: Column): set<string>
  {
    set r | r in rs :: KeyOf(r, c)
  }

  /** Sum of the `length` column. */
  function SumLengths(rs: seq<PacketRecord>): nat
  {
    if |rs| == 0 then 0 else rs[0].length + SumLengths(rs[1..])
  }

  lemma PresentCons(rs: seq<PacketRecord>, c: Column)
    requires |rs| > 0
    ensures Present(rs, c) == {KeyOf(rs[0], c)} + Present(rs[1..], c)
  {
    assert rs == [rs[0]] + rs[1..];
    forall x | x in Present(rs, c)
      ensures x in {KeyOf(rs[0], c)} + Present(rs[1..], c)
    {
      var r :| r in rs && KeyOf(r, c) == x;
      if r != rs[0] {
        assert r in rs[1..];
      }
    }
  }

  /** The values of a column, as a set, are the column's present values. */
  lemma ValuesPresent(rs: seq<PacketRecord>, c: Column)
    ensures (set v | v in Values(rs, c)) == Present(rs, c)
  {
    var vs := Values(rs, c);
    forall v | v in vs ensures v in Present(rs, c)
    {
      var i :| 0 <= i < |vs| && vs[i] == v;
      assert rs[i] in rs;
    }
    forall v | v in Present(rs, c) ensures v in vs
    {
      var r :| r in rs && KeyOf(r, c) == v;
      var i :| 0 <= i < |rs| && rs[i] == r;
      assert vs[i] == v;
    }
  }
}
