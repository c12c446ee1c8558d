/** `capture_packets`: every sniffed packet becomes zero or one record. The
    sniffer itself is not modelled; a packet is reduced to the layers it
    carries and the IP-header fields the record copies. */
module Capture {
  import opened Records
  import opened Collections

  /** A sniffed packet. `time` is the capture time already rendered as
      `HH:MM:SS`; `size` is `len(pkt)`. `ipSrc` and `ipDst` are only read
      when `hasIp` holds. */
  datatype Packet = Packet(
    hasIp: bool,
    hasTcp: bool,
    hasUdp: bool,
    hasIcmp: bool,
    ipSrc: string,
    ipDst: string,
    time: string,
    size: nat
  )

  const Labels: set<string> := {"TCP", "UDP", "ICMP", "OTHER"}

  /** The protocol label, by the fixed precedence TCP, UDP, ICMP, OTHER. */
  function ProtocolOf(p: Packet): (proto: string)
    ensures proto in Labels
    ensures proto == "TCP" <==> p.hasTcp
    ensures proto == "UDP" <==> !p.hasTcp && p.hasUdp
    ensures proto == "ICMP" <==> !p.hasTcp && !p.hasUdp && p.hasIcmp
    ensures proto == "OTHER" <==> !p.hasTcp && !p.hasUdp && !p.hasIcmp
  {
    if p.hasTcp then "TCP"
    else if p.hasUdp then "UDP"
    else if p.hasIcmp then "ICMP"
    else "OTHER"
  }

  /** The record one packet contributes: none for a non-IP packet. */
  function ToRecord(p: Packet): (r: Option<PacketRecord>)
    ensures r.None? <==> !p.hasIp
    ensures r.Some? ==> r.value.src == p.ipSrc && r.value.dst == p.ipDst
    ensures r.Some? ==> r.value.length == p.size && r.value.timestamp == p.time
    ensures r.Some? ==> r.value.proto == ProtocolOf(p)
  {
    if p.hasIp then
      Some(PacketRecord(p.time, p.ipSrc, p.ipDst, ProtocolOf(p), p.size))
    else
      None
  }

  /** The records built from the sniffed packets, in packet order. */
  function CapturePackets(packets: seq<Packet>): (records: seq<PacketRecord>)
    ensures |records| <= |packets|
    ensures forall r :: r in records ==> r.proto in Labels
  {
    if |packets| == 0 then []
    else
      var rest := CapturePackets(packets[1..]);
      match ToRecord(packets[0])
      case None => rest
      case Some(r) => [r] + rest
  }

  /** The records are the IP packets, converted, in their original order:
      `origin[k]` is the position of the packet that produced `records[k]`,
      positions strictly increase, and every IP packet's position is listed. */
  lemma {:induction false} CaptureOrigins(packets: seq<Packet>) returns (origin: seq<nat>)
    ensures Embedding(packets, CapturePackets(packets), origin, ToRecord)
  {
    if |packets| == 0 {
      origin := [];
    } else {
      var tail := CaptureOrigins(packets[1..]);
      var rest := CapturePackets(packets[1..]);
      if packets[0].hasIp {
        origin := [0] + Shift(tail);
        assert CapturePackets(packets) == [ToRecord(packets[0]).value] + rest;
        EmbeddingCons(packets, rest, tail, ToRecord);
      } else {
        origin := Shift(tail);
        assert CapturePackets(packets) == rest;
        EmbeddingSkip(packets, rest, tail, ToRecord);
      }
    }
  }

  /** Capturing two batches one after the other yields the records of one
      batch holding both. */
  lemma {:induction false} CaptureConcat(a: seq<Packet>, b: seq<Packet>)
    ensures CapturePackets(a + b) == CapturePackets(a) + CapturePackets(b)
  {
    if |a| > 0 {
      assert (a + b)[1..] == a[1..] + b;
      CaptureConcat(a[1..], b);
    } else {
      assert a + b == b;
    }
  }

  /** A batch without IP packets yields no records. */
  lemma {:induction false} CaptureNoIp(packets: seq<Packet>)
    requires forall i :: 0 <= i < |packets| ==> !packets[i].hasIp
    ensures CapturePackets(packets) == []
  {
    if |packets| > 0 {
      CaptureNoIp(packets[1..]);
    }
  }
}
