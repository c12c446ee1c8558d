/** `filter_by_protocol` and `filter_by_ip`: boolean-mask selections of rows,
    which keep the rows that satisfy a per-row predicate in their order. */
module Filters {
  import opened Records
  import opened Collections

  /** The two row predicates the filters use. */
  datatype Selector = ByProtocol(protocol: string) | ByIp(address: string)

  predicate Keeps(s: Selector, r: PacketRecord)
  {
    match s
    case ByProtocol(p) => r.proto == p
    case ByIp(a) => r.src == a || r.dst == a
  }

  /** `df[mask]`: the rows for which the mask holds, in row order. */
  function Select(rs: seq<PacketRecord>, s: Selector): (kept: seq<PacketRecord>)
    ensures forall r :: r in kept <==> r in rs && Keeps(s, r)
    ensures |kept| <= |rs|
  {
    if |rs| == 0 then []
    else
      var rest := Select(rs[1..], s);
      assert rs == [rs[0]] + rs[1..];
      if Keeps(s, rs[0]) then [rs[0]] + rest else rest
  }

  function FilterByProtocol(rs: seq<PacketRecord>, protocol: string): (kept: seq<PacketRecord>)
    ensures |rs| == 0 ==> kept == rs
    ensures forall r :: r in kept <==> r in rs && r.proto == protocol
    ensures |kept| <= |rs|
  {
    if |rs| == 0 then rs else Select(rs, ByProtocol(protocol))
  }

  function FilterByIp(rs: seq<PacketRecord>, address: string): (kept: seq<PacketRecord>)
    ensures |rs| == 0 ==> kept == rs
    ensures forall r :: r in kept <==> r in rs && (r.src == address || r.dst == address)
    ensures |kept| <= |rs|
  {
    if |rs| == 0 then rs else Select(rs, ByIp(address))
  }

  /** A row's contribution to the selection: the row itself when the
      selector keeps it, nothing otherwise. */
  function Pick(s: Selector): (pick: PacketRecord -> Option<PacketRecord>)
    ensures forall r :: pick(r) == (if Keeps(s, r) then Some(r) else None)
  {
    r => if Keeps(s, r) then Some(r) else None
  }

  /** The selection is exactly the kept rows, in their original order:
      `origin[k]` is the position of the row that became `kept[k]`,
      positions strictly increase, and every kept row is listed. */
  lemma {:induction false} SelectOrigins(rs: seq<PacketRecord>, s: Selector) returns (origin: seq<nat>)
    ensures Embedding(rs, Select(rs, s), origin, Pick(s))
  {
    if |rs| == 0 {
      origin := [];
    } else {
      var tail := SelectOrigins(rs[1..], s);
      var rest := Select(rs[1..], s);
      if Keeps(s, rs[0]) {
        origin := [0] + Shift(tail);
        assert Select(rs, s) == [rs[0]] + rest;
        EmbeddingCons(rs, rest, tail, Pick(s));
      } else {
        origin := Shift(tail);
        assert Select(rs, s) == rest;
        EmbeddingSkip(rs, rest, tail, Pick(s));
      }
    }
  }

  lemma {:induction false} SelectIdempotent(rs: seq<PacketRecord>, s: Selector)
    ensures Select(Select(rs, s), s) == Select(rs, s)
  {
    if |rs| > 0 {
      SelectIdempotent(rs[1..], s);
      if Keeps(s, rs[0]) {
        assert Select(rs, s)[1..] == Select(rs[1..], s);
      }
    }
  }

  lemma {:induction false} SelectCommute(rs: seq<PacketRecord>, s: Selector, t: Selector)
    ensures Select(Select(rs, s), t) == Select(Select(rs, t), s)
  {
    if |rs| > 0 {
      SelectCommute(rs[1..], s, t);
      var r := rs[0];
      var st := Select(Select(rs[1..], s), t);
      if Keeps(s, r) {
        assert Select(rs, s) == [r] + Select(rs[1..], s);
        assert ([r] + Select(rs[1..], s))[1..] == Select(rs[1..], s);
      }
      if Keeps(t, r) {
        assert Select(rs, t) == [r] + Select(rs[1..], t);
        assert ([r] + Select(rs[1..], t))[1..] == Select(rs[1..], t);
      }
    }
  }

  /** The protocol filter keeps exactly the rows of that protocol, in order. */
  lemma FilterByProtocolOrder(rs: seq<PacketRecord>, protocol: string) returns (origin: seq<nat>)
    ensures Embedding(rs, FilterByProtocol(rs, protocol), origin, Pick(ByProtocol(protocol)))
  {
    origin := SelectOrigins(rs, ByProtocol(protocol));
  }

  /** The address filter keeps exactly the rows sent from or to the address,
      in order. */
  lemma FilterByIpOrder(rs: seq<PacketRecord>, address: string) returns (origin: seq<nat>)
    ensures Embedding(rs, FilterByIp(rs, address), origin, Pick(ByIp(address)))
  {
    origin := SelectOrigins(rs, ByIp(address));
  }

  lemma {:induction false} FilterByProtocolIdempotent(rs: seq<PacketRecord>, protocol: string)
    ensures FilterByProtocol(FilterByProtocol(rs, protocol), protocol) == FilterByProtocol(rs, protocol)
  {
    SelectIdempotent(rs, ByProtocol(protocol));
  }

  lemma {:induction false} FilterByIpIdempotent(rs: seq<PacketRecord>, address: string)
    ensures FilterByIp(FilterByIp(rs, address), address) == FilterByIp(rs, address)
  {
    SelectIdempotent(rs, ByIp(address));
  }

  /** Filtering by protocol and by address, in either order, gives the same
      rows, and never more than the input. */
  lemma {:induction false} FiltersCommute(rs: seq<PacketRecord>, protocol: string, address: string)
    ensures FilterByIp(FilterByProtocol(rs, protocol), address)
         == FilterByProtocol(FilterByIp(rs, address), protocol)
    ensures |FilterByIp(FilterByProtocol(rs, protocol), address)| <= |rs|
  {
    SelectCommute(rs, ByProtocol(protocol), ByIp(address));
  }
}
