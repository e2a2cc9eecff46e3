/** DNS values shared by the cache and the response strategies: queries, records, responses and TTL clipping.
    Names are compared as plain values, that is, after case folding. */
module Dns {

  datatype Option<+T> = None | Some(value: T)

  datatype RecordType = A | AAAA | CNAME | SOA | OtherType(code: nat)

  predicate IsIpAddr(t: RecordType) {
    t.A? || t.AAAA?
  }

  datatype Query = Query(name: string, qtype: RecordType, qclass: nat)

  datatype RData = Address(ip: nat) | Authority(minimum: nat) | Opaque(bytes: seq<nat>)

  datatype Record = Record(name: string, rtype: RecordType, rclass: nat, ttl: nat, data: RData)

  datatype ResponseCode = NoError | NXDomain | ServFail | Refused | OtherCode(code: nat)

  datatype Response = Response(query: Query, code: ResponseCode, answers: seq<Record>,
                               authorities: seq<Record>, group: Option<string>)

  /** In nanoseconds. */
  const SECOND: nat := 1_000_000_000

  const U16: nat := 0x1_0000
  const U32: nat := 0x1_0000_0000

  function Min(a: nat, b: nat): nat {
    if a <= b then a else b
  }

  function Max(a: nat, b: nat): nat {
    if a <= b then b else a
  }

  /** `set_max_ttl` on every answer record. */
  function CapTtl(records: seq<Record>, cap: nat): (r: seq<Record>)
    ensures |r| == |records|
    ensures forall i :: 0 <= i < |r| ==> r[i] == records[i].(ttl := Min(records[i].ttl, cap))
  {
    seq(|records|, i requires 0 <= i < |records| => records[i].(ttl := Min(records[i].ttl, cap)))
  }

  /** `set_name` on every answer record. */
  function Rename(records: seq<Record>, name: string): (r: seq<Record>)
    ensures |r| == |records|
    ensures forall i :: 0 <= i < |r| ==> r[i] == records[i].(name := name)
  {
    seq(|records|, i requires 0 <= i < |records| => records[i].(name := name))
  }
}
