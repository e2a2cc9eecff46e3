/** The configured TTL bounds, applied to records before they are cached or answered. */
module Ttl {
  import opened Dns
  import opened CacheModel
  import opened CacheRuns

  /** Raise to the minimum first, then cut to the maximum: with clashing bounds the maximum wins. */
  function Clamp(ttl: nat, min: Option<nat>, max: Option<nat>): (r: nat)
    ensures max.Some? ==> r <= max.value
    ensures min.Some? && (max.None? || min.value <= max.value) ==> r >= min.value
    ensures (min.Some? ==> min.value <= ttl) && (max.Some? ==> ttl <= max.value) ==> r == ttl
    ensures max.Some? && max.value < ttl ==> r == max.value
    ensures min.Some? && ttl < min.value && (max.None? || min.value <= max.value) ==> r == min.value
  {
    var raised := if min.Some? then Max(ttl, min.value) else ttl;
    if max.Some? then Min(raised, max.value) else raised
  }

  function ClampAll(records: seq<Record>, min: Option<nat>, max: Option<nat>): (r: seq<Record>)
    ensures |r| == |records|
    ensures forall i :: 0 <= i < |r| ==> r[i] == records[i].(ttl := Clamp(records[i].ttl, min, max))
  {
    seq(|records|, i requires 0 <= i < |records| => records[i].(ttl := Clamp(records[i].ttl, min, max)))
  }

  method ClampTtlBounds(records: array<Record>, min: Option<nat>, max: Option<nat>)
    modifies records
    ensures records[..] == ClampAll(old(records[..]), min, max)
  {
    for i := 0 to records.Length
      invariant forall j :: 0 <= j < i ==>
                  records[j] == old(records[j]).(ttl := Clamp(old(records[j]).ttl, min, max))
      invariant forall j :: i <= j < records.Length ==> records[j] == old(records[j])
    {
      if min.Some? && records[i].ttl < min.value {
        records[i] := records[i].(ttl := min.value);
      }
      if max.Some? && records[i].ttl > max.value {
        records[i] := records[i].(ttl := max.value);
      }
    }
  }

  /** The least TTL of a non-empty answer. */
  function Least(records: seq<Record>): nat
    requires records != []
  {
    LeastTtl(records, records[0].ttl)
  }

  lemma ClampMonotone(a: nat, b: nat, min: Option<nat>, max: Option<nat>)
    requires a <= b
    ensures Clamp(a, min, max) <= Clamp(b, min, max)
  {
  }

  /** Clamping every record clamps the lifetime: it is the clamped least TTL, or 600 s if that is less. Clashing
      bounds included. */
  lemma ClampedLifetime(records: seq<Record>, min: Option<nat>, max: Option<nat>)
    requires records != []
    ensures LeastTtl(ClampAll(records, min, max), DEFAULT_LIFETIME) ==
              Min(Clamp(Least(records), min, max), DEFAULT_LIFETIME)
  {
    var clamped := ClampAll(records, min, max);
    var m := Least(records);
    var j :| 0 <= j < |records| && records[j].ttl == m;
    assert clamped[j].ttl == Clamp(m, min, max);
    forall i | 0 <= i < |records|
      ensures Clamp(m, min, max) <= clamped[i].ttl
    {
      ClampMonotone(m, records[i].ttl, min, max);
    }
  }
}
