/** What the address rules along a chain can answer, told by the rules and the query type. */
module AddressRules {
  import opened Dns
  import opened DomainRules

  type Rules = seq<Option<Address>>

  lemma WalkedFront(front: Option<Address>, rest: Rules, qtype: RecordType, noRuleSoa: bool)
    ensures Walked([front] + rest, qtype, noRuleSoa) ==
              match Decide(front, qtype, noRuleSoa)
              case Reply(data) => Some(data)
              case Leave => None
              case Ask => Walked(rest, qtype, noRuleSoa)
  {
    assert ([front] + rest)[1..] == rest;
  }

  // ---------- Rules of the other family ----------

  /** Rules that speak of IPv4 only, and of IPv6 only. */
  predicate OnlyV4(rule: Option<Address>) {
    rule == Some(SoaV4) || rule == Some(IgnV4)
  }

  predicate OnlyV6(rule: Option<Address>) {
    rule == Some(SoaV6) || rule == Some(IgnV6)
  }

  lemma {:induction false} SilentRuleDoesNotMatter(before: Rules, rule: Option<Address>, after: Rules,
                                                   qtype: RecordType, noRuleSoa: bool)
    requires Walked([rule] + after, qtype, noRuleSoa) == Walked(after, qtype, noRuleSoa)
    ensures Walked(before + [rule] + after, qtype, noRuleSoa) == Walked(before + after, qtype, noRuleSoa)
  {
    if before == [] {
      assert before + [rule] + after == [rule] + after && before + after == after;
    } else {
      var front, rest := before[0], before[1..];
      SilentRuleDoesNotMatter(rest, rule, after, qtype, noRuleSoa);
      assert before + [rule] + after == [front] + (rest + [rule] + after);
      assert before + after == [front] + (rest + after);
      WalkedFront(front, rest + [rule] + after, qtype, noRuleSoa);
      WalkedFront(front, rest + after, qtype, noRuleSoa);
    }
  }

  /** Taking an IPv4-only rule out of a chain, wherever it stands, never changes what an AAAA query gets, and the other
      way round for IPv6-only rules and A queries. */
  lemma OtherFamilyDoesNotMatter(before: Rules, rule: Option<Address>, after: Rules, noRuleSoa: bool)
    ensures OnlyV4(rule) ==> Walked(before + [rule] + after, AAAA, noRuleSoa) == Walked(before + after, AAAA, noRuleSoa)
    ensures OnlyV6(rule) ==> Walked(before + [rule] + after, A, noRuleSoa) == Walked(before + after, A, noRuleSoa)
  {
    if OnlyV4(rule) {
      WalkedFront(rule, after, AAAA, noRuleSoa);
      SilentRuleDoesNotMatter(before, rule, after, AAAA, noRuleSoa);
    }
    if OnlyV6(rule) {
      WalkedFront(rule, after, A, noRuleSoa);
      SilentRuleDoesNotMatter(before, rule, after, A, noRuleSoa);
    }
  }

  /** A rule without an address part does not matter, nor, when SOA rules do not apply, does any SOA rule. */
  lemma SilentRules(before: Rules, rule: Option<Address>, after: Rules, qtype: RecordType, noRuleSoa: bool)
    requires rule == None || (noRuleSoa && rule in {Some(SoaAny), Some(SoaV4), Some(SoaV6)})
    ensures Walked(before + [rule] + after, qtype, noRuleSoa) == Walked(before + after, qtype, noRuleSoa)
  {
    WalkedFront(rule, after, qtype, noRuleSoa);
    SilentRuleDoesNotMatter(before, rule, after, qtype, noRuleSoa);
  }

  // ---------- The nearest rule ----------

  /** Where SOA rules apply, the nearest rule blocks the query types it names with just the default SOA. */
  lemma SoaBlocks(rest: Rules)
    ensures Walked([Some(SoaV4)] + rest, A, false) == Some([DefaultSoa])
    ensures Walked([Some(SoaV6)] + rest, AAAA, false) == Some([DefaultSoa])
    ensures Walked([Some(SoaAny)] + rest, A, false) == Some([DefaultSoa])
    ensures Walked([Some(SoaAny)] + rest, AAAA, false) == Some([DefaultSoa])
  {
    WalkedFront(Some(SoaV4), rest, A, false);
    WalkedFront(Some(SoaV6), rest, AAAA, false);
    WalkedFront(Some(SoaAny), rest, A, false);
    WalkedFront(Some(SoaAny), rest, AAAA, false);
  }

  /** An ignore rule ends the walk without an answer for the query types it names. */
  lemma IgnoreEndsWalk(rest: Rules, noRuleSoa: bool)
    ensures Walked([Some(IgnV4)] + rest, A, noRuleSoa) == None
    ensures Walked([Some(IgnV6)] + rest, AAAA, noRuleSoa) == None
    ensures Walked([Some(IgnAny)] + rest, A, noRuleSoa) == None
    ensures Walked([Some(IgnAny)] + rest, AAAA, noRuleSoa) == None
  {
    WalkedFront(Some(IgnV4), rest, A, noRuleSoa);
    WalkedFront(Some(IgnV6), rest, AAAA, noRuleSoa);
    WalkedFront(Some(IgnAny), rest, A, noRuleSoa);
    WalkedFront(Some(IgnAny), rest, AAAA, noRuleSoa);
  }

  ghost predicate AllV4(data: seq<Data>, ips: seq<nat>) {
    |data| == |ips| && forall i :: 0 <= i < |data| ==> data[i] == V4(ips[i])
  }

  ghost predicate AllV6(data: seq<Data>, ips: seq<nat>) {
    |data| == |ips| && forall i :: 0 <= i < |data| ==> data[i] == V6(ips[i])
  }

  ghost predicate AllMapped(data: seq<Data>, ips: seq<nat>) {
    |data| == |ips| && forall i :: 0 <= i < |data| ==> data[i] == V6Mapped(ips[i])
  }

  /** The nearest rule's own addresses are the answer, in order: those of the asked family; for AAAA, if it has no IPv6
      part, its IPv4 addresses mapped. With neither, the SOA, or if SOA rules do not apply what the rest yields. */
  lemma AddressesAnswer(v4: Option<seq<nat>>, v6: Option<seq<nat>>, rest: Rules, noRuleSoa: bool)
    ensures var a := Walked([Some(Addr(v4, v6))] + rest, A, noRuleSoa);
            if v4.Some? then a.Some? && AllV4(a.value, v4.value)
            else a == if noRuleSoa then Walked(rest, A, noRuleSoa) else Some([DefaultSoa])
    ensures var a := Walked([Some(Addr(v4, v6))] + rest, AAAA, noRuleSoa);
            if v6.Some? then a.Some? && AllV6(a.value, v6.value)
            else if v4.Some? then a.Some? && AllMapped(a.value, v4.value)
            else a == if noRuleSoa then Walked(rest, AAAA, noRuleSoa) else Some([DefaultSoa])
  {
    WalkedFront(Some(Addr(v4, v6)), rest, A, noRuleSoa);
    WalkedFront(Some(Addr(v4, v6)), rest, AAAA, noRuleSoa);
  }

  // ---------- Every chain ----------

  ghost predicate FitsA(data: seq<Data>, noRuleSoa: bool) {
    || (data == [DefaultSoa] && !noRuleSoa)
    || forall i :: 0 <= i < |data| ==> data[i].V4?
  }

  ghost predicate FitsAaaa(data: seq<Data>, noRuleSoa: bool) {
    || (data == [DefaultSoa] && !noRuleSoa)
    || (forall i :: 0 <= i < |data| ==> data[i].V6?)
    || (forall i :: 0 <= i < |data| ==> data[i].V6Mapped?)
  }

  lemma OneReplyFits(rule: Option<Address>, noRuleSoa: bool)
    ensures var d := Decide(rule, A, noRuleSoa); d.Reply? ==> FitsA(d.data, noRuleSoa)
    ensures var d := Decide(rule, AAAA, noRuleSoa); d.Reply? ==> FitsAaaa(d.data, noRuleSoa)
  {
    if rule.Some? && rule.value.Addr? {
      AddressesAnswer(rule.value.v4, rule.value.v6, [], noRuleSoa);
      WalkedFront(rule, [], A, noRuleSoa);
      WalkedFront(rule, [], AAAA, noRuleSoa);
    }
  }

  /** Whatever the chain: an A query is answered with IPv4 addresses or just the SOA, an AAAA query with IPv6 addresses,
      mapped ones, or just the SOA; and never with the SOA when SOA rules do not apply. */
  lemma {:induction false} RepliesFitTheQuery(rules: Rules, noRuleSoa: bool)
    ensures var a := Walked(rules, A, noRuleSoa); a.Some? ==> FitsA(a.value, noRuleSoa)
    ensures var a := Walked(rules, AAAA, noRuleSoa); a.Some? ==> FitsAaaa(a.value, noRuleSoa)
  {
    if rules != [] {
      OneReplyFits(rules[0], noRuleSoa);
      RepliesFitTheQuery(rules[1..], noRuleSoa);
    }
  }
}
