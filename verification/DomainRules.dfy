/** Building the rule index: every rule is linked to the rule that encloses it. */
module DomainRules {
  import opened Dns
  import opened Domains
  import opened DomainIndex
  import opened Permutations

  // ---------- Canonical name order (section 6.1 of RFC 4034) ----------

  predicate Lex<T(==)>(less: (T, T) -> bool, a: seq<T>, b: seq<T>) {
    if b == [] then false
    else if a == [] then true
    else if a[0] == b[0] then Lex(less, a[1..], b[1..])
    else less(a[0], b[0])
  }

  ghost predicate StrictOrder<T(!new)>(less: (T, T) -> bool) {
    && (forall x, y :: less(x, y) ==> !less(y, x))
    && (forall x, y, z :: less(x, y) && less(y, z) ==> less(x, z))
    && (forall x, y :: x != y ==> less(x, y) || less(y, x))
  }

  lemma {:induction false} LexAsymmetric<T(!new)>(less: (T, T) -> bool, a: seq<T>, b: seq<T>)
    requires StrictOrder(less) && Lex(less, a, b)
    ensures !Lex(less, b, a)
  {
    if a != [] && a[0] == b[0] {
      LexAsymmetric(less, a[1..], b[1..]);
    }
  }

  lemma {:induction false} LexTransitive<T(!new)>(less: (T, T) -> bool, a: seq<T>, b: seq<T>, c: seq<T>)
    requires StrictOrder(less) && Lex(less, a, b) && Lex(less, b, c)
    ensures Lex(less, a, c)
  {
    if a != [] && a[0] == b[0] && b[0] == c[0] {
      LexTransitive(less, a[1..], b[1..], c[1..]);
    }
  }

  lemma {:induction false} LexConnected<T(!new)>(less: (T, T) -> bool, a: seq<T>, b: seq<T>)
    requires StrictOrder(less) && a != b
    ensures Lex(less, a, b) || Lex(less, b, a)
  {
    if a != [] && b != [] && a[0] == b[0] {
      assert a == [a[0]] + a[1..] && b == [b[0]] + b[1..];
      LexConnected(less, a[1..], b[1..]);
    }
  }

  const CharLess: (char, char) -> bool := (a, b) => a < b

  const LabelLess: (Label, Label) -> bool := (a, b) => Lex(CharLess, a, b)

  lemma LabelOrder()
    ensures StrictOrder(LabelLess)
  {
    assert StrictOrder(CharLess);
    forall a, b | LabelLess(a, b) ensures !LabelLess(b, a) {
      LexAsymmetric(CharLess, a, b);
    }
    forall a, b, c | LabelLess(a, b) && LabelLess(b, c) ensures LabelLess(a, c) {
      LexTransitive(CharLess, a, b, c);
    }
    forall a: Label, b: Label | a != b ensures LabelLess(a, b) || LabelLess(b, a) {
      LexConnected(CharLess, a, b);
    }
  }

  function Reversed(s: seq<Label>): (r: seq<Label>)
    ensures |r| == |s|
    ensures forall i :: 0 <= i < |s| ==> r[i] == s[|s| - 1 - i]
  {
    seq(|s|, i requires 0 <= i < |s| => s[|s| - 1 - i])
  }

  predicate NameLess(a: Name, b: Name) {
    Lex(LabelLess, Reversed(a.labels), Reversed(b.labels))
  }

  function Kind(p: Pattern): nat {
    match p case Full(_) => 0 case Sub(_, _) => 1 case Suffix(_) => 2 case Default(_) => 3
  }

  /** `cmp` as "not greater"; one-label patterns on one base compare equal whatever their wildcard. */
  predicate Leq(a: Pattern, b: Pattern) {
    NameLess(a.name, b.name) || (a.name.labels == b.name.labels && Kind(a) <= Kind(b))
  }

  lemma ReversedInjective(a: seq<Label>, b: seq<Label>)
    requires Reversed(a) == Reversed(b)
    ensures a == b
  {
    forall i | 0 <= i < |a|
      ensures |a| == |b| && a[i] == b[i]
    {
      assert |a| == |Reversed(a)| == |Reversed(b)| == |b|;
      assert a[i] == Reversed(a)[|a| - 1 - i];
      assert b[i] == Reversed(b)[|a| - 1 - i];
    }
    assert |a| == |Reversed(a)| == |Reversed(b)| == |b|;
  }

  lemma LeqTotal(a: Pattern, b: Pattern)
    ensures Leq(a, b) || Leq(b, a)
  {
    LabelOrder();
    if a.name.labels != b.name.labels {
      if Reversed(a.name.labels) == Reversed(b.name.labels) {
        ReversedInjective(a.name.labels, b.name.labels);
      }
      LexConnected(LabelLess, Reversed(a.name.labels), Reversed(b.name.labels));
    }
  }

  /** On one name: exact, one-label, suffix, default. */
  lemma KindsInOrder(w: string, n: Name)
    ensures Leq(Full(n), Sub(w, n)) && Leq(Sub(w, n), Suffix(n)) && Leq(Suffix(n), Default(n))
    ensures !Leq(Sub(w, n), Full(n)) && !Leq(Suffix(n), Sub(w, n)) && !Leq(Default(n), Suffix(n))
  {
    LabelOrder();
    if NameLess(n, n) {
      LexAsymmetric(LabelLess, Reversed(n.labels), Reversed(n.labels));
      assert false;
    }
  }

  lemma LeqTransitive(a: Pattern, b: Pattern, c: Pattern)
    requires Leq(a, b) && Leq(b, c)
    ensures Leq(a, c)
  {
    LabelOrder();
    if NameLess(a.name, b.name) && NameLess(b.name, c.name) {
      LexTransitive(LabelLess, Reversed(a.name.labels), Reversed(b.name.labels), Reversed(c.name.labels));
    }
  }

  lemma {:induction false} PrefixIsLess<T(!new)>(less: (T, T) -> bool, a: seq<T>, b: seq<T>)
    requires |a| < |b| && b[..|a|] == a
    ensures Lex(less, a, b)
  {
    if a != [] {
      assert b[1..][..|a| - 1] == a[1..];
      PrefixIsLess(less, a[1..], b[1..]);
    }
  }

  /** A proper ancestor sorts strictly before every name below it. */
  lemma AncestorSortsFirst(z: Name, n: Name)
    requires ZoneOf(z, n) && |z.labels| < |n.labels|
    ensures NameLess(z, n) && !NameLess(n, z)
  {
    var a, b := Reversed(z.labels), Reversed(n.labels);
    assert b[..|a|] == a;
    PrefixIsLess(LabelLess, a, b);
    LabelOrder();
    LexAsymmetric(LabelLess, a, b);
  }

  // ---------- Sorting ----------

  type Items<R> = seq<(Pattern, R)>

  ghost predicate Sorted<R>(s: Items<R>) {
    forall i, j :: 0 <= i < j < |s| ==> Leq(s[i].0, s[j].0)
  }

  function InsertSorted<R>(s: Items<R>, x: (Pattern, R)): (r: Items<R>)
    ensures multiset(r) == multiset(s) + multiset{x}
  {
    if s == [] || Leq(s[|s| - 1].0, x.0) then s + [x]
    else
      assert s == s[..|s| - 1] + [s[|s| - 1]];
      InsertSorted(s[..|s| - 1], x) + [s[|s| - 1]]
  }

  lemma {:induction false} InsertKeepsSorted<R>(s: Items<R>, x: (Pattern, R))
    requires Sorted(s)
    ensures Sorted(InsertSorted(s, x))
  {
    if s != [] && Leq(s[|s| - 1].0, x.0) {
      forall i | 0 <= i < |s| ensures Leq(s[i].0, x.0) {
        if i < |s| - 1 { LeqTransitive(s[i].0, s[|s| - 1].0, x.0); }
      }
    } else if s != [] {
      var init, last := s[..|s| - 1], s[|s| - 1];
      InsertKeepsSorted(init, x);
      LeqTotal(last.0, x.0);
      var r := InsertSorted(init, x);
      forall i | 0 <= i < |r| ensures Leq(r[i].0, last.0) {
        assert r[i] in multiset(r);
        assert r[i] == x || r[i] in init;
      }
    }
  }

  predicate Tied(a: Pattern, b: Pattern) {
    Leq(a, b) && Leq(b, a)
  }

  /** The items that compare equal to `p`, in order. */
  function TiedWith<R>(s: Items<R>, p: Pattern): Items<R> {
    if s == [] then []
    else
      var n := |s| - 1;
      TiedWith(s[..n], p) + if Tied(s[n].0, p) then [s[n]] else []
  }

  lemma TiedWithAppend<R>(s: Items<R>, x: (Pattern, R), p: Pattern)
    ensures TiedWith(s + [x], p) == TiedWith(s, p) + if Tied(x.0, p) then [x] else []
  {
    assert (s + [x])[..|s|] == s;
  }

  lemma NotBothTied(a: Pattern, b: Pattern, p: Pattern)
    requires !Leq(a, b)
    ensures !(Tied(a, p) && Tied(b, p))
  {
    if Tied(a, p) && Tied(b, p) {
      LeqTransitive(a, p, b);
      assert false;
    }
  }

  lemma {:induction false} InsertIsStable<R>(s: Items<R>, x: (Pattern, R), p: Pattern)
    ensures TiedWith(InsertSorted(s, x), p) == TiedWith(s, p) + if Tied(x.0, p) then [x] else []
  {
    if s == [] || Leq(s[|s| - 1].0, x.0) {
      TiedWithAppend(s, x, p);
    } else {
      var init, last := s[..|s| - 1], s[|s| - 1];
      InsertIsStable(init, x, p);
      TiedWithAppend(InsertSorted(init, x), last, p);
      NotBothTied(last.0, x.0, p);
    }
  }

  /** `r` is `s` in order, items that compare equal staying in their former order. */
  ghost predicate StablySorted<R>(s: Items<R>, r: Items<R>) {
    multiset(r) == multiset(s) && Sorted(r) && forall p :: TiedWith(r, p) == TiedWith(s, p)
  }

  lemma InsertKeepsStable<R>(s: Items<R>, r: Items<R>, x: (Pattern, R))
    requires StablySorted(s, r)
    ensures StablySorted(s + [x], InsertSorted(r, x))
  {
    InsertKeepsSorted(r, x);
    forall p
      ensures TiedWith(InsertSorted(r, x), p) == TiedWith(s + [x], p)
    {
      InsertIsStable(r, x, p);
      TiedWithAppend(s, x, p);
    }
  }

  method SortItems<R>(items: Items<R>) returns (r: Items<R>)
    ensures StablySorted(items, r)
  {
    r := [];
    for i := 0 to |items|
      invariant StablySorted(items[..i], r)
    {
      InsertKeepsStable(items[..i], r, items[i]);
      assert items[..i + 1] == items[..i] + [items[i]];
      r := InsertSorted(r, items[i]);
    }
    assert items[..|items|] == items;
  }

  // ---------- Linking ----------

  /** A rule in the tree, with the rule that encloses it. */
  datatype Node<R> = Node(name: Pattern, rule: R, zone: Option<Node<R>>)

  /** The name whose lookup gives the enclosing rule. */
  function Enclosing(p: Pattern): Name {
    Target(BaseName(p.name))
  }

  lemma EnclosingIsAbove(p: Pattern)
    requires p.name.labels != []
    ensures ZoneOf(Enclosing(p), p.name) && |Enclosing(p).labels| < |p.name.labels|
  {
    var b := BaseName(p.name);
    if IsWildcard(b) {
      assert Enclosing(p).labels == p.name.labels[2..];
    }
  }

  /** A rule that applies to the enclosing name lies strictly above, hence sorts before. */
  lemma EncloserSortsBefore(glob: Glob, p: Pattern, p': Pattern)
    requires p.name.labels != [] && Accepts(glob, p', Enclosing(p))
    ensures !Leq(p, p') && |p'.name.labels| < |p.name.labels|
  {
    EnclosingIsAbove(p);
    var t := Enclosing(p);
    MatchEncloses(glob, p', t);
    var k := |p.name.labels| - |t.labels|;
    assert p.name.labels[k..] == t.labels;
    assert t.labels[|t.labels| - |p'.name.labels|..] == p'.name.labels;
    assert p.name.labels[|p.name.labels| - |p'.name.labels|..] == p'.name.labels;
    AncestorSortsFirst(p'.name, p.name);
  }

  lemma {:induction false} LaterRulesDoNotMatter<T>(glob: Glob, a: Rules<T>, b: Rules<T>, n: Name)
    requires forall j :: 0 <= j < |b| ==> !Accepts(glob, b[j].0, n)
    ensures LinearFind(glob, a + b, n) == LinearFind(glob, a, n)
  {
    if b == [] {
      assert a + b == a;
    } else {
      var k := |b| - 1;
      LaterRulesDoNotMatter(glob, a, b[..k], n);
      assert (a + b)[..|a + b| - 1] == a + b[..k];
      assert (a + b)[|a + b| - 1] == b[k];
    }
  }

  /** Node `i` stands for item `i`, linked by a lookup in the index as it was before it. */
  ghost predicate NodeOk<R>(glob: Glob, items: Items<R>, rules: Rules<Node<R>>, i: nat)
    requires i < |items| && i < |rules|
  {
    var (p, node) := rules[i];
    && p == items[i].0 && node.name == items[i].0 && node.rule == items[i].1
    && node.zone == LinearFind(glob, rules[..i], Enclosing(items[i].0))
  }

  ghost predicate BuiltSoFar<R>(glob: Glob, items: Items<R>, rules: Rules<Node<R>>, k: nat) {
    k <= |items| && |rules| == k && forall i :: 0 <= i < k ==> NodeOk(glob, items, rules, i)
  }

  /** Every non-root rule is linked to what a lookup of its base name yields in the finished index. */
  ghost predicate ZonesComplete<R>(glob: Glob, rules: Rules<Node<R>>) {
    forall i :: 0 <= i < |rules| && rules[i].0.name.labels != [] ==>
      rules[i].1.zone == LinearFind(glob, rules, Enclosing(rules[i].0))
  }

  lemma LaterDoesNotEnclose<R>(glob: Glob, items: Items<R>, i: nat, j: nat)
    requires Sorted(items) && i <= j < |items| && items[i].0.name.labels != []
    ensures !Accepts(glob, items[j].0, Enclosing(items[i].0))
  {
    assert Leq(items[i].0, items[j].0);
    if Accepts(glob, items[j].0, Enclosing(items[i].0)) {
      EncloserSortsBefore(glob, items[i].0, items[j].0);
      assert false;
    }
  }

  lemma PartialIndexSuffices<R>(glob: Glob, items: Items<R>, rules: Rules<Node<R>>)
    requires Sorted(items) && BuiltSoFar(glob, items, rules, |items|)
    ensures ZonesComplete(glob, rules)
  {
    forall i | 0 <= i < |rules| && rules[i].0.name.labels != []
      ensures rules[i].1.zone == LinearFind(glob, rules, Enclosing(rules[i].0))
    {
      assert NodeOk(glob, items, rules, i);
      var t := Enclosing(rules[i].0);
      var b := rules[i..];
      forall j | 0 <= j < |b|
        ensures !Accepts(glob, b[j].0, t)
      {
        assert NodeOk(glob, items, rules, i + j);
        LaterDoesNotEnclose(glob, items, i, i + j);
      }
      LaterRulesDoNotMatter(glob, rules[..i], b, t);
      assert rules[..i] + b == rules;
    }
  }

  ghost predicate AllQualified<R>(items: Items<R>) {
    forall i :: 0 <= i < |items| ==> items[i].0.name.fqdn
  }

  /** Items come from a hash map, in any order; the index is built from their sorted arrangement. */
  method Create<R>(glob: Glob, items: Items<R>) returns (m: DomainMap<Node<R>>, ghost sorted: Items<R>)
    requires AllQualified(items) && DistinctBy(items, (x: (Pattern, R)) => x.0)
    ensures fresh(m) && m.Valid() && m.glob == glob
    ensures multiset(sorted) == multiset(items) && Sorted(sorted) && BuiltSoFar(glob, sorted, m.rules, |items|)
    ensures ZonesComplete(glob, m.rules)
  {
    var ruleItems := SortItems(items);
    sorted := ruleItems;
    DistinctPermuted(items, ruleItems, (x: (Pattern, R)) => x.0);
    m := new DomainMap<Node<R>>(glob);
    for k := 0 to |ruleItems|
      invariant fresh(m) && m.Valid() && m.glob == glob
      invariant BuiltSoFar(glob, ruleItems, m.rules, k)
    {
      var (name, rule) := ruleItems[k];
      QualifiedItem(items, ruleItems, k);
      var zone := m.Find(BaseName(name.name));
      BuiltNext(glob, ruleItems, m.rules, k);
      var _ := m.Insert(name, Node(name, rule, zone));
    }
    PartialIndexSuffices(glob, ruleItems, m.rules);
  }

  lemma QualifiedItem<R>(items: Items<R>, sorted: Items<R>, k: nat)
    requires multiset(items) == multiset(sorted) && k < |sorted| && AllQualified(items)
    ensures Qualified(sorted[k].0) == sorted[k].0
  {
    assert sorted[k] in multiset(sorted);
    assert sorted[k] in items;
  }

  lemma NodeStaysOk<R>(glob: Glob, items: Items<R>, rules: Rules<Node<R>>, r: (Pattern, Node<R>), i: nat)
    requires i < |rules| && i < |items| && NodeOk(glob, items, rules, i)
    ensures NodeOk(glob, items, rules + [r], i)
  {
    assert (rules + [r])[..i] == rules[..i];
  }

  lemma NewKey<R>(glob: Glob, items: Items<R>, rules: Rules<Node<R>>, k: nat)
    requires BuiltSoFar(glob, items, rules, k) && k < |items| && DistinctBy(items, (x: (Pattern, R)) => x.0)
    ensures KeyIndex(rules, items[k].0) == |rules|
  {
    forall i | 0 <= i < |rules|
      ensures rules[i].0 != items[k].0
    {
      assert NodeOk(glob, items, rules, i);
    }
  }

  lemma BuiltNext<R>(glob: Glob, items: Items<R>, rules: Rules<Node<R>>, k: nat)
    requires BuiltSoFar(glob, items, rules, k) && k < |items| && DistinctBy(items, (x: (Pattern, R)) => x.0)
    ensures var (name, rule) := items[k];
            BuiltSoFar(glob, items, Put(rules, name, Node(name, rule, LinearFind(glob, rules, Enclosing(name)))), k + 1)
  {
    var (name, rule) := items[k];
    var r := (name, Node(name, rule, LinearFind(glob, rules, Enclosing(name))));
    NewKey(glob, items, rules, k);
    forall i | 0 <= i < k
      ensures NodeOk(glob, items, rules + [r], i)
    {
      NodeStaysOk(glob, items, rules, r, i);
    }
    assert (rules + [r])[..k] == rules;
  }

  // ---------- Walking the links ----------

  function Chain<R>(node: Node<R>): (c: seq<Node<R>>)
    ensures c != [] && c[0] == node
  {
    [node] + if node.zone.Some? then Chain(node.zone.value) else []
  }

  ghost predicate Member<R>(rules: Rules<Node<R>>, node: Node<R>) {
    exists i :: 0 <= i < |rules| && rules[i].1 == node
  }

  /** `next` is the rule found for the base name of `node`, a strictly shorter name. */
  ghost predicate Encloses<R>(glob: Glob, rules: Rules<Node<R>>, next: Node<R>, node: Node<R>) {
    && LinearFind(glob, rules, Enclosing(node.name)) == Some(next)
    && |next.name.name.labels| < |node.name.name.labels|
  }

  lemma LinkEncloses<R>(glob: Glob, items: Items<R>, rules: Rules<Node<R>>, node: Node<R>)
    requires Sorted(items) && BuiltSoFar(glob, items, rules, |items|) && Member(rules, node) && node.zone.Some?
    ensures Member(rules, node.zone.value)
    ensures node.name.name.labels != [] ==> Encloses(glob, rules, node.zone.value, node)
  {
    var i :| 0 <= i < |rules| && rules[i].1 == node;
    assert NodeOk(glob, items, rules, i);
    PartialIndexSuffices(glob, items, rules);
    var before := rules[..i];
    var t := Enclosing(node.name);
    var b := LinearBest(glob, before, t).value;
    assert rules[b].1 == node.zone.value && NodeOk(glob, items, rules, b);
    if node.name.name.labels != [] {
      EncloserSortsBefore(glob, node.name, rules[b].0);
    }
  }

  /** Following the links from any rule of the finished index visits the enclosing rules one after the other, each a
      lookup of the previous one's base name; the walk ends where that lookup finds nothing, or at the root. */
  lemma {:induction false} ChainVisitsEnclosingRules<R>(glob: Glob, items: Items<R>, rules: Rules<Node<R>>,
                                                        node: Node<R>, k: nat)
    requires Sorted(items) && BuiltSoFar(glob, items, rules, |items|) && Member(rules, node) && k < |Chain(node)|
    ensures Member(rules, Chain(node)[k])
    ensures Chain(node)[k].name.name.labels != [] ==>
              if k + 1 < |Chain(node)| then Encloses(glob, rules, Chain(node)[k + 1], Chain(node)[k])
              else LinearFind(glob, rules, Enclosing(Chain(node)[k].name)) == None
    decreases k
  {
    if node.zone.Some? {
      LinkEncloses(glob, items, rules, node);
      if k > 0 {
        ChainVisitsEnclosingRules(glob, items, rules, node.zone.value, k - 1);
      }
    } else {
      PartialIndexSuffices(glob, items, rules);
      var i :| 0 <= i < |rules| && rules[i].1 == node;
      assert NodeOk(glob, items, rules, i);
    }
  }

  datatype Address =
    | Addr(v4: Option<seq<nat>>, v6: Option<seq<nat>>)
    | SoaAny | SoaV4 | SoaV6 | IgnAny | IgnV4 | IgnV6

  datatype Data = V4(ip: nat) | V6(ip: nat) | V6Mapped(ip4: nat) | DefaultSoa

  /** What one rule says about an address query: an answer, "leave it alone", or nothing (ask the enclosing rule). */
  datatype Verdict = Reply(data: seq<Data>) | Leave | Ask

  function Decide(address: Option<Address>, qtype: RecordType, noRuleSoa: bool): Verdict {
    if address.None? then Ask
    else
      match address.value
      case Addr(v4, v6) =>
        if !IsIpAddr(qtype) then Leave
        else if qtype.A? && v4.Some? then Reply(seq(|v4.value|, i requires 0 <= i < |v4.value| => V4(v4.value[i])))
        else if qtype.AAAA? && v6.Some? then Reply(seq(|v6.value|, i requires 0 <= i < |v6.value| => V6(v6.value[i])))
        else if qtype.AAAA? && v4.Some? then
          Reply(seq(|v4.value|, i requires 0 <= i < |v4.value| => V6Mapped(v4.value[i])))
        else if !noRuleSoa then Reply([DefaultSoa])
        else Ask
      case SoaAny => if noRuleSoa then Ask else Reply([DefaultSoa])
      case SoaV4 => if !noRuleSoa && qtype.A? then Reply([DefaultSoa]) else Ask
      case SoaV6 => if !noRuleSoa && qtype.AAAA? then Reply([DefaultSoa]) else Ask
      case IgnAny => Leave
      case IgnV4 => if qtype.A? then Leave else Ask
      case IgnV6 => if qtype.AAAA? then Leave else Ask
  }

  /** The first rule of the chain with something to say speaks for all. */
  ghost predicate NearestDecides(chain: seq<Node<Option<Address>>>, qtype: RecordType, noRuleSoa: bool,
                                 r: Option<seq<Data>>)
  {
    || (r == None && forall i :: 0 <= i < |chain| ==> Decide(chain[i].rule, qtype, noRuleSoa).Ask?)
    || exists k :: 0 <= k < |chain|
         && (forall i :: 0 <= i < k ==> Decide(chain[i].rule, qtype, noRuleSoa).Ask?)
         && var v := Decide(chain[k].rule, qtype, noRuleSoa);
            !v.Ask? && r == if v.Reply? then Some(v.data) else None
  }

  /** What a walk over these rules yields, nearest first. */
  function Walked(rules: seq<Option<Address>>, qtype: RecordType, noRuleSoa: bool): Option<seq<Data>> {
    if rules == [] then None
    else
      match Decide(rules[0], qtype, noRuleSoa)
      case Reply(data) => Some(data)
      case Leave => None
      case Ask => Walked(rules[1..], qtype, noRuleSoa)
  }

  function RulesOf(chain: seq<Node<Option<Address>>>): (rules: seq<Option<Address>>)
    ensures |rules| == |chain| && forall i :: 0 <= i < |rules| ==> rules[i] == chain[i].rule
  {
    seq(|chain|, i requires 0 <= i < |chain| => chain[i].rule)
  }

  function ChainOf<R>(node: Option<Node<R>>): seq<Node<R>> {
    if node.Some? then Chain(node.value) else []
  }

  /** The loop over a query's rule and the rules enclosing it; rules are skipped altogether where the listener says so
      and for queries that are not about addresses. */
  method WalkAddressRules(start: Option<Node<Option<Address>>>, qtype: RecordType, noRuleAddr: bool, noRuleSoa: bool)
    returns (r: Option<seq<Data>>)
    ensures noRuleAddr || !IsIpAddr(qtype) ==> r == None
    ensures !noRuleAddr && IsIpAddr(qtype) ==>
              && NearestDecides(ChainOf(start), qtype, noRuleSoa, r)
              && r == Walked(RulesOf(ChainOf(start)), qtype, noRuleSoa)
  {
    if noRuleAddr || !IsIpAddr(qtype) {
      return None;
    }
    var node := start;
    ghost var passed: nat := 0;
    ghost var chain := ChainOf(start);
    ghost var rules := RulesOf(chain);
    assert rules[0..] == rules;
    while node.Some?
      invariant passed <= |chain| && chain[passed..] == ChainOf(node)
      invariant Walked(rules, qtype, noRuleSoa) == Walked(rules[passed..], qtype, noRuleSoa)
      invariant forall i :: 0 <= i < passed ==> Decide(chain[i].rule, qtype, noRuleSoa).Ask?
      decreases node
    {
      assert chain[passed] == ChainOf(node)[0] == node.value;
      assert rules[passed..][0] == node.value.rule && rules[passed..][1..] == rules[passed + 1..];
      match Decide(node.value.rule, qtype, noRuleSoa) {
        case Reply(data) => return Some(data);
        case Leave => return None;
        case Ask =>
      }
      assert chain[passed + 1..] == ChainOf(node)[1..];
      node := node.value.zone;
      passed := passed + 1;
    }
    r := None;
  }
}
