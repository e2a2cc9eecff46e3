/** The domain rule index: hash probes along a walk towards the root, against a linear scan of all patterns. */
module DomainIndex {
  import opened Dns
  import opened Domains

  // ---------- The specification: an association list in order of first insertion ----------

  type Rules<T> = seq<(Pattern, T)>

  ghost predicate DistinctKeys<T>(rules: Rules<T>) {
    forall i, j :: 0 <= i < j < |rules| ==> rules[i].0 != rules[j].0
  }

  function KeyIndex<T>(rules: Rules<T>, p: Pattern): (i: nat)
    ensures i <= |rules|
    ensures i < |rules| ==> rules[i].0 == p
    ensures forall j :: 0 <= j < i ==> rules[j].0 != p
  {
    if rules == [] then 0 else if rules[0].0 == p then 0 else 1 + KeyIndex(rules[1..], p)
  }

  function Put<T>(rules: Rules<T>, p: Pattern, v: T): Rules<T> {
    var i := KeyIndex(rules, p);
    if i < |rules| then rules[i := (p, v)] else rules + [(p, v)]
  }

  function Drop<T>(rules: Rules<T>, p: Pattern): Rules<T> {
    if rules == [] then []
    else
      var rest, r := Drop(rules[..|rules| - 1], p), rules[|rules| - 1];
      if r.0 == p then rest else rest + [r]
  }

  /** Rule `i` is accepted, and no accepted rule ranks before it or, at the same rank, was inserted before it. */
  ghost predicate IsBest<T>(glob: Glob, rules: Rules<T>, n: Name, i: nat) {
    && i < |rules| && Accepts(glob, rules[i].0, n)
    && forall j :: 0 <= j < |rules| && Accepts(glob, rules[j].0, n) ==>
         Rank(rules[i].0, n) < Rank(rules[j].0, n) || (Rank(rules[i].0, n) == Rank(rules[j].0, n) && i <= j)
  }

  function LinearBest<T>(glob: Glob, rules: Rules<T>, n: Name): (b: Option<nat>)
    ensures b.Some? ==> b.value < |rules| && Accepts(glob, rules[b.value].0, n)
  {
    if rules == [] then None
    else
      var k := |rules| - 1;
      var b := LinearBest(glob, rules[..k], n);
      if Accepts(glob, rules[k].0, n) && (b.None? || Rank(rules[k].0, n) < Rank(rules[b.value].0, n)) then Some(k)
      else b
  }

  /** What a full scan of the rules yields: the value of the best accepted rule. */
  function LinearFind<T>(glob: Glob, rules: Rules<T>, n: Name): Option<T> {
    var b := LinearBest(glob, rules, n);
    if b.Some? then Some(rules[b.value].1) else None
  }

  lemma {:induction false} LinearBestIsBest<T>(glob: Glob, rules: Rules<T>, n: Name)
    ensures var b := LinearBest(glob, rules, n);
            && (b.Some? ==> IsBest(glob, rules, n, b.value))
            && (b.None? <==> forall j :: 0 <= j < |rules| ==> !Accepts(glob, rules[j].0, n))
  {
    if rules != [] {
      var k := |rules| - 1;
      LinearBestIsBest(glob, rules[..k], n);
      var b := LinearBest(glob, rules, n);
      var b' := LinearBest(glob, rules[..k], n);
      forall j | 0 <= j < |rules| && Accepts(glob, rules[j].0, n)
        ensures b.Some?
        ensures Rank(rules[b.value].0, n) < Rank(rules[j].0, n)
                || (Rank(rules[b.value].0, n) == Rank(rules[j].0, n) && b.value <= j)
      {
        if j < k {
          assert rules[..k][j] == rules[j];
        }
      }
    }
  }

  lemma BestIsUnique<T>(glob: Glob, rules: Rules<T>, n: Name, i: nat)
    requires IsBest(glob, rules, n, i)
    ensures LinearFind(glob, rules, n) == Some(rules[i].1)
  {
    LinearBestIsBest(glob, rules, n);
    var b := LinearBest(glob, rules, n);
    assert b.Some?;
    assert b.value == i;
  }

  // ---------- One-label patterns per base name ----------

  function Dedup(ws: seq<Pattern>): seq<Pattern> {
    if ws == [] then []
    else
      var rest, w := Dedup(ws[..|ws| - 1]), ws[|ws| - 1];
      if w in rest then rest else rest + [w]
  }

  function Retain(ws: seq<Pattern>, p: Pattern): seq<Pattern> {
    if ws == [] then []
    else
      var rest, w := Retain(ws[..|ws| - 1], p), ws[|ws| - 1];
      if w == p then rest else rest + [w]
  }

  /** The one-label patterns on one base, in order of first insertion. */
  function SubsAt<T>(rules: Rules<T>, base: Name): seq<Pattern> {
    if rules == [] then []
    else
      var rest, p := SubsAt(rules[..|rules| - 1], base), rules[|rules| - 1].0;
      if p.Sub? && p.name == base then rest + [p] else rest
  }

  lemma DedupAppend(ws: seq<Pattern>, w: Pattern)
    ensures Dedup(ws + [w]) == if w in Dedup(ws) then Dedup(ws) else Dedup(ws) + [w]
  {
    assert (ws + [w])[..|ws|] == ws;
  }

  lemma RetainAppend(ws: seq<Pattern>, w: Pattern, p: Pattern)
    ensures Retain(ws + [w], p) == if w == p then Retain(ws, p) else Retain(ws, p) + [w]
  {
    assert (ws + [w])[..|ws|] == ws;
  }

  lemma SubsAppend<T>(rules: Rules<T>, r: (Pattern, T), base: Name)
    ensures SubsAt(rules + [r], base) == SubsAt(rules, base) + if r.0.Sub? && r.0.name == base then [r.0] else []
  {
    assert (rules + [r])[..|rules|] == rules;
    assert SubsAt(rules, base) + [] == SubsAt(rules, base);
  }

  lemma {:induction false} DedupMembers(ws: seq<Pattern>)
    ensures forall w :: w in Dedup(ws) <==> w in ws
  {
    if ws != [] {
      var init, w := ws[..|ws| - 1], ws[|ws| - 1];
      DedupMembers(init);
      assert ws == init + [w];
    }
  }

  lemma {:induction false} RetainMembers(ws: seq<Pattern>, p: Pattern)
    ensures forall w :: w in Retain(ws, p) <==> w in ws && w != p
  {
    if ws != [] {
      var init, w := ws[..|ws| - 1], ws[|ws| - 1];
      RetainMembers(init, p);
      assert ws == init + [w];
    }
  }

  lemma {:induction false} DedupRetain(ws: seq<Pattern>, p: Pattern)
    ensures Dedup(Retain(ws, p)) == Retain(Dedup(ws), p)
  {
    if ws != [] {
      var init, w := ws[..|ws| - 1], ws[|ws| - 1];
      DedupRetain(init, p);
      RetainMembers(Dedup(init), p);
      DedupAppend(Retain(init, p), w);
      RetainAppend(Dedup(init), w, p);
    }
  }

  lemma {:induction false} SubsMembers<T>(rules: Rules<T>, base: Name)
    ensures forall p :: p in SubsAt(rules, base) <==> p.Sub? && p.name == base && KeyIndex(rules, p) < |rules|
  {
    if rules != [] {
      var init, r := rules[..|rules| - 1], rules[|rules| - 1];
      SubsMembers(init, base);
      assert rules == init + [r];
      forall p
        ensures KeyIndex(rules, p) < |rules| <==> KeyIndex(init, p) < |init| || p == r.0
      {
        KeyIndexAppend(init, r, p);
      }
    }
  }

  lemma KeyIndexAppend<T>(rules: Rules<T>, r: (Pattern, T), p: Pattern)
    ensures KeyIndex(rules + [r], p) ==
              if KeyIndex(rules, p) < |rules| then KeyIndex(rules, p)
              else if r.0 == p then |rules| else |rules| + 1
  {
    var i, j := KeyIndex(rules, p), KeyIndex(rules + [r], p);
    var all := rules + [r];
    assert all[|rules|].0 == r.0;
    if i < |rules| {
      assert all[i].0 == p;
    }
    if j < |rules| {
      assert rules[j].0 == p;
    }
  }

  lemma {:induction false} SubsDrop<T>(rules: Rules<T>, p: Pattern, base: Name)
    ensures SubsAt(Drop(rules, p), base) == Retain(SubsAt(rules, base), p)
  {
    if rules != [] {
      var init, r := rules[..|rules| - 1], rules[|rules| - 1];
      SubsDrop(init, p, base);
      SubsAppend(Drop(init, p), r, base);
      RetainAppend(SubsAt(init, base), r.0, p);
    }
  }

  lemma {:induction false} RetainAbsent(ws: seq<Pattern>, p: Pattern)
    requires p !in ws
    ensures Retain(ws, p) == ws
  {
    if ws != [] {
      RetainAbsent(ws[..|ws| - 1], p);
    }
  }

  lemma {:induction false} SubsPutExisting<T>(rules: Rules<T>, i: nat, v: T, base: Name)
    requires i < |rules|
    ensures SubsAt(rules[i := (rules[i].0, v)], base) == SubsAt(rules, base)
  {
    var k := |rules| - 1;
    var rules' := rules[i := (rules[i].0, v)];
    if i < k {
      SubsPutExisting(rules[..k], i, v, base);
      assert rules'[..k] == rules[..k][i := (rules[i].0, v)];
    } else {
      assert rules'[..k] == rules[..k];
    }
  }

  /** The first pattern of a list that matches. */
  function FirstMatch(glob: Glob, ws: seq<Pattern>, n: Name): (r: Option<nat>)
    ensures r.Some? ==> r.value < |ws| && IsMatch(glob, ws[r.value], n)
    ensures r.Some? ==> forall j :: 0 <= j < r.value ==> !IsMatch(glob, ws[j], n)
    ensures r.None? ==> forall j :: 0 <= j < |ws| ==> !IsMatch(glob, ws[j], n)
  {
    if ws == [] then None
    else if IsMatch(glob, ws[0], n) then Some(0)
    else
      var r := FirstMatch(glob, ws[1..], n);
      if r.Some? then Some(r.value + 1) else None
  }

  lemma FirstMatchIs(glob: Glob, ws: seq<Pattern>, n: Name, i: nat)
    requires i < |ws| && IsMatch(glob, ws[i], n) && forall j :: 0 <= j < i ==> !IsMatch(glob, ws[j], n)
    ensures FirstMatch(glob, ws, n) == Some(i)
  {
  }

  /** Repeated insertions do not change which pattern is met first. */
  lemma {:induction false} FirstMatchDedup(glob: Glob, ws: seq<Pattern>, n: Name, i: nat)
    requires i < |ws| && IsMatch(glob, ws[i], n) && forall j :: 0 <= j < i ==> !IsMatch(glob, ws[j], n)
    ensures var r := FirstMatch(glob, Dedup(ws), n); r.Some? && Dedup(ws)[r.value] == ws[i]
  {
    var k := |ws| - 1;
    var init, d := ws[..k], Dedup(ws[..k]);
    if i < k {
      FirstMatchDedup(glob, init, n, i);
      var r := FirstMatch(glob, d, n).value;
      assert Dedup(ws)[..|d|] == d;
      FirstMatchIs(glob, Dedup(ws), n, r);
    } else {
      DedupMembers(init);
      assert forall j :: 0 <= j < |init| ==> init[j] == ws[j] && !IsMatch(glob, init[j], n);
      forall j | 0 <= j < |d|
        ensures !IsMatch(glob, d[j], n)
      {
        assert d[j] in init;
      }
      assert ws[i] !in d;
      assert Dedup(ws) == d + [ws[i]];
      FirstMatchIs(glob, Dedup(ws), n, |d|);
    }
  }

  /** One-label patterns are listed in the order of their rules. */
  lemma {:induction false} SubsInOrder<T>(rules: Rules<T>, base: Name, a: nat, b: nat)
    requires a < b < |SubsAt(rules, base)| && DistinctKeys(rules)
    ensures KeyIndex(rules, SubsAt(rules, base)[a]) < KeyIndex(rules, SubsAt(rules, base)[b]) < |rules|
  {
    var init, r := rules[..|rules| - 1], rules[|rules| - 1];
    assert rules == init + [r];
    SubsAppend(init, r, base);
    SubsMembers(init, base);
    SubsMembers(rules, base);
    var s := SubsAt(rules, base);
    KeyIndexAppend(init, r, s[a]);
    KeyIndexAppend(init, r, s[b]);
    if b < |SubsAt(init, base)| {
      SubsInOrder(init, base, a, b);
    } else {
      assert s[a] in SubsAt(init, base);
      assert s[b] == r.0;
    }
  }

  // ---------- The index represents the rules ----------

  function At(wildcards: map<Name, seq<Pattern>>, base: Name): seq<Pattern> {
    if base in wildcards then wildcards[base] else []
  }

  /** Each rule has its hash entry, and nothing else has. */
  ghost predicate KeysOk<T>(byKey: map<Pattern, T>, rules: Rules<T>) {
    forall p :: var i := KeyIndex(rules, p);
      (p in byKey <==> i < |rules|) && (p in byKey ==> byKey[p] == rules[i].1)
  }

  /** The wildcard lists hold the one-label patterns in order, possibly with repetitions. */
  ghost predicate SubsOk<T>(wildcards: map<Name, seq<Pattern>>, rules: Rules<T>) {
    forall base :: Dedup(At(wildcards, base)) == SubsAt(rules, base)
  }

  ghost predicate Represents<T>(byKey: map<Pattern, T>, wildcards: map<Name, seq<Pattern>>, rules: Rules<T>) {
    DistinctKeys(rules) && AllFqdn(rules) && KeysOk(byKey, rules) && SubsOk(wildcards, rules)
  }

  ghost predicate AllFqdn<T>(rules: Rules<T>) {
    forall i :: 0 <= i < |rules| ==> rules[i].0.name.fqdn
  }

  lemma KeyAt<T>(rules: Rules<T>, i: nat)
    requires DistinctKeys(rules) && i < |rules|
    ensures KeyIndex(rules, rules[i].0) == i
  {
  }

  lemma PutKeys<T>(rules: Rules<T>, p: Pattern, v: T, p': Pattern)
    requires DistinctKeys(rules)
    ensures DistinctKeys(Put(rules, p, v))
    ensures var rules' := Put(rules, p, v);
            var i, i' := KeyIndex(rules, p'), KeyIndex(rules', p');
            && (i' < |rules'| <==> i < |rules| || p' == p)
            && (i' < |rules'| ==> rules'[i'].1 == if p' == p then v else rules[i].1)
  {
    var i := KeyIndex(rules, p);
    var rules' := Put(rules, p, v);
    if i == |rules| {
      KeyIndexAppend(rules, (p, v), p');
    } else {
      var k := KeyIndex(rules, p');
      assert forall j :: 0 <= j < |rules| ==> rules'[j].0 == rules[j].0;
      if k < |rules| {
        assert rules'[k].0 == p';
      }
    }
  }

  lemma {:induction false} DropKeys<T>(rules: Rules<T>, p: Pattern, p': Pattern)
    ensures var rules' := Drop(rules, p);
            var i, i' := KeyIndex(rules, p'), KeyIndex(rules', p');
            && (i' < |rules'| <==> i < |rules| && p' != p)
            && (i' < |rules'| ==> rules'[i'].1 == rules[i].1)
  {
    if rules != [] {
      var init, r := rules[..|rules| - 1], rules[|rules| - 1];
      DropKeys(init, p, p');
      assert rules == init + [r];
      DropKeysLast(init, Drop(init, p), r, p, p');
    }
  }

  lemma DropKeysLast<T>(init: Rules<T>, init': Rules<T>, r: (Pattern, T), p: Pattern, p': Pattern)
    requires var i, i' := KeyIndex(init, p'), KeyIndex(init', p');
             && (i' < |init'| <==> i < |init| && p' != p)
             && (i' < |init'| ==> init'[i'].1 == init[i].1)
    ensures var rules, rules' := init + [r], if r.0 == p then init' else init' + [r];
            var i, i' := KeyIndex(rules, p'), KeyIndex(rules', p');
            && (i' < |rules'| <==> i < |rules| && p' != p)
            && (i' < |rules'| ==> rules'[i'].1 == rules[i].1)
  {
    KeyIndexAppend(init, r, p');
    KeyIndexAppend(init', r, p');
  }

  lemma {:induction false} DropShape<T>(rules: Rules<T>, p: Pattern)
    requires DistinctKeys(rules) && AllFqdn(rules)
    ensures DistinctKeys(Drop(rules, p)) && AllFqdn(Drop(rules, p))
  {
    if rules != [] {
      var init, r := rules[..|rules| - 1], rules[|rules| - 1];
      DropShape(init, p);
      DropKeys(init, p, r.0);
      assert forall k :: 0 <= k < |init| ==> init[k].0 == rules[k].0 != r.0;
      assert KeyIndex(Drop(init, p), r.0) == |Drop(init, p)|;
      assert forall k :: 0 <= k < |Drop(init, p)| ==> Drop(init, p)[k].0 != r.0;
    }
  }

  lemma PutSubs<T>(ws: seq<Pattern>, rules: Rules<T>, p: Pattern, v: T, base: Name)
    requires Dedup(ws) == SubsAt(rules, base)
    ensures SubsAt(Put(rules, p, v), base) == Dedup(if p.Sub? && p.name == base then ws + [p] else ws)
  {
    SubsMembers(rules, base);
    DedupAppend(ws, p);
    var i := KeyIndex(rules, p);
    if i < |rules| {
      SubsPutExisting(rules, i, v, base);
    } else {
      SubsAppend(rules, (p, v), base);
    }
  }

  lemma DropSubs<T>(ws: seq<Pattern>, rules: Rules<T>, p: Pattern, base: Name)
    requires Dedup(ws) == SubsAt(rules, base)
    ensures SubsAt(Drop(rules, p), base) == Dedup(if p.Sub? && p.name == base then Retain(ws, p) else ws)
  {
    SubsMembers(rules, base);
    SubsDrop(rules, p, base);
    DedupRetain(ws, p);
    if !(p.Sub? && p.name == base) {
      RetainAbsent(SubsAt(rules, base), p);
    }
  }

  lemma PutKeysOk<T>(byKey: map<Pattern, T>, rules: Rules<T>, p: Pattern, v: T)
    requires DistinctKeys(rules) && KeysOk(byKey, rules)
    ensures KeysOk(byKey[p := v], Put(rules, p, v))
  {
    forall p' {
      PutKeys(rules, p, v, p');
    }
  }

  lemma DropKeysOk<T>(byKey: map<Pattern, T>, rules: Rules<T>, p: Pattern)
    requires KeysOk(byKey, rules)
    ensures KeysOk(byKey - {p}, Drop(rules, p))
  {
    forall p' {
      DropKeys(rules, p, p');
    }
  }

  function WildcardsPut(wildcards: map<Name, seq<Pattern>>, p: Pattern): map<Name, seq<Pattern>> {
    if p.Sub? then wildcards[p.name := At(wildcards, p.name) + [p]] else wildcards
  }

  function WildcardsDrop(wildcards: map<Name, seq<Pattern>>, p: Pattern): map<Name, seq<Pattern>> {
    if p.Sub? then wildcards[p.name := Retain(At(wildcards, p.name), p)] else wildcards
  }

  lemma PutSubsOk<T>(wildcards: map<Name, seq<Pattern>>, rules: Rules<T>, p: Pattern, v: T)
    requires SubsOk(wildcards, rules)
    ensures SubsOk(WildcardsPut(wildcards, p), Put(rules, p, v))
  {
    forall base
      ensures Dedup(At(WildcardsPut(wildcards, p), base)) == SubsAt(Put(rules, p, v), base)
    {
      PutSubs(At(wildcards, base), rules, p, v, base);
    }
  }

  lemma DropSubsOk<T>(wildcards: map<Name, seq<Pattern>>, rules: Rules<T>, p: Pattern)
    requires SubsOk(wildcards, rules)
    ensures SubsOk(WildcardsDrop(wildcards, p), Drop(rules, p))
  {
    forall base
      ensures Dedup(At(WildcardsDrop(wildcards, p), base)) == SubsAt(Drop(rules, p), base)
    {
      DropSubs(At(wildcards, base), rules, p, base);
    }
  }

  lemma PutFqdn<T>(rules: Rules<T>, p: Pattern, v: T)
    requires AllFqdn(rules) && p.name.fqdn
    ensures AllFqdn(Put(rules, p, v))
  {
  }

  lemma PutRepresents<T>(byKey: map<Pattern, T>, wildcards: map<Name, seq<Pattern>>, rules: Rules<T>, p: Pattern, v: T)
    requires Represents(byKey, wildcards, rules) && p.name.fqdn
    ensures Represents(byKey[p := v], WildcardsPut(wildcards, p), Put(rules, p, v))
  {
    PutKeys(rules, p, v, p);
    PutFqdn(rules, p, v);
    PutKeysOk(byKey, rules, p, v);
    PutSubsOk(wildcards, rules, p, v);
  }

  lemma DropRepresents<T>(byKey: map<Pattern, T>, wildcards: map<Name, seq<Pattern>>, rules: Rules<T>, p: Pattern)
    requires Represents(byKey, wildcards, rules)
    ensures Represents(byKey - {p}, WildcardsDrop(wildcards, p), Drop(rules, p))
  {
    DropShape(rules, p);
    DropKeysOk(byKey, rules, p);
    DropSubsOk(wildcards, rules, p);
  }

  // ---------- Histories ----------

  datatype Edit<T> = Inserted(pattern: Pattern, value: T) | Removed(pattern: Pattern)

  function RulesAfter<T>(edits: seq<Edit<T>>): Rules<T> {
    if edits == [] then []
    else
      var rest, e := RulesAfter(edits[..|edits| - 1]), edits[|edits| - 1];
      match e
      case Inserted(p, v) => Put(rest, Qualified(p), v)
      case Removed(p) => Drop(rest, p)
  }

  /** The value of the last insertion of `p` that no removal followed. */
  function LatestValue<T>(edits: seq<Edit<T>>, p: Pattern): Option<T> {
    if edits == [] then None
    else
      match edits[|edits| - 1]
      case Inserted(p', v) => if Qualified(p') == p then Some(v) else LatestValue(edits[..|edits| - 1], p)
      case Removed(p') => if p' == p then None else LatestValue(edits[..|edits| - 1], p)
  }

  lemma {:induction false} HistoryShape<T>(edits: seq<Edit<T>>)
    ensures DistinctKeys(RulesAfter(edits)) && AllFqdn(RulesAfter(edits))
  {
    if edits != [] {
      var before := RulesAfter(edits[..|edits| - 1]);
      HistoryShape(edits[..|edits| - 1]);
      match edits[|edits| - 1]
      case Inserted(p, v) =>
        PutKeys(before, Qualified(p), v, p);
        PutFqdn(before, Qualified(p), v);
      case Removed(p) => DropShape(before, p);
    }
  }

  /** Over every history, a rule is present exactly when its last edit was an insertion, with the value of that one. */
  lemma {:induction false} HistoryKeepsLatest<T>(edits: seq<Edit<T>>, p: Pattern)
    ensures var rules := RulesAfter(edits);
            var i := KeyIndex(rules, p);
            LatestValue(edits, p) == if i < |rules| then Some(rules[i].1) else None
  {
    if edits != [] {
      var init := edits[..|edits| - 1];
      HistoryKeepsLatest(init, p);
      HistoryShape(init);
      match edits[|edits| - 1]
      case Inserted(p', v) => PutKeys(RulesAfter(init), Qualified(p'), v, p);
      case Removed(p') => DropKeys(RulesAfter(init), p', p);
    }
  }

  // ---------- Probing along the walk ----------

  /** No accepted rule ranks before `k`. */
  ghost predicate NoneBefore<T>(glob: Glob, rules: Rules<T>, q: Name, k: nat) {
    forall j :: 0 <= j < |rules| && Accepts(glob, rules[j].0, q) ==> k <= Rank(rules[j].0, q)
  }

  /** The pattern probed for rank `3 * d + c`, for the three kinds that a base name determines alone. */
  function Probe(q: Name, d: nat, c: nat): Pattern
    requires d <= |q.labels|
  {
    var n := Name(q.labels[d..], true);
    if c == 0 then Full(n) else if c == 1 then Suffix(n) else Default(n)
  }

  lemma ProbeAccepted(glob: Glob, q: Name, d: nat, c: nat)
    requires d <= |q.labels| && c <= 2 && (c == 0 ==> d == 0) && (c == 1 ==> d > 0)
    ensures Accepts(glob, Probe(q, d, c), q) && |Probe(q, d, c).name.labels| == |q.labels| - d
    ensures Rank(Probe(q, d, c), q) == 3 * d + c
  {
    assert q.labels[|q.labels| - |q.labels[d..]|..] == q.labels[d..];
    if d == 0 {
      assert q.labels[0..] == q.labels;
    }
  }

  lemma OnlyProbe(glob: Glob, p: Pattern, q: Name, d: nat, c: nat)
    requires Accepts(glob, p, q) && p.name.fqdn && Rank(p, q) == 3 * d + c
    requires d <= |q.labels| && c <= 2 && (c == 0 ==> d == 0)
    ensures p == Probe(q, d, c)
  {
    RankDeterminesPattern(glob, p, q, d);
  }

  lemma ProbeHit<T>(glob: Glob, rules: Rules<T>, q: Name, d: nat, c: nat)
    requires DistinctKeys(rules) && AllFqdn(rules) && d <= |q.labels| && c <= 2
    requires c == 0 ==> d == 0
    requires c == 1 ==> d > 0
    requires NoneBefore(glob, rules, q, 3 * d + c) && KeyIndex(rules, Probe(q, d, c)) < |rules|
    ensures LinearFind(glob, rules, q) == Some(rules[KeyIndex(rules, Probe(q, d, c))].1)
  {
    var p := Probe(q, d, c);
    var i := KeyIndex(rules, p);
    ProbeAccepted(glob, q, d, c);
    forall j | 0 <= j < |rules| && Accepts(glob, rules[j].0, q) && Rank(rules[j].0, q) == 3 * d + c
      ensures i == j
    {
      OnlyProbe(glob, rules[j].0, q, d, c);
    }
    assert IsBest(glob, rules, q, i);
    BestIsUnique(glob, rules, q, i);
  }

  lemma ProbeMiss<T>(glob: Glob, rules: Rules<T>, q: Name, d: nat, c: nat)
    requires AllFqdn(rules) && d <= |q.labels| && c <= 2
    requires NoneBefore(glob, rules, q, 3 * d + c)
    requires c == 0 ==> d != 1
    requires KeyIndex(rules, Probe(q, d, c)) == |rules| || (c == 0 && d > 0) || (c == 1 && d == 0)
    ensures NoneBefore(glob, rules, q, 3 * d + c + 1)
  {
    forall j | 0 <= j < |rules| && Accepts(glob, rules[j].0, q)
      ensures 3 * d + c + 1 <= Rank(rules[j].0, q)
    {
      var p := rules[j].0;
      assert KeyIndex(rules, Probe(q, d, c)) == |rules| ==> p != Probe(q, d, c);
      if Rank(p, q) == 3 * d + c {
        RankDeterminesPattern(glob, p, q, d);
        assert false;
      }
    }
  }

  lemma SubHit<T>(glob: Glob, rules: Rules<T>, ws: seq<Pattern>, q: Name, i: nat)
    requires DistinctKeys(rules) && AllFqdn(rules) && q.labels != []
    requires Dedup(ws) == SubsAt(rules, Name(q.labels[1..], true)) && NoneBefore(glob, rules, q, 3)
    requires i < |ws| && IsMatch(glob, ws[i], q) && forall j :: 0 <= j < i ==> !IsMatch(glob, ws[j], q)
    ensures KeyIndex(rules, ws[i]) < |rules|
    ensures LinearFind(glob, rules, q) == Some(rules[KeyIndex(rules, ws[i])].1)
  {
    var base := Name(q.labels[1..], true);
    var subs := SubsAt(rules, base);
    FirstMatchDedup(glob, ws, q, i);
    SubsMembers(rules, base);
    var r := FirstMatch(glob, subs, q).value;
    assert subs[r] in subs;
    var k := KeyIndex(rules, ws[i]);
    forall j | 0 <= j < |rules| && Accepts(glob, rules[j].0, q) && Rank(rules[j].0, q) == 3
      ensures k <= j
    {
      RankDeterminesPattern(glob, rules[j].0, q, 1);
      FirstSubIsFirstRule(glob, rules, q, base, r, j);
    }
    assert IsBest(glob, rules, q, k);
    BestIsUnique(glob, rules, q, k);
  }

  lemma FirstSubIsFirstRule<T>(glob: Glob, rules: Rules<T>, q: Name, base: Name, r: nat, j: nat)
    requires DistinctKeys(rules) && j < |rules|
    requires rules[j].0.Sub? && rules[j].0.name == base && IsMatch(glob, rules[j].0, q)
    requires FirstMatch(glob, SubsAt(rules, base), q) == Some(r)
    ensures KeyIndex(rules, SubsAt(rules, base)[r]) <= j
  {
    var p := rules[j].0;
    KeyAt(rules, j);
    var b := PlaceInSubs(rules, base, p);
    FirstMatchBefore(glob, SubsAt(rules, base), q, b);
    SubsOrdered(rules, base, r, b);
  }

  lemma FirstMatchBefore(glob: Glob, ws: seq<Pattern>, n: Name, b: nat)
    requires b < |ws| && IsMatch(glob, ws[b], n)
    ensures var r := FirstMatch(glob, ws, n); r.Some? && r.value <= b
  {
  }

  lemma SubsOrdered<T>(rules: Rules<T>, base: Name, a: nat, b: nat)
    requires a <= b < |SubsAt(rules, base)| && DistinctKeys(rules)
    ensures KeyIndex(rules, SubsAt(rules, base)[a]) <= KeyIndex(rules, SubsAt(rules, base)[b])
  {
    if a < b {
      SubsInOrder(rules, base, a, b);
    }
  }

  lemma PlaceInSubs<T>(rules: Rules<T>, base: Name, p: Pattern) returns (b: nat)
    requires p.Sub? && p.name == base && KeyIndex(rules, p) < |rules|
    ensures b < |SubsAt(rules, base)| && SubsAt(rules, base)[b] == p
  {
    SubsMembers(rules, base);
    assert p in SubsAt(rules, base);
    b :| 0 <= b < |SubsAt(rules, base)| && SubsAt(rules, base)[b] == p;
  }

  lemma SubMiss<T>(glob: Glob, rules: Rules<T>, ws: seq<Pattern>, q: Name)
    requires DistinctKeys(rules) && AllFqdn(rules) && q.labels != []
    requires Dedup(ws) == SubsAt(rules, Name(q.labels[1..], true)) && NoneBefore(glob, rules, q, 3)
    requires forall j :: 0 <= j < |ws| ==> !IsMatch(glob, ws[j], q)
    ensures NoneBefore(glob, rules, q, 4)
  {
    var base := Name(q.labels[1..], true);
    SubsMembers(rules, base);
    DedupMembers(ws);
    forall j | 0 <= j < |rules| && Accepts(glob, rules[j].0, q)
      ensures 4 <= Rank(rules[j].0, q)
    {
      var p := rules[j].0;
      KeyAt(rules, j);
      assert p !in ws;
      if Rank(p, q) == 3 {
        RankDeterminesPattern(glob, p, q, 1);
        assert false;
      }
    }
  }

  lemma NothingLeft<T>(glob: Glob, rules: Rules<T>, q: Name)
    requires NoneBefore(glob, rules, q, 3 * |q.labels| + 3)
    ensures LinearFind(glob, rules, q) == None
  {
    LinearBestIsBest(glob, rules, q);
  }

  function Qualified(p: Pattern): Pattern {
    p.(name := p.name.(fqdn := true))
  }

  /** The name a lookup starts from: a wildcard name stands for its base. */
  function Target(n: Name): Name {
    if IsWildcard(n) then BaseName(n) else n
  }

  class DomainMap<T> {
    const glob: Glob
    var byKey: map<Pattern, T>
    var wildcards: map<Name, seq<Pattern>>
    ghost var rules: Rules<T>

    ghost predicate Valid()
      reads this
    {
      Represents(byKey, wildcards, rules)
    }

    constructor (glob: Glob)
      ensures Valid() && rules == [] && this.glob == glob
    {
      this.glob, byKey, wildcards, rules := glob, map[], map[], [];
    }

    method Insert(pattern: Pattern, v: T) returns (previous: Option<T>)
      requires Valid()
      modifies this
      ensures Valid() && rules == Put(old(rules), Qualified(pattern), v)
      ensures var i := KeyIndex(old(rules), Qualified(pattern));
              previous == if i < |old(rules)| then Some(old(rules)[i].1) else None
    {
      var p := Qualified(pattern);
      PutRepresents(byKey, wildcards, rules, p, v);
      previous := if p in byKey then Some(byKey[p]) else None;
      if p.Sub? {
        wildcards := wildcards[p.name := At(wildcards, p.name) + [p]];
      }
      byKey := byKey[p := v];
      rules := Put(rules, p, v);
    }

    method Remove(p: Pattern) returns (previous: Option<T>)
      requires Valid()
      modifies this
      ensures Valid() && rules == Drop(old(rules), p)
      ensures var i := KeyIndex(old(rules), p);
              previous == if i < |old(rules)| then Some(old(rules)[i].1) else None
    {
      DropRepresents(byKey, wildcards, rules, p);
      previous := if p in byKey then Some(byKey[p]) else None;
      if p.Sub? {
        wildcards := wildcards[p.name := Retain(At(wildcards, p.name), p)];
      }
      byKey := byKey - {p};
      rules := Drop(rules, p);
    }

    /** The scan of the one-label patterns on the parent of `last`. */
    method FindSub(last: Name) returns (r: Option<T>)
      requires Valid() && last.labels != []
      requires NoneBefore(glob, rules, last, 3)
      ensures r.Some? ==> r == LinearFind(glob, rules, last)
      ensures r.None? ==> NoneBefore(glob, rules, last, 4)
    {
      var ws := At(wildcards, BaseName(last));
      for i := 0 to |ws|
        invariant forall j :: 0 <= j < i ==> !IsMatch(glob, ws[j], last)
      {
        if IsMatch(glob, ws[i], last) {
          SubHit(glob, rules, ws, last, i);
          return Some(byKey[ws[i]]);
        }
      }
      SubMiss(glob, rules, ws, last);
      r := None;
    }

    /** One hash probe. Keys are fully qualified, so a name that is not can never hit. */
    method TryKey(p: Pattern, ghost q: Name, ghost d: nat, ghost c: nat) returns (r: Option<T>)
      requires Valid() && d <= |q.labels| && c <= 2
      requires Qualified(p) == Probe(q, d, c) && (p.name.fqdn ==> NoneBefore(glob, rules, q, 3 * d + c))
      requires c == 0 ==> d == 0
      requires c == 1 ==> d > 0
      ensures r.Some? ==> r == LinearFind(glob, rules, q)
      ensures r.None? && p.name.fqdn ==> NoneBefore(glob, rules, q, 3 * d + c + 1)
    {
      if p in byKey {
        assert p.name.fqdn && p == Qualified(p);
        ProbeHit(glob, rules, q, d, c);
        r := Some(byKey[p]);
      } else {
        if p.name.fqdn {
          assert p == Qualified(p);
          ProbeMiss(glob, rules, q, d, c);
        }
        r := None;
      }
    }

    /** All the probes of one turn of the walk, at base name `name`. */
    method ProbeLevel(name: Name, last: Name, lvl: nat, ghost q: Name) returns (r: Option<T>)
      requires Valid() && lvl <= |q.labels| && name.labels == q.labels[lvl..]
      requires lvl > 0 ==> name.fqdn
      requires lvl == 1 ==> last.labels == q.labels
      requires NoneBefore(glob, rules, q, 3 * lvl)
      ensures r.Some? ==> r == LinearFind(glob, rules, q)
      ensures r.None? && name.fqdn ==> NoneBefore(glob, rules, q, 3 * lvl + 3)
    {
      if lvl == 0 {
        r := TryKey(Full(name), q, 0, 0);
        if r.Some? { return; }
        if name.fqdn {
          ProbeMiss(glob, rules, q, 0, 1);
        }
      } else {
        if lvl == 1 {
          SameLabels(glob, rules, last, q);
          r := FindSub(last);
          if r.Some? { return; }
        } else {
          ProbeMiss(glob, rules, q, lvl, 0);
        }
        r := TryKey(Suffix(name), q, lvl, 1);
        if r.Some? { return; }
      }
      r := TryKey(Default(name), q, lvl, 2);
    }

    method Find(name0: Name) returns (r: Option<T>)
      requires Valid()
      ensures r == LinearFind(glob, rules, Target(name0))
    {
      ghost var q := Target(name0);
      if |byKey| == 0 {
        NoRules(glob, byKey, rules, q);
        return None;
      }
      var name := if IsWildcard(name0) then BaseName(name0) else name0;
      var lvl, last := 0, name;
      while true
        invariant 0 <= lvl <= |q.labels| && name.labels == q.labels[lvl..]
        invariant lvl > 0 ==> name.fqdn
        invariant lvl == 1 ==> last.labels == q.labels
        invariant NoneBefore(glob, rules, q, 3 * lvl)
        decreases |name.labels|, if name.fqdn then 0 else 1
      {
        r := ProbeLevel(name, last, lvl, q);
        if r.Some? {
          return;
        }
        if !name.fqdn {
          name := name.(fqdn := true);
          continue;
        }
        if IsRoot(name) {
          break;
        }
        last := name;
        name := BaseName(last);
        lvl := lvl + 1;
      }
      NothingLeft(glob, rules, q);
      r := None;
    }
  }

  lemma NoRules<T>(glob: Glob, byKey: map<Pattern, T>, rules: Rules<T>, q: Name)
    requires DistinctKeys(rules) && KeysOk(byKey, rules) && |byKey| == 0
    ensures LinearFind(glob, rules, q) == None
  {
    assert |byKey.Keys| == 0;
    assert forall p :: p !in byKey;
    if rules != [] {
      KeyAt(rules, 0);
      assert false;
    }
  }

  /** Lookups look at the labels only. */
  lemma SameLabels<T>(glob: Glob, rules: Rules<T>, a: Name, b: Name)
    requires a.labels == b.labels
    ensures LinearFind(glob, rules, a) == LinearFind(glob, rules, b)
    ensures forall k :: NoneBefore(glob, rules, a, k) <==> NoneBefore(glob, rules, b, k)
  {
    forall j | 0 <= j < |rules|
      ensures Accepts(glob, rules[j].0, a) == Accepts(glob, rules[j].0, b)
    {
    }
    LinearBestIsBest(glob, rules, a);
    LinearBestIsBest(glob, rules, b);
    var x := LinearBest(glob, rules, a);
    if x.Some? {
      assert IsBest(glob, rules, b, x.value);
      BestIsUnique(glob, rules, b, x.value);
    }
  }

  // ---------- Matching rules that a lookup overlooks ----------

  /** A pattern that matches `n` and that a lookup of `n` does not take into account: at the root, a one-label pattern;
      for a wildcard name, which is looked up as its base, whatever names it in full, and the one-label and suffix
      patterns on its base. */
  predicate Lost(glob: Glob, p: Pattern, n: Name) {
    if n.labels == [] then p.Sub? && p.name.labels == []
    else
      && IsWildcard(n)
      && match p
         case Full(z) => z.labels == n.labels
         case Default(z) => z.labels == n.labels
         case Suffix(z) => z.labels == n.labels[1..]
         case Sub(w, z) => z.labels == n.labels[1..] && WildcardMatch(glob, w, "*")
  }

  /** What encloses a name encloses its base, unless it is the name itself. */
  lemma ZoneOfBase(z: Name, n: Name)
    requires n.labels != []
    ensures ZoneOf(z, BaseName(n)) <==> ZoneOf(z, n) && z.labels != n.labels
  {
    var base := n.labels[1..];
    if |z.labels| < |n.labels| {
      var k := |base| - |z.labels|;
      assert base[k..] == n.labels[k + 1..];
    } else if |z.labels| == |n.labels| {
      assert n.labels[0..] == n.labels;
    }
  }

  lemma LostIff(glob: Glob, p: Pattern, n: Name)
    ensures IsMatch(glob, p, n) && !Accepts(glob, p, Target(n)) <==> Lost(glob, p, n)
  {
    if IsWildcard(n) {
      LostAtWildcard(glob, p, n);
    }
  }

  lemma LostAtWildcard(glob: Glob, p: Pattern, n: Name)
    requires IsWildcard(n)
    ensures IsMatch(glob, p, n) && !Accepts(glob, p, BaseName(n)) <==> Lost(glob, p, n)
  {
    ZoneOfBase(p.name, n);
    assert n.labels[1..] != n.labels;
    match p
    case Full(z) =>
    case Default(z) => assert n.labels[0..] == n.labels;
    case Suffix(z) => assert n.labels[1..] == BaseName(n).labels;
    case Sub(w, z) => assert BaseName(n).labels != [] ==> BaseName(n).labels[1..] != n.labels[1..];
  }

  /** A lookup finds nothing although a rule matches, if and only if some rule is lost and none is accepted for the name
      that is looked up. A name that is neither the root nor a wildcard loses no rule. */
  lemma MissedIff<T>(glob: Glob, rules: Rules<T>, n: Name)
    ensures (LinearFind(glob, rules, Target(n)) == None && exists j :: 0 <= j < |rules| && IsMatch(glob, rules[j].0, n))
            <==>
            && (exists j :: 0 <= j < |rules| && Lost(glob, rules[j].0, n))
            && (forall j :: 0 <= j < |rules| ==> !Accepts(glob, rules[j].0, Target(n)))
    ensures n.labels != [] && !IsWildcard(n) ==> forall j :: 0 <= j < |rules| ==> !Lost(glob, rules[j].0, n)
  {
    LinearBestIsBest(glob, rules, Target(n));
    forall j | 0 <= j < |rules|
      ensures IsMatch(glob, rules[j].0, n) && !Accepts(glob, rules[j].0, Target(n)) <==> Lost(glob, rules[j].0, n)
    {
      LostIff(glob, rules[j].0, n);
    }
  }

  /** The root matches a one-label pattern on the root, and a lookup of it finds nothing. */
  lemma RootIsMissed(glob: Glob)
    ensures var root := Name([], true);
            var rules := [(Sub("", root), 7)];
            IsMatch(glob, rules[0].0, root) && LinearFind(glob, rules, Target(root)) == None
  {
    var root := Name([], true);
    var rules := [(Sub("", root), 7)];
    LostIff(glob, rules[0].0, root);
    MissedIff(glob, rules, root);
  }

  /** `*.example.com.` matches the rule `*.example.com`, and a lookup of it finds nothing. */
  lemma WildcardNameIsMissed(glob: Glob)
    ensures var n := Name(["*", "example", "com"], true);
            var rules := [(Sub("", Name(["example", "com"], true)), 7)];
            IsMatch(glob, rules[0].0, n) && LinearFind(glob, rules, Target(n)) == None
  {
    var n := Name(["*", "example", "com"], true);
    var rules := [(Sub("", Name(["example", "com"], true)), 7)];
    assert n.labels[1..] == ["example", "com"];
    LostIff(glob, rules[0].0, n);
    MissedIff(glob, rules, n);
  }

  /** A rule that is found matches the name that was asked for, unless that name is a wildcard and the rule is exact or
      a one-label pattern: then it matches the base of the name and never the name itself. */
  lemma FoundMatchesIff(glob: Glob, p: Pattern, n: Name)
    requires Accepts(glob, p, Target(n))
    ensures IsMatch(glob, p, n) <==> !IsWildcard(n) || p.Suffix? || p.Default?
  {
    if IsWildcard(n) {
      var t := BaseName(n);
      ZoneOfBase(p.name, n);
      match p
      case Full(z) => assert |z.labels| < |n.labels|;
      case Sub(_, z) => assert |z.labels| < |n.labels[1..]|;
      case _ =>
    }
  }

  /** `*.example.com.` is given the rule for exactly `example.com`, which does not match it. */
  lemma WildcardNameGetsOtherRule(glob: Glob)
    ensures var n := Name(["*", "example", "com"], true);
            var rules := [(Full(Name(["example", "com"], true)), 7)];
            !IsMatch(glob, rules[0].0, n) && LinearFind(glob, rules, Target(n)) == Some(7)
  {
    var n := Name(["*", "example", "com"], true);
    var rules := [(Full(Name(["example", "com"], true)), 7)];
    assert n.labels[1..] == ["example", "com"];
    assert Target(n) == Name(["example", "com"], true);
    assert IsBest(glob, rules, Target(n), 0);
    BestIsUnique(glob, rules, Target(n), 0);
    FoundMatchesIff(glob, rules[0].0, n);
  }

  // ---------- What a found rule says ----------

  /** The rule applies to the name, told by labels: `prefix` is what the name has in front of the rule's own labels. */
  ghost predicate AppliesWith(glob: Glob, p: Pattern, labels: seq<Label>, prefix: seq<Label>) {
    && labels == prefix + p.name.labels
    && match p
       case Full(_) => prefix == []
       case Default(_) => true
       case Suffix(_) => prefix != []
       case Sub(w, _) => |prefix| == 1 && (w == "" || glob(w, prefix[0]))
  }

  lemma AcceptedApplies(glob: Glob, p: Pattern, n: Name)
    ensures Accepts(glob, p, n) <==>
              && |p.name.labels| <= |n.labels|
              && AppliesWith(glob, p, n.labels, n.labels[..|n.labels| - |p.name.labels|])
  {
    if |p.name.labels| <= |n.labels| {
      var k := |n.labels| - |p.name.labels|;
      var prefix := n.labels[..k];
      assert n.labels == prefix + n.labels[k..];
      if Accepts(glob, p, n) {
        MatchEncloses(glob, p, n);
      } else if n.labels == prefix + p.name.labels {
        assert n.labels[k..] == p.name.labels;
        if k == 1 {
          assert n.labels[1..] == p.name.labels && prefix[0] == n.labels[0];
        }
      }
    } else if Accepts(glob, p, n) {
      MatchEncloses(glob, p, n);
      assert false;
    }
  }

  /** A lookup finds a rule if and only if some rule applies to the name looked up, and the rule it finds does: an exact
      rule has just its labels, a one-label rule one more, whose wildcard is empty or accepts it, a suffix rule at least
      one more, a default rule any number. */
  lemma FoundApplies<T>(glob: Glob, rules: Rules<T>, n: Name)
    ensures var b := LinearBest(glob, rules, n);
            && (LinearFind(glob, rules, n).Some? <==> b.Some?)
            && (b.Some? ==> exists prefix :: AppliesWith(glob, rules[b.value].0, n.labels, prefix))
            && (b.None? ==> forall j, prefix :: 0 <= j < |rules| ==> !AppliesWith(glob, rules[j].0, n.labels, prefix))
  {
    LinearBestIsBest(glob, rules, n);
    var b := LinearBest(glob, rules, n);
    if b.Some? {
      AcceptedApplies(glob, rules[b.value].0, n);
    } else {
      forall j, prefix | 0 <= j < |rules|
        ensures !AppliesWith(glob, rules[j].0, n.labels, prefix)
      {
        AcceptedApplies(glob, rules[j].0, n);
        var p := rules[j].0;
        if n.labels == prefix + p.name.labels {
          assert n.labels[..|n.labels| - |p.name.labels|] == prefix;
        }
      }
    }
  }
}
