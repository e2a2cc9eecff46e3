/** What holds in every reachable state of the cache, whatever the run of operations: the sharded, evicting,
    heap-assisted cache against one plain map from each query to its last write. */
module CacheRuns {
  import opened Dns
  import opened Lru
  import opened CacheModel
  import opened Permutations

  datatype Loaded = Loaded(data: Response, validUntil: nat, hits: nat)

  /** Operations with their observed results; `pops` resolves ties in the heap's order. */
  datatype Op =
    | Insert(query: Query, records: seq<Record>, group: string, now: nat)
    | Negative(query: Query, response: Response, group: string, now: nat)
    | Load(items: seq<Loaded>)
    | Get(query: Query, now: nat, served: Option<Served>)
    | Scan(now: nat, ahead: Option<nat>, baseInterval: nat, maxCount: nat,
           pops: seq<PrefetchKey>, result: seq<Found>, wait: nat)
    | Clear

  // ---------- What is written ----------

  function LeastTtl(records: seq<Record>, bound: nat): (t: nat)
    ensures t <= bound
    ensures forall i :: 0 <= i < |records| ==> t <= records[i].ttl
    ensures t == bound || exists i :: 0 <= i < |records| && t == records[i].ttl
  {
    if records == [] then bound
    else
      var rest := LeastTtl(records[..|records| - 1], bound);
      Min(rest, records[|records| - 1].ttl)
  }

  function Answer(q: Query, records: seq<Record>, group: string): Response {
    Response(q, NoError, records, [], Some(group))
  }

  /** The minimum field of the first SOA in the authority section. */
  function FirstSoaMinimum(authorities: seq<Record>): (r: Option<nat>)
    ensures r.None? <==> forall i :: 0 <= i < |authorities| ==> !authorities[i].data.Authority?
    ensures r.Some? ==> exists i :: 0 <= i < |authorities| && authorities[i].data == Authority(r.value)
                                    && forall j :: 0 <= j < i ==> !authorities[j].data.Authority?
  {
    if authorities == [] then None
    else if authorities[0].data.Authority? then Some(authorities[0].data.minimum)
    else
      assert forall i :: 1 <= i < |authorities| ==> authorities[i] == authorities[1..][i - 1];
      FirstSoaMinimum(authorities[1..])
  }

  function NegativeTtl(r: Response): (ttl: nat)
    ensures 60 <= ttl <= 3600
    ensures FirstSoaMinimum(r.authorities) == None ==> ttl == 600
    ensures forall m :: FirstSoaMinimum(r.authorities) == Some(m) ==>
              ttl == if m < 60 then 60 else if m > 3600 then 3600 else m
  {
    var soa := FirstSoaMinimum(r.authorities);
    Min(if soa.Some? then Max(soa.value, 60) else 600, 3600)
  }

  function NegativeAnswer(r: Response, group: string): Response {
    r.(group := Some(group), answers := CapTtl(r.answers, NegativeTtl(r)))
  }

  function Fresh(data: Response, validUntil: nat): Entry {
    Entry(data, validUntil, false, None, 0)
  }

  function InsertEntry(q: Query, records: seq<Record>, group: string, now: nat): Entry {
    Fresh(Answer(q, records, group), now + LeastTtl(records, DEFAULT_LIFETIME) * SECOND)
  }

  function NegativeEntry(r: Response, group: string, now: nat): Entry {
    Fresh(NegativeAnswer(r, group), now + NegativeTtl(r) * SECOND)
  }

  function LoadedEntry(item: Loaded): Entry {
    Fresh(item.data, item.validUntil).(hits := item.hits)
  }

  function AdmitAll(cfg: Config, s: State, items: seq<Loaded>): (s': State)
    requires Shaped(cfg, s)
    ensures Shaped(cfg, s')
  {
    if items == [] then s
    else
      var item := items[|items| - 1];
      var before := AdmitAll(cfg, s, items[..|items| - 1]);
      Admit(cfg, before, item.data.query, LoadedEntry(item))
        .(heap := before.heap + multiset{PrefetchKey(item.validUntil, item.data.query)})
  }

  // ---------- Runs ----------

  ghost predicate Step(cfg: Config, s: State, op: Op, s': State)
    requires Shaped(cfg, s)
  {
    match op
    case Insert(q, records, group, now) =>
      var e := InsertEntry(q, records, group, now);
      && Enforced(cfg, Store(cfg, s, q, e), s'.(heap := s.heap))
      && s'.heap == s.heap + multiset{PrefetchKey(e.validUntil, q)}
    case Negative(q, r, group, now) =>
      Enforced(cfg, Store(cfg, s, q, NegativeEntry(r, group, now)), s')
    case Load(items) =>
      Enforced(cfg, AdmitAll(cfg, s, items), s')
    case Get(q, now, served) =>
      var e := Lookup(cfg, s.shards, q);
      && s' == Touch(cfg, s, q)
      && served == if e.Some? then Some(Serve(cfg, e.value, q, now)) else None
    case Scan(now, ahead, base, maxCount, pops, result, wait) =>
      ScanStep(cfg, s, Threshold(cfg, now, ahead), base, maxCount, pops, result, wait, s')
    case Clear =>
      s' == Init(cfg)
  }

  ghost predicate Steps(cfg: Config, s: State, ops: seq<Op>, s': State)
    requires Shaped(cfg, s)
    decreases |ops|
  {
    if ops == [] then s' == s
    else exists m :: Shaped(cfg, m) && Steps(cfg, s, ops[..|ops| - 1], m) && Step(cfg, m, ops[|ops| - 1], s')
  }

  // ---------- The specification: one map, last write wins ----------

  datatype Kind = Positive | Denial | Restored

  datatype Write = Write(data: Response, validUntil: nat, kind: Kind, at: nat)

  function LastAfterLoad(last: map<Query, Write>, items: seq<Loaded>): map<Query, Write> {
    if items == [] then last
    else
      var item := items[|items| - 1];
      LastAfterLoad(last, items[..|items| - 1])[item.data.query := Write(item.data, item.validUntil, Restored, 0)]
  }

  function LastAfter(last: map<Query, Write>, op: Op): map<Query, Write> {
    match op
    case Insert(q, records, group, now) =>
      var e := InsertEntry(q, records, group, now);
      last[q := Write(e.data, e.validUntil, Positive, now)]
    case Negative(q, r, group, now) =>
      var e := NegativeEntry(r, group, now);
      last[q := Write(e.data, e.validUntil, Denial, now)]
    case Load(items) => LastAfterLoad(last, items)
    case Get(_, _, _) => last
    case Scan(_, _, _, _, _, _, _) => last
    case Clear => map[]
  }

  function LastWrites(ops: seq<Op>): map<Query, Write> {
    if ops == [] then map[] else LastAfter(LastWrites(ops[..|ops| - 1]), ops[|ops| - 1])
  }

  /** Some heap key for `q` falls due no later than `t`. */
  ghost predicate Covered(heap: multiset<PrefetchKey>, q: Query, t: nat) {
    exists k :: k in heap && k.query == q && k.exp <= t
  }

  /** The resident entry of `q` is its last write, and the heap will bring it up in time. */
  ghost predicate Faithful(last: map<Query, Write>, heap: multiset<PrefetchKey>, q: Query, e: Entry) {
    && q in last
    && e.data == last[q].data
    && e.validUntil == last[q].validUntil
    && (!last[q].kind.Denial? && !e.inPrefetch && IsIpAddr(q.qtype) ==> Covered(heap, q, e.validUntil))
  }

  ghost predicate Refines(cfg: Config, s: State, last: map<Query, Write>) {
    && Sound(cfg, s)
    && forall q :: Lookup(cfg, s.shards, q).Some? ==> Faithful(last, s.heap, q, Lookup(cfg, s.shards, q).value)
  }

  // ---------- One step keeps the refinement ----------

  lemma LookupAfterUse(cfg: Config, shards: seq<Slots>, q: Query, e: Entry, q': Query)
    requires |cfg.caps| > 0 && |shards| == |cfg.caps|
    requires var k := Route(cfg, q); Distinct(shards[k]) && IndexOf(shards[k], q) < |shards[k]|
    ensures var k := Route(cfg, q);
            var shards' := shards[k := [Slot(q, e)] + Without(shards[k], IndexOf(shards[k], q))];
            Lookup(cfg, shards', q') == if q' == q then Some(e) else Lookup(cfg, shards, q')
  {
    var k := Route(cfg, q);
    FindAfterUse(shards[k], IndexOf(shards[k], q), e, q');
  }

  lemma LookupAfterAdmit(cfg: Config, s: State, q: Query, e: Entry, q': Query)
    requires Sound(cfg, s)
    ensures var r := Lookup(cfg, Admit(cfg, s, q, e).shards, q');
            if q' == q then r == Some(e) else r == Lookup(cfg, s.shards, q') || r == None
  {
    var k := Route(cfg, q);
    FindAfterPush(s.shards[k], cfg.caps[k], q, e, q');
  }

  lemma LookupAfterStore(cfg: Config, s: State, q: Query, e: Entry, q': Query)
    requires Sound(cfg, s)
    ensures var r := Lookup(cfg, Store(cfg, s, q, e).shards, q');
            if q' == q then r.Some? && r.value.data == e.data && r.value.validUntil == e.validUntil
            else r == Lookup(cfg, s.shards, q') || r == None
  {
    var k := Route(cfg, q);
    var i := IndexOf(s.shards[k], q);
    if i < |s.shards[k]| {
      LookupAfterUse(cfg, s.shards, q, Refresh(s.shards[k][i].value, e), q');
    } else {
      LookupAfterAdmit(cfg, s, q, e, q');
    }
  }

  lemma CoverGrows(heap: multiset<PrefetchKey>, more: multiset<PrefetchKey>, q: Query, t: nat)
    requires Covered(heap, q, t)
    ensures Covered(heap + more, q, t)
  {
    var k :| k in heap && k.query == q && k.exp <= t;
    assert k in heap + more;
  }

  /** Shared by both kinds of write: what is stored, and what the budget pass leaves of it. */
  lemma StoreRefines(cfg: Config, s: State, last: map<Query, Write>, q: Query, e: Entry, w: Write,
                     more: multiset<PrefetchKey>, s': State)
    requires Refines(cfg, s, last) && e.failureTime == None
    requires w.data == e.data && w.validUntil == e.validUntil
    requires w.kind.Denial? || PrefetchKey(e.validUntil, q) in more
    requires Enforced(cfg, Store(cfg, s, q, e), s'.(heap := s.heap)) && s'.heap == s.heap + more
    ensures Refines(cfg, s', last[q := w])
  {
    var mid := Store(cfg, s, q, e);
    StoreIsSound(cfg, s, q, e);
    EnforcedIsSound(cfg, mid, s'.(heap := s.heap));
    forall q' | Lookup(cfg, s'.shards, q').Some?
      ensures Faithful(last[q := w], s'.heap, q', Lookup(cfg, s'.shards, q').value)
    {
      LookupAfterStore(cfg, s, q, e, q');
      if q' == q {
        assert w.kind.Denial? || Covered(s'.heap, q, e.validUntil);
      } else if Covered(s.heap, q', Lookup(cfg, s'.shards, q').value.validUntil) {
        CoverGrows(s.heap, more, q', Lookup(cfg, s'.shards, q').value.validUntil);
      }
    }
  }

  lemma {:induction false} AdmitAllRefines(cfg: Config, s: State, last: map<Query, Write>, items: seq<Loaded>)
    requires Refines(cfg, s, last)
    ensures Refines(cfg, AdmitAll(cfg, s, items), LastAfterLoad(last, items))
  {
    if items != [] {
      var item := items[|items| - 1];
      var init := items[..|items| - 1];
      AdmitAllRefines(cfg, s, last, init);
      var before := AdmitAll(cfg, s, init);
      var q, e := item.data.query, LoadedEntry(item);
      var key := PrefetchKey(item.validUntil, q);
      AdmitIsSound(cfg, before, q, e);
      var after := AdmitAll(cfg, s, items);
      forall q' | Lookup(cfg, after.shards, q').Some?
        ensures Faithful(LastAfterLoad(last, items), after.heap, q', Lookup(cfg, after.shards, q').value)
      {
        LookupAfterAdmit(cfg, before, q, e, q');
        if q' == q {
          assert key in after.heap;
        } else if Covered(before.heap, q', Lookup(cfg, after.shards, q').value.validUntil) {
          CoverGrows(before.heap, multiset{key}, q', Lookup(cfg, after.shards, q').value.validUntil);
        }
      }
    }
  }

  lemma EnforcedRefines(cfg: Config, s: State, s': State, last: map<Query, Write>)
    requires Refines(cfg, s, last) && Enforced(cfg, s, s')
    ensures Refines(cfg, s', last)
  {
    EnforcedIsSound(cfg, s, s');
  }

  lemma TouchIsSound(cfg: Config, s: State, q: Query)
    requires Sound(cfg, s)
    ensures Sound(cfg, Touch(cfg, s, q))
  {
    var k := Route(cfg, q);
    var i := IndexOf(s.shards[k], q);
    if i < |s.shards[k]| {
      var e := s.shards[k][i].value;
      UseIsSound(cfg, s, k, i, e.(hits := e.hits + 1));
    }
  }

  lemma TouchResident(cfg: Config, s: State, q: Query, q': Query)
    requires Shaped(cfg, s) && Distinct(s.shards[Route(cfg, q)]) && Lookup(cfg, s.shards, q).Some?
    ensures var e := Lookup(cfg, s.shards, q).value;
            Lookup(cfg, Touch(cfg, s, q).shards, q') ==
              if q' == q then Some(e.(hits := e.hits + 1)) else Lookup(cfg, s.shards, q')
  {
    var k := Route(cfg, q);
    var slots := s.shards[k];
    var i := IndexOf(slots, q);
    var e := slots[i].value;
    LookupAfterUse(cfg, s.shards, q, e.(hits := e.hits + 1), q');
    assert Touch(cfg, s, q).shards == s.shards[k := [Slot(q, e.(hits := e.hits + 1))] + Without(slots, i)];
  }

  lemma TouchAbsent(cfg: Config, s: State, q: Query)
    requires Shaped(cfg, s) && Lookup(cfg, s.shards, q) == None
    ensures Touch(cfg, s, q) == s
  {
  }

  lemma TouchLookup(cfg: Config, s: State, q: Query, q': Query)
    requires Sound(cfg, s)
    ensures var e := Lookup(cfg, s.shards, q');
            Lookup(cfg, Touch(cfg, s, q).shards, q') ==
              if q' == q && e.Some? then Some(e.value.(hits := e.value.hits + 1)) else e
  {
    assert ShardOk(cfg, Route(cfg, q), s.shards[Route(cfg, q)]);
    if Lookup(cfg, s.shards, q).Some? {
      TouchResident(cfg, s, q, q');
    } else {
      TouchAbsent(cfg, s, q);
    }
  }

  lemma TouchRefines(cfg: Config, s: State, last: map<Query, Write>, q: Query)
    requires Refines(cfg, s, last)
    ensures Refines(cfg, Touch(cfg, s, q), last)
  {
    TouchIsSound(cfg, s, q);
    forall q' {
      TouchLookup(cfg, s, q, q');
    }
  }

  // ---------- The scan ----------

  ghost predicate Reported(found: seq<Found>, q: Query) {
    exists i :: 0 <= i < |found| && found[i].query == q
  }

  /** An entry that a full-table scan at this threshold would report. */
  ghost predicate Due(q: Query, e: Entry, threshold: nat) {
    IsIpAddr(q.qtype) && !e.inPrefetch && e.validUntil < threshold
  }

  /** Relation between the table before a scan and after some of its pops. */
  ghost predicate Scanned(cfg: Config, shards: seq<Slots>, acc: ScanAcc, q: Query)
    requires |cfg.caps| > 0 && |shards| == |cfg.caps| && |acc.shards| == |cfg.caps|
  {
    var before := Lookup(cfg, shards, q);
    Lookup(cfg, acc.shards, q) ==
      if before.Some? && Reported(acc.found, q) then Some(before.value.(inPrefetch := true)) else before
  }

  ghost predicate FoundOk(cfg: Config, shards: seq<Slots>, f: Found, threshold: nat)
    requires |cfg.caps| > 0 && |shards| == |cfg.caps|
  {
    var e := Lookup(cfg, shards, f.query);
    e.Some? && Due(f.query, e.value, threshold) && f.hits == e.value.hits && f.group == e.value.data.group
  }

  /** A popped key is not lost: what it stood for was reported, put back, or needs no refresh. */
  ghost predicate Answered(cfg: Config, acc: ScanAcc, key: PrefetchKey)
    requires |cfg.caps| > 0 && |acc.shards| == |cfg.caps|
  {
    var e := Lookup(cfg, acc.shards, key.query);
    || e == None
    || e.value.inPrefetch
    || !IsIpAddr(key.query.qtype)
    || PrefetchKey(e.value.validUntil, key.query) in acc.requeue
  }

  ghost predicate ScanFacts(cfg: Config, s: State, pops: seq<PrefetchKey>, threshold: nat, acc: ScanAcc)
    requires Shaped(cfg, s) && |acc.shards| == |cfg.caps|
  {
    && Sound(cfg, s.(shards := acc.shards))
    && (forall q :: Scanned(cfg, s.shards, acc, q))
    && (forall i :: 0 <= i < |acc.found| ==> FoundOk(cfg, s.shards, acc.found[i], threshold))
    && (forall i, j :: 0 <= i < j < |acc.found| ==> acc.found[i].query != acc.found[j].query)
    && (forall i :: 0 <= i < |pops| ==> Answered(cfg, acc, pops[i]))
    && (forall i :: 0 <= i < |acc.requeue| ==> acc.requeue[i].exp >= threshold)
    && |acc.found| + |acc.requeue| <= |pops|
  }

  /** One pop, seen through `Lookup`. */
  lemma ScanOneLookup(cfg: Config, s: State, acc: ScanAcc, key: PrefetchKey, threshold: nat, base: nat)
    requires Sound(cfg, s) && |acc.shards| == |cfg.caps| && Sound(cfg, s.(shards := acc.shards))
    ensures var r := ScanOne(cfg, acc, key, threshold, base);
            var e := Lookup(cfg, acc.shards, key.query);
            && Sound(cfg, s.(shards := r.shards))
            && (forall q :: Lookup(cfg, r.shards, q) ==
                  if q == key.query && e.Some? && Due(q, e.value, threshold)
                  then Some(e.value.(inPrefetch := true)) else Lookup(cfg, acc.shards, q))
            && r.found == acc.found + (if e.Some? && Due(key.query, e.value, threshold)
                                       then [Found(key.query, e.value.hits, e.value.data.group)] else [])
            && r.requeue == acc.requeue + (if e.Some? && IsIpAddr(key.query.qtype) && !e.value.inPrefetch
                                              && threshold <= e.value.validUntil
                                           then [PrefetchKey(e.value.validUntil, key.query)] else [])
  {
    var k := Route(cfg, key.query);
    var slots := acc.shards[k];
    var i := IndexOf(slots, key.query);
    if i < |slots| {
      var e := slots[i].value;
      var e' := if Due(key.query, e, threshold) then e.(inPrefetch := true) else e;
      UseIsSound(cfg, s.(shards := acc.shards), k, i, e');
      forall q {
        LookupAfterUse(cfg, acc.shards, key.query, e', q);
      }
      assert slots[i] == Slot(key.query, e);
    }
  }

  lemma ReportedAppend(found: seq<Found>, f: Found, q: Query)
    ensures Reported(found + [f], q) <==> Reported(found, q) || f.query == q
  {
    if Reported(found, q) {
      var i :| 0 <= i < |found| && found[i].query == q;
      assert (found + [f])[i].query == q;
    } else if f.query == q {
      assert (found + [f])[|found|].query == q;
    }
  }

  lemma {:induction false} ScanAllFacts(cfg: Config, s: State, pops: seq<PrefetchKey>, threshold: nat, base: nat)
    requires Sound(cfg, s)
    ensures ScanFacts(cfg, s, pops, threshold, ScanAll(cfg, s.shards, pops, threshold, base))
  {
    if pops != [] {
      var init := pops[..|pops| - 1];
      ScanAllFacts(cfg, s, init, threshold, base);
      var acc := ScanAll(cfg, s.shards, init, threshold, base);
      ScanOneFacts(cfg, s, init, acc, pops[|pops| - 1], threshold, base);
      assert pops == init + [pops[|pops| - 1]];
    } else {
      assert s.(shards := s.shards) == s;
    }
  }

  lemma ScanOneFacts(cfg: Config, s: State, init: seq<PrefetchKey>, acc: ScanAcc, key: PrefetchKey,
                     threshold: nat, base: nat)
    requires Sound(cfg, s) && |acc.shards| == |cfg.caps| && ScanFacts(cfg, s, init, threshold, acc)
    ensures ScanFacts(cfg, s, init + [key], threshold, ScanOne(cfg, acc, key, threshold, base))
  {
    var r := ScanOne(cfg, acc, key, threshold, base);
    var e := Lookup(cfg, acc.shards, key.query);
    ScanOneLookup(cfg, s, acc, key, threshold, base);
    assert Scanned(cfg, s.shards, acc, key.query);
    if e.Some? && Due(key.query, e.value, threshold) {
      var f := Found(key.query, e.value.hits, e.value.data.group);
      assert !Reported(acc.found, key.query);
      forall q
        ensures Scanned(cfg, s.shards, r, q)
      {
        assert Scanned(cfg, s.shards, acc, q);
        ReportedAppend(acc.found, f, q);
      }
      forall i, j | 0 <= i < j < |r.found|
        ensures r.found[i].query != r.found[j].query
      {
        assert j == |acc.found| ==> acc.found[i].query != key.query;
      }
    } else {
      forall q
        ensures Scanned(cfg, s.shards, r, q)
      {
        assert Scanned(cfg, s.shards, acc, q);
      }
    }
    AllAnswered(cfg, init, acc, key, threshold, base, s);
  }

  lemma AllAnswered(cfg: Config, init: seq<PrefetchKey>, acc: ScanAcc, key: PrefetchKey, threshold: nat, base: nat,
                    s: State)
    requires Sound(cfg, s) && |acc.shards| == |cfg.caps| && ScanFacts(cfg, s, init, threshold, acc)
    ensures var r := ScanOne(cfg, acc, key, threshold, base);
            forall i :: 0 <= i < |init + [key]| ==> Answered(cfg, r, (init + [key])[i])
  {
    var r := ScanOne(cfg, acc, key, threshold, base);
    ScanOneLookup(cfg, s, acc, key, threshold, base);
    var e := Lookup(cfg, acc.shards, key.query);
    forall i | 0 <= i < |init + [key]|
      ensures Answered(cfg, r, (init + [key])[i])
    {
      var p := (init + [key])[i];
      if i < |init| {
        assert Answered(cfg, acc, init[i]);
      } else if e.Some? && !e.value.inPrefetch && IsIpAddr(key.query.qtype) && threshold <= e.value.validUntil {
        assert r.requeue[|acc.requeue|] == PrefetchKey(e.value.validUntil, key.query);
      }
    }
  }

  /** What the refinement needs to know of a scan: where its keys went and what became of the table. */
  lemma PopsRefine(cfg: Config, s: State, last: map<Query, Write>, threshold: nat, base: nat, pops: seq<PrefetchKey>,
                   s': State)
    requires Refines(cfg, s, last) && multiset(pops) <= s.heap
    requires var acc := ScanAll(cfg, s.shards, pops, threshold, base);
             s' == State(acc.shards, s.heap - multiset(pops) + multiset(acc.requeue), s.totalBytes)
    ensures Refines(cfg, s', last)
  {
    var acc := ScanAll(cfg, s.shards, pops, threshold, base);
    ScanAllFacts(cfg, s, pops, threshold, base);
    forall q | Lookup(cfg, s'.shards, q).Some?
      ensures Faithful(last, s'.heap, q, Lookup(cfg, s'.shards, q).value)
    {
      assert Scanned(cfg, s.shards, acc, q);
      var e := Lookup(cfg, s'.shards, q).value;
      if !last[q].kind.Denial? && !e.inPrefetch && IsIpAddr(q.qtype) {
        var k :| k in s.heap && k.query == q && k.exp <= e.validUntil;
        CoverSurvives(cfg, s, s', acc, pops, k);
      }
    }
  }

  lemma ScanRefines(cfg: Config, s: State, last: map<Query, Write>, threshold: nat, base: nat, maxCount: nat,
                    pops: seq<PrefetchKey>, result: seq<Found>, wait: nat, s': State)
    requires Refines(cfg, s, last) && ScanStep(cfg, s, threshold, base, maxCount, pops, result, wait, s')
    ensures Refines(cfg, s', last)
  {
    PopsRefine(cfg, s, last, threshold, base, pops, s');
  }

  lemma CoverSurvives(cfg: Config, s: State, s': State, acc: ScanAcc, pops: seq<PrefetchKey>, k: PrefetchKey)
    requires Shaped(cfg, s) && |acc.shards| == |cfg.caps| && multiset(pops) <= s.heap
    requires s'.heap == s.heap - multiset(pops) + multiset(acc.requeue)
    requires forall i :: 0 <= i < |pops| ==> Answered(cfg, acc, pops[i])
    requires var e := Lookup(cfg, acc.shards, k.query);
             e.Some? && !e.value.inPrefetch && IsIpAddr(k.query.qtype) && k.exp <= e.value.validUntil
    requires k in s.heap
    ensures Covered(s'.heap, k.query, Lookup(cfg, acc.shards, k.query).value.validUntil)
  {
    if k in multiset(pops) {
      assert k in pops;
      var again := PrefetchKey(Lookup(cfg, acc.shards, k.query).value.validUntil, k.query);
      assert again in acc.requeue;
      assert again in s'.heap;
    } else {
      assert k in s'.heap;
    }
  }

  // ---------- Every run ----------

  lemma StepRefines(cfg: Config, s: State, last: map<Query, Write>, op: Op, s': State)
    requires Refines(cfg, s, last) && Step(cfg, s, op, s')
    ensures Refines(cfg, s', LastAfter(last, op))
  {
    match op
    case Insert(q, records, group, now) =>
      var e := InsertEntry(q, records, group, now);
      StoreRefines(cfg, s, last, q, e, Write(e.data, e.validUntil, Positive, now),
                   multiset{PrefetchKey(e.validUntil, q)}, s');
    case Negative(q, r, group, now) =>
      var e := NegativeEntry(r, group, now);
      assert s'.heap == s.heap;
      assert s'.(heap := s.heap) == s';
      StoreRefines(cfg, s, last, q, e, Write(e.data, e.validUntil, Denial, now), multiset{}, s');
    case Load(items) =>
      AdmitAllRefines(cfg, s, last, items);
      EnforcedRefines(cfg, AdmitAll(cfg, s, items), s', LastAfterLoad(last, items));
    case Get(q, _, _) =>
      TouchRefines(cfg, s, last, q);
    case Scan(now, ahead, base, maxCount, pops, result, wait) =>
      ScanRefines(cfg, s, last, Threshold(cfg, now, ahead), base, maxCount, pops, result, wait, s');
    case Clear =>
      InitRefines(cfg);
  }

  ghost predicate ValidConfig(cfg: Config) {
    |cfg.caps| > 0 && forall k :: 0 <= k < |cfg.caps| ==> cfg.caps[k] > 0
  }

  lemma InitRefines(cfg: Config)
    requires ValidConfig(cfg)
    ensures Refines(cfg, Init(cfg), map[])
  {
    EmptyTotal(cfg.layout, Init(cfg).shards);
  }

  /** In every reachable state the cache is structurally sound and refines the last-write map of its run. */
  lemma {:induction false} RunRefines(cfg: Config, ops: seq<Op>, s: State)
    requires ValidConfig(cfg) && Steps(cfg, Init(cfg), ops, s)
    ensures Refines(cfg, s, LastWrites(ops))
    decreases |ops|
  {
    if ops == [] {
      InitRefines(cfg);
    } else {
      var m :| Shaped(cfg, m) && Steps(cfg, Init(cfg), ops[..|ops| - 1], m) && Step(cfg, m, ops[|ops| - 1], s);
      RunRefines(cfg, ops[..|ops| - 1], m);
      StepRefines(cfg, m, LastWrites(ops[..|ops| - 1]), ops[|ops| - 1], s);
    }
  }

  // ---------- What a reader of the cache may rely on ----------

  /** The same answer up to record names and TTLs: nothing is added, dropped, reordered or taken from elsewhere. */
  ghost predicate SameAnswer(r: Response, data: Response, q: Query) {
    && r.query == data.query && r.code == data.code && r.authorities == data.authorities && r.group == data.group
    && |r.answers| == |data.answers|
    && forall i :: 0 <= i < |r.answers| ==>
         && r.answers[i].(name := "", ttl := 0) == data.answers[i].(name := "", ttl := 0)
         && r.answers[i].name in {data.answers[i].name, q.name}
         && r.answers[i].ttl <= data.answers[i].ttl
  }

  lemma ServeIsSameAnswer(cfg: Config, e: Entry, q: Query, now: nat)
    ensures SameAnswer(Serve(cfg, e, q, now).response, e.data, q)
    ensures Serve(cfg, e, q, now).valid <==> now <= e.validUntil
  {
  }

  /** A hit yields the last value written for exactly this query, never another or an older one. */
  lemma GetSeesLastWrite(cfg: Config, ops: seq<Op>, s: State, q: Query, now: nat, served: Option<Served>, s': State)
    requires ValidConfig(cfg) && Steps(cfg, Init(cfg), ops, s) && Shaped(cfg, s)
    requires Step(cfg, s, Get(q, now, served), s')
    ensures served == None <==> Lookup(cfg, s.shards, q) == None
    ensures served.Some? ==>
              && q in LastWrites(ops)
              && SameAnswer(served.value.response, LastWrites(ops)[q].data, q)
              && (served.value.valid <==> now <= LastWrites(ops)[q].validUntil)
  {
    RunRefines(cfg, ops, s);
    var e := Lookup(cfg, s.shards, q);
    if e.Some? {
      assert Faithful(LastWrites(ops), s.heap, q, e.value);
      ServeIsSameAnswer(cfg, e.value, q, now);
    }
  }

  /** How long a write may be served as current. */
  ghost predicate LifetimeOk(w: Write) {
    match w.kind
    case Positive => w.validUntil == w.at + LeastTtl(w.data.answers, 600) * SECOND
    case Denial => w.at + 60 * SECOND <= w.validUntil <= w.at + 3600 * SECOND
    case Restored => true
  }

  lemma {:induction false} LoadKeepsLifetimes(last: map<Query, Write>, items: seq<Loaded>)
    requires forall q :: q in last ==> LifetimeOk(last[q])
    ensures forall q :: q in LastAfterLoad(last, items) ==> LifetimeOk(LastAfterLoad(last, items)[q])
  {
    if items != [] {
      LoadKeepsLifetimes(last, items[..|items| - 1]);
    }
  }

  lemma {:induction false} Lifetimes(ops: seq<Op>)
    ensures forall q :: q in LastWrites(ops) ==> LifetimeOk(LastWrites(ops)[q])
  {
    if ops != [] {
      Lifetimes(ops[..|ops| - 1]);
      if ops[|ops| - 1].Load? {
        LoadKeepsLifetimes(LastWrites(ops[..|ops| - 1]), ops[|ops| - 1].items);
      }
    }
  }

  lemma WholeSeconds(span: nat)
    ensures ((span / SECOND) % U32) * SECOND <= span
  {
    assert (span / SECOND) % U32 <= span / SECOND;
  }

  lemma ServeBounds(cfg: Config, e: Entry, q: Query, now: nat)
    ensures var r := Serve(cfg, e, q, now);
            var answers := r.response.answers;
            && (r.valid <==> now <= e.validUntil)
            && (r.valid ==> forall i :: 0 <= i < |answers| ==> now + answers[i].ttl * SECOND <= e.validUntil)
            && (!r.valid ==> forall i :: 0 <= i < |answers| ==> answers[i].ttl <= cfg.expiredReplyTtl)
  {
    if now <= e.validUntil {
      var cap := ((e.validUntil - now) / SECOND) % U32;
      WholeSeconds(e.validUntil - now);
      var answers := Serve(cfg, e, q, now).response.answers;
      forall i | 0 <= i < |answers|
        ensures now + answers[i].ttl * SECOND <= e.validUntil
      {
        assert answers[i].ttl <= cap;
      }
    }
  }

  /** No answer outlives its entry: over every run, a record served as valid expires by the deadline of the last
      write, that deadline is within the configured lifetime, and a stale answer carries only the stale-reply TTL. */
  lemma NoAnswerOutlivesItsEntry(cfg: Config, ops: seq<Op>, s: State, q: Query, now: nat, served: Option<Served>,
                                 s': State)
    requires ValidConfig(cfg) && Steps(cfg, Init(cfg), ops, s) && Shaped(cfg, s)
    requires Step(cfg, s, Get(q, now, served), s') && served.Some?
    ensures q in LastWrites(ops)
    ensures var w := LastWrites(ops)[q];
            var answers := served.value.response.answers;
            && LifetimeOk(w)
            && (served.value.valid <==> now <= w.validUntil)
            && (served.value.valid ==>
                  forall i :: 0 <= i < |answers| ==> now + answers[i].ttl * SECOND <= w.validUntil)
            && (!served.value.valid ==>
                  forall i :: 0 <= i < |answers| ==> answers[i].ttl <= cfg.expiredReplyTtl)
  {
    RunRefines(cfg, ops, s);
    Lifetimes(ops);
    var e := Lookup(cfg, s.shards, q).value;
    assert Faithful(LastWrites(ops), s.heap, q, e);
    ServeBounds(cfg, e, q, now);
  }

  // ---------- What the prefetch loop may rely on ----------

  lemma ReportedPermuted(a: seq<Found>, b: seq<Found>, q: Query)
    requires multiset(a) == multiset(b) && Reported(a, q)
    ensures Reported(b, q)
  {
    var i :| 0 <= i < |a| && a[i].query == q;
    assert a[i] in multiset(a);
    assert a[i] in b;
    var j :| 0 <= j < |b| && b[j] == a[i];
  }

  lemma ReportedHadDueKey(cfg: Config, shards: seq<Slots>, pops: seq<PrefetchKey>, threshold: nat, base: nat, q: Query)
    requires |cfg.caps| > 0 && |shards| == |cfg.caps|
    requires Reported(ScanAll(cfg, shards, pops, threshold, base).found, q)
    ensures exists k :: k in pops && k.query == q
  {
    var init := pops[..|pops| - 1];
    var key := pops[|pops| - 1];
    var before := ScanAll(cfg, shards, init, threshold, base);
    var after := ScanAll(cfg, shards, pops, threshold, base);
    if Reported(before.found, q) {
      ReportedHadDueKey(cfg, shards, init, threshold, base, q);
    } else {
      var i :| 0 <= i < |after.found| && after.found[i].query == q;
      assert i == |before.found|;
    }
  }

  lemma ScanExact(cfg: Config, s: State, pops: seq<PrefetchKey>, threshold: nat, base: nat, q: Query)
    requires Sound(cfg, s) && PopOrder(s.heap, pops, threshold)
    requires forall k :: k in s.heap - multiset(pops) ==> k.exp > threshold
    ensures Reported(ScanAll(cfg, s.shards, pops, threshold, base).found, q) <==>
              var e := Lookup(cfg, s.shards, q);
              e.Some? && Due(q, e.value, threshold) && Covered(s.heap, q, threshold)
  {
    var acc := ScanAll(cfg, s.shards, pops, threshold, base);
    ScanAllFacts(cfg, s, pops, threshold, base);
    assert Scanned(cfg, s.shards, acc, q);
    if Reported(acc.found, q) {
      var i :| 0 <= i < |acc.found| && acc.found[i].query == q;
      assert FoundOk(cfg, s.shards, acc.found[i], threshold);
      ReportedHadDueKey(cfg, s.shards, pops, threshold, base, q);
      var k :| k in pops && k.query == q;
      assert k in multiset(pops);
    } else if Covered(s.heap, q, threshold) {
      var k :| k in s.heap && k.query == q && k.exp <= threshold;
      assert k in multiset(pops);
      assert k in pops;
      var i :| 0 <= i < |pops| && pops[i] == k;
      assert Answered(cfg, acc, pops[i]);
    }
  }

  /** Each report is a resident address entry past the threshold and not yet marked, reported once, most hit first. */
  ghost predicate OnlyDue(cfg: Config, shards: seq<Slots>, result: seq<Found>, threshold: nat)
    requires |cfg.caps| > 0 && |shards| == |cfg.caps|
  {
    && SortedByHits(result)
    && (forall i :: 0 <= i < |result| ==> FoundOk(cfg, shards, result[i], threshold))
    && (forall i, j :: 0 <= i < j < |result| ==> result[i].query != result[j].query)
  }

  /** The reports are exactly the due entries that have a due key on the heap. */
  ghost predicate ExactlyDue(cfg: Config, s: State, result: seq<Found>, threshold: nat)
    requires Shaped(cfg, s)
  {
    forall q :: Reported(result, q) <==>
      var e := Lookup(cfg, s.shards, q);
      e.Some? && Due(q, e.value, threshold) && Covered(s.heap, q, threshold)
  }

  /** Reported entries are marked; nothing else in the table changes. */
  ghost predicate OnlyMarks(cfg: Config, shards: seq<Slots>, result: seq<Found>, shards': seq<Slots>)
    requires |cfg.caps| > 0 && |shards| == |cfg.caps| && |shards'| == |cfg.caps|
  {
    forall q :: Lookup(cfg, shards', q) ==
      var e := Lookup(cfg, shards, q);
      if e.Some? && Reported(result, q) then Some(e.value.(inPrefetch := true)) else e
  }

  lemma SameReports(a: seq<Found>, b: seq<Found>)
    requires multiset(a) == multiset(b)
    ensures |a| == |b|
    ensures forall q :: Reported(a, q) <==> Reported(b, q)
  {
    assert |a| == |multiset(a)| == |multiset(b)| == |b|;
    forall q
      ensures Reported(a, q) <==> Reported(b, q)
    {
      if Reported(a, q) { ReportedPermuted(a, b, q); }
      if Reported(b, q) { ReportedPermuted(b, a, q); }
    }
  }

  lemma ScanReportsOnlyDue(cfg: Config, s: State, threshold: nat, base: nat, maxCount: nat, pops: seq<PrefetchKey>,
                           result: seq<Found>, wait: nat, s': State)
    requires Sound(cfg, s) && ScanStep(cfg, s, threshold, base, maxCount, pops, result, wait, s')
    ensures |result| <= maxCount && OnlyDue(cfg, s.shards, result, threshold)
  {
    var acc := ScanAll(cfg, s.shards, pops, threshold, base);
    ScanAllFacts(cfg, s, pops, threshold, base);
    SameReports(acc.found, result);
    DistinctPermuted(acc.found, result, (f: Found) => f.query);
    forall i | 0 <= i < |result|
      ensures FoundOk(cfg, s.shards, result[i], threshold)
    {
      assert result[i] in multiset(acc.found);
      assert result[i] in acc.found;
    }
  }

  lemma ScanOnlyMarks(cfg: Config, s: State, threshold: nat, base: nat, maxCount: nat, pops: seq<PrefetchKey>,
                      result: seq<Found>, wait: nat, s': State)
    requires Sound(cfg, s) && ScanStep(cfg, s, threshold, base, maxCount, pops, result, wait, s')
    ensures Shaped(cfg, s') && OnlyMarks(cfg, s.shards, result, s'.shards)
  {
    var acc := ScanAll(cfg, s.shards, pops, threshold, base);
    ScanAllFacts(cfg, s, pops, threshold, base);
    SameReports(acc.found, result);
    forall q
      ensures Lookup(cfg, s'.shards, q) ==
                var e := Lookup(cfg, s.shards, q);
                if e.Some? && Reported(result, q) then Some(e.value.(inPrefetch := true)) else e
    {
      assert Scanned(cfg, s.shards, acc, q);
    }
  }

  lemma ScanReportsAllDue(cfg: Config, s: State, threshold: nat, base: nat, maxCount: nat, pops: seq<PrefetchKey>,
                          result: seq<Found>, wait: nat, s': State)
    requires Sound(cfg, s) && ScanStep(cfg, s, threshold, base, maxCount, pops, result, wait, s')
    requires |result| < maxCount
    ensures ExactlyDue(cfg, s, result, threshold)
  {
    var acc := ScanAll(cfg, s.shards, pops, threshold, base);
    SameReports(acc.found, result);
    forall q {
      ScanExact(cfg, s, pops, threshold, base, q);
    }
  }

  /** The last write of `q` was an insert or a load, not a denial. */
  ghost predicate LastWrittenAsAnswer(last: map<Query, Write>, q: Query) {
    q in last && !last[q].kind.Denial?
  }

  /** No due entry whose last write was an insert or a load goes unreported. */
  ghost predicate NoneMissed(cfg: Config, s: State, last: map<Query, Write>, result: seq<Found>, threshold: nat)
    requires Shaped(cfg, s)
  {
    forall q :: (LastWrittenAsAnswer(last, q) && Lookup(cfg, s.shards, q).Some? &&
                 Due(q, Lookup(cfg, s.shards, q).value, threshold)) ==> Reported(result, q)
  }

  lemma ExactScanMissesNone(cfg: Config, s: State, last: map<Query, Write>, result: seq<Found>, threshold: nat)
    requires Refines(cfg, s, last) && ExactlyDue(cfg, s, result, threshold)
    ensures NoneMissed(cfg, s, last, result, threshold)
  {
    forall q | LastWrittenAsAnswer(last, q) && Lookup(cfg, s.shards, q).Some?
               && Due(q, Lookup(cfg, s.shards, q).value, threshold)
      ensures Reported(result, q)
    {
      var e := Lookup(cfg, s.shards, q).value;
      assert Faithful(last, s.heap, q, e);
      var k :| k in s.heap && k.query == q && k.exp <= e.validUntil;
      assert Covered(s.heap, q, threshold);
    }
  }

  /** In every reachable state the heap-driven scan reports only what a full-table scan would, each query once and at
      most `maxCount` of them; a scan that stays below the limit reports exactly the due entries that have a due key,
      and that leaves out no entry last written by an insert or a load. The rest of the table is unchanged. */
  lemma ScanAgreesWithFullScan(cfg: Config, ops: seq<Op>, s: State, op: Op, s': State)
    requires ValidConfig(cfg) && Steps(cfg, Init(cfg), ops, s) && Shaped(cfg, s)
    requires op.Scan? && Step(cfg, s, op, s')
    ensures var threshold := Threshold(cfg, op.now, op.ahead);
            && |op.result| <= op.maxCount
            && OnlyDue(cfg, s.shards, op.result, threshold)
            && Shaped(cfg, s') && OnlyMarks(cfg, s.shards, op.result, s'.shards)
            && (|op.result| < op.maxCount ==>
                  && ExactlyDue(cfg, s, op.result, threshold)
                  && NoneMissed(cfg, s, LastWrites(ops), op.result, threshold))
  {
    var threshold := Threshold(cfg, op.now, op.ahead);
    RunRefines(cfg, ops, s);
    var Scan(now, ahead, base, maxCount, pops, result, wait) := op;
    ScanReportsOnlyDue(cfg, s, threshold, base, maxCount, pops, result, wait, s');
    ScanOnlyMarks(cfg, s, threshold, base, maxCount, pops, result, wait, s');
    if |result| < maxCount {
      ScanReportsAllDue(cfg, s, threshold, base, maxCount, pops, result, wait, s');
      ExactScanMissesNone(cfg, s, LastWrites(ops), result, threshold);
    }
  }

  ghost predicate Reloads(op: Op, q: Query) {
    op.Load? && exists i :: 0 <= i < |op.items| && op.items[i].data.query == q
  }

  lemma {:induction false} AdmitAllKeepsMark(cfg: Config, s: State, items: seq<Loaded>, q: Query)
    requires Sound(cfg, s)
    requires forall i :: 0 <= i < |items| ==> items[i].data.query != q
    ensures Sound(cfg, AdmitAll(cfg, s, items))
    ensures Lookup(cfg, AdmitAll(cfg, s, items).shards, q) in {None, Lookup(cfg, s.shards, q)}
  {
    if items != [] {
      var init, item := items[..|items| - 1], items[|items| - 1];
      AdmitAllKeepsMark(cfg, s, init, q);
      AdmitIsSound(cfg, AdmitAll(cfg, s, init), item.data.query, LoadedEntry(item));
      LookupAfterAdmit(cfg, AdmitAll(cfg, s, init), item.data.query, LoadedEntry(item), q);
    }
  }

  /** Entries come out of a file unmarked. */
  lemma {:induction false} ReloadClearsMark(cfg: Config, s: State, items: seq<Loaded>, q: Query)
    requires Sound(cfg, s)
    requires exists i :: 0 <= i < |items| && items[i].data.query == q
    ensures Sound(cfg, AdmitAll(cfg, s, items))
    ensures var e := Lookup(cfg, AdmitAll(cfg, s, items).shards, q); e == None || !e.value.inPrefetch
  {
    var init, item := items[..|items| - 1], items[|items| - 1];
    AdmitAllIsSound(cfg, s, init);
    var before := AdmitAll(cfg, s, init);
    AdmitIsSound(cfg, before, item.data.query, LoadedEntry(item));
    LookupAfterAdmit(cfg, before, item.data.query, LoadedEntry(item), q);
    if item.data.query != q {
      var i :| 0 <= i < |items| && items[i].data.query == q;
      assert init[i].data.query == q;
      ReloadClearsMark(cfg, s, init, q);
    }
  }

  lemma StoreKeepsMark(cfg: Config, s: State, q: Query, e: Entry, q': Query)
    requires Sound(cfg, s) && Marked(cfg, s, q')
    ensures var r := Lookup(cfg, Store(cfg, s, q, e).shards, q'); r == None || r.value.inPrefetch
  {
    var k := Route(cfg, q);
    var i := IndexOf(s.shards[k], q);
    if i < |s.shards[k]| {
      LookupAfterUse(cfg, s.shards, q, Refresh(s.shards[k][i].value, e), q');
    } else {
      LookupAfterAdmit(cfg, s, q, e, q');
    }
  }

  ghost predicate Resident(cfg: Config, s: State, q: Query) {
    Shaped(cfg, s) && Lookup(cfg, s.shards, q).Some?
  }

  /** `q` is resident and carries the prefetch mark. */
  ghost predicate Marked(cfg: Config, s: State, q: Query) {
    Resident(cfg, s, q) && Lookup(cfg, s.shards, q).value.inPrefetch
  }

  /** While an entry stays resident its prefetch mark survives every operation except reloading that entry from a file,
      which clears it: a fresh insert of the same query, in particular, does not. No scan reports a marked entry. */
  lemma MarkKeptIff(cfg: Config, s: State, op: Op, s': State, q: Query)
    requires Sound(cfg, s) && Step(cfg, s, op, s') && Marked(cfg, s, q) && Resident(cfg, s', q)
    ensures Marked(cfg, s', q) <==> !Reloads(op, q)
    ensures op.Scan? ==> !Reported(op.result, q)
  {
    match op
    case Insert(q', records, group, now) =>
      var e := InsertEntry(q', records, group, now);
      StoreIsSound(cfg, s, q', e);
      StoreKeepsMark(cfg, s, q', e, q);
      EnforcedIsSound(cfg, Store(cfg, s, q', e), s'.(heap := s.heap));
    case Negative(q', r, group, now) =>
      var e := NegativeEntry(r, group, now);
      StoreIsSound(cfg, s, q', e);
      StoreKeepsMark(cfg, s, q', e, q);
      EnforcedIsSound(cfg, Store(cfg, s, q', e), s');
    case Load(items) =>
      if Reloads(op, q) {
        ReloadClearsMark(cfg, s, items, q);
      } else {
        AdmitAllKeepsMark(cfg, s, items, q);
      }
      EnforcedIsSound(cfg, AdmitAll(cfg, s, items), s');
    case Get(q', _, _) =>
      TouchLookup(cfg, s, q', q);
    case Scan(now, ahead, base, maxCount, pops, result, wait) =>
      var threshold := Threshold(cfg, now, ahead);
      ScanReportsOnlyDue(cfg, s, threshold, base, maxCount, pops, result, wait, s');
      ScanOnlyMarks(cfg, s, threshold, base, maxCount, pops, result, wait, s');
    case Clear =>
      EmptyLookup(cfg, q);
  }

  lemma EmptyLookup(cfg: Config, q: Query)
    requires |cfg.caps| > 0
    ensures Lookup(cfg, Init(cfg).shards, q) == None
  {
  }

  /** A run with its states: `states[i]` is where operation `i` starts. */
  ghost predicate Trace(cfg: Config, states: seq<State>, ops: seq<Op>) {
    |states| == |ops| + 1 && forall i :: 0 <= i < |ops| ==> StepAt(cfg, states, ops, i)
  }

  ghost predicate StepAt(cfg: Config, states: seq<State>, ops: seq<Op>, i: nat)
    requires i < |ops| && |states| == |ops| + 1
  {
    Shaped(cfg, states[i]) && Step(cfg, states[i], ops[i], states[i + 1])
  }

  /** Operation `i` leaves `q` resident and is not a reload of it. */
  ghost predicate LeavesAlone(cfg: Config, states: seq<State>, ops: seq<Op>, q: Query, i: nat)
    requires i < |ops| && |states| == |ops| + 1
  {
    Resident(cfg, states[i + 1], q) && !Reloads(ops[i], q)
  }

  ghost predicate MarkedAt(cfg: Config, states: seq<State>, q: Query, i: nat)
    requires i < |states|
  {
    Sound(cfg, states[i]) && Marked(cfg, states[i], q)
  }

  lemma MarkStep(cfg: Config, states: seq<State>, ops: seq<Op>, q: Query, i: nat)
    requires i < |ops| && |states| == |ops| + 1 && StepAt(cfg, states, ops, i) && LeavesAlone(cfg, states, ops, q, i)
    requires MarkedAt(cfg, states, q, i)
    ensures MarkedAt(cfg, states, q, i + 1) && (ops[i].Scan? ==> !Reported(ops[i].result, q))
  {
    StepIsSound(cfg, states[i], ops[i], states[i + 1]);
    MarkKeptIff(cfg, states[i], ops[i], states[i + 1], q);
  }

  lemma {:induction false} ByInduction(p: nat -> bool, n: nat)
    requires p(0) && forall i: nat :: i < n && p(i) ==> p(i + 1)
    ensures p(n)
  {
    if n > 0 {
      ByInduction(p, n - 1);
    }
  }

  /** In any stretch of a run during which `q` stays resident and is not reloaded, a mark on it stays and no scan
      reports it, whatever else happens. */
  lemma MarkedIsNeverReported(cfg: Config, states: seq<State>, ops: seq<Op>, q: Query, n: nat)
    requires Trace(cfg, states, ops) && MarkedAt(cfg, states, q, 0) && n < |ops|
    requires forall i :: 0 <= i < |ops| ==> LeavesAlone(cfg, states, ops, q, i)
    ensures MarkedAt(cfg, states, q, n + 1) && (ops[n].Scan? ==> !Reported(ops[n].result, q))
  {
    var marked := (i: nat) => i < |states| && MarkedAt(cfg, states, q, i);
    forall i: nat | i < |ops| && marked(i)
      ensures marked(i + 1)
    {
      MarkStep(cfg, states, ops, q, i);
    }
    ByInduction(marked, n);
    MarkStep(cfg, states, ops, q, n);
  }

  // ---------- The memory budget over every run ----------

  lemma StepWithinBudget(cfg: Config, s: State, op: Op, s': State)
    requires ValidConfig(cfg) && Shaped(cfg, s) && Step(cfg, s, op, s')
    requires cfg.maxBytes != 0 && s.totalBytes <= cfg.maxBytes
    ensures s'.totalBytes <= cfg.maxBytes
  {
  }

  /** With a budget set, usage is within it in every reachable state, and the counter is the exact sum of the estimates
      of the resident entries. */
  lemma {:induction false} BudgetHoldsInEveryRun(cfg: Config, ops: seq<Op>, s: State)
    requires ValidConfig(cfg) && Steps(cfg, Init(cfg), ops, s)
    ensures s.totalBytes == Total(cfg.layout, s.shards)
    ensures cfg.maxBytes != 0 ==> s.totalBytes <= cfg.maxBytes
    decreases |ops|
  {
    RunRefines(cfg, ops, s);
    if ops != [] && cfg.maxBytes != 0 {
      var init, op := ops[..|ops| - 1], ops[|ops| - 1];
      var m :| Shaped(cfg, m) && Steps(cfg, Init(cfg), init, m) && Step(cfg, m, op, s);
      BudgetHoldsInEveryRun(cfg, init, m);
      StepWithinBudget(cfg, m, op, s);
    }
  }

  lemma {:induction false} AdmitAllIsSound(cfg: Config, s: State, items: seq<Loaded>)
    requires Sound(cfg, s)
    ensures Sound(cfg, AdmitAll(cfg, s, items))
  {
    if items != [] {
      var init, item := items[..|items| - 1], items[|items| - 1];
      AdmitAllIsSound(cfg, s, init);
      AdmitIsSound(cfg, AdmitAll(cfg, s, init), item.data.query, LoadedEntry(item));
    }
  }

  /** Every operation, from any sound state, ends in a sound state. */
  lemma StepIsSound(cfg: Config, s: State, op: Op, s': State)
    requires Sound(cfg, s) && Step(cfg, s, op, s')
    ensures Sound(cfg, s')
  {
    match op
    case Insert(q, records, group, now) =>
      var e := InsertEntry(q, records, group, now);
      StoreIsSound(cfg, s, q, e);
      EnforcedIsSound(cfg, Store(cfg, s, q, e), s'.(heap := s.heap));
    case Negative(q, r, group, now) =>
      var e := NegativeEntry(r, group, now);
      StoreIsSound(cfg, s, q, e);
      EnforcedIsSound(cfg, Store(cfg, s, q, e), s');
    case Load(items) =>
      AdmitAllIsSound(cfg, s, items);
      EnforcedIsSound(cfg, AdmitAll(cfg, s, items), s');
    case Get(q, _, _) =>
      TouchIsSound(cfg, s, q);
    case Scan(now, ahead, base, maxCount, pops, result, wait) =>
      ScanAllFacts(cfg, s, pops, Threshold(cfg, now, ahead), base);
    case Clear =>
      InitRefines(cfg);
  }

  lemma StepsAppend(cfg: Config, s: State, ops: seq<Op>, m: State, op: Op, s': State)
    requires Shaped(cfg, s) && Shaped(cfg, m) && Steps(cfg, s, ops, m) && Step(cfg, m, op, s')
    ensures Steps(cfg, s, ops + [op], s')
  {
    assert (ops + [op])[..|ops|] == ops;
  }
}
