/** Recency over runs of the whole cache: every shard is an LRU list of the queries that the run touched, so whatever an
    operation evicts was touched less recently than what it leaves in the same shard. */
module CacheRecency {
  import opened Dns
  import opened Lru
  import opened CacheModel
  import opened CacheRuns

  type Acts = seq<Action<Query, Entry>>

  // ---------- What an operation touches ----------

  function LoadedAt(cfg: Config, items: seq<Loaded>, k: nat): seq<Query>
    requires |cfg.caps| > 0
  {
    if items == [] then []
    else
      var q := items[|items| - 1].data.query;
      LoadedAt(cfg, items[..|items| - 1], k) + if Route(cfg, q) == k then [q] else []
  }

  function PoppedAt(cfg: Config, pops: seq<PrefetchKey>, k: nat): seq<Query>
    requires |cfg.caps| > 0
  {
    if pops == [] then []
    else
      var q := pops[|pops| - 1].query;
      PoppedAt(cfg, pops[..|pops| - 1], k) + if Route(cfg, q) == k then [q] else []
  }

  /** The queries of shard `k` that an operation names, in order. */
  function TouchedBy(cfg: Config, op: Op, k: nat): seq<Query>
    requires |cfg.caps| > 0
  {
    match op
    case Insert(q, _, _, _) => if Route(cfg, q) == k then [q] else []
    case Negative(q, _, _, _) => if Route(cfg, q) == k then [q] else []
    case Get(q, _, _) => if Route(cfg, q) == k then [q] else []
    case Load(items) => LoadedAt(cfg, items, k)
    case Scan(_, _, _, _, pops, _, _) => PoppedAt(cfg, pops, k)
    case Clear => []
  }

  function Touches(cfg: Config, ops: seq<Op>, k: nat): seq<Query>
    requires |cfg.caps| > 0
  {
    if ops == [] then [] else Touches(cfg, ops[..|ops| - 1], k) + TouchedBy(cfg, ops[|ops| - 1], k)
  }

  // ---------- Each operation as actions on one shard ----------

  /** `acts` takes the shard from `before` to `after` and names just `keys`. */
  ghost predicate Acted(cap: nat, before: Slots, acts: Acts, after: Slots, keys: seq<Query>) {
    ApplyFrom(before, cap, acts) == after && Mentioned(acts) == keys
  }

  lemma ActedConcat(cap: nat, a: Slots, x: Acts, b: Slots, xs: seq<Query>, y: Acts, c: Slots, ys: seq<Query>)
    requires Acted(cap, a, x, b, xs) && Acted(cap, b, y, c, ys)
    ensures Acted(cap, a, x + y, c, xs + ys)
  {
    ApplyConcat(a, cap, x, y);
    MentionedConcat(x, y);
  }

  lemma ActedOne(cap: nat, a: Slots, x: Action<Query, Entry>)
    ensures Acted(cap, a, [x], Apply(a, cap, x), if x.Use? || x.Put? then [x.key] else [])
  {
    assert [x][..0] == [];
  }

  function Evictions(n: nat): (acts: Acts)
    ensures |acts| == n && forall i :: 0 <= i < n ==> acts[i] == Evict
  {
    seq(n, _ => Evict)
  }

  lemma {:induction false} EvictionsAct(cap: nat, slots: Slots, n: nat)
    requires n <= |slots|
    ensures Acted(cap, slots, Evictions(n), slots[..|slots| - n], [])
  {
    if n > 0 {
      EvictionsAct(cap, slots, n - 1);
      var init := Evictions(n - 1);
      assert Evictions(n) == init + [Evict];
      var mid := slots[..|slots| - (n - 1)];
      ActedOne(cap, mid, Evict);
      assert mid[..|mid| - 1] == slots[..|slots| - n];
      ActedConcat(cap, slots, init, mid, [], [Evict], slots[..|slots| - n], []);
    }
  }

  /** What the budget pass does to one shard: some evictions. */
  lemma EnforcedActs(cfg: Config, s: State, s': State, k: nat) returns (n: nat)
    requires Shaped(cfg, s) && Enforced(cfg, s, s') && k < |cfg.caps|
    ensures Shaped(cfg, s') && n <= |s.shards[k]| && Acted(cfg.caps[k], s.shards[k], Evictions(n), s'.shards[k], [])
  {
    if cfg.maxBytes == 0 {
      n := 0;
      assert s.shards[k][..|s.shards[k]|] == s.shards[k];
    } else {
      var r: nat, j: nat :| FirstFit(cfg, s.shards, r, j) && s'.shards == Visits(s.shards, r, j);
      VisitsShape(s.shards, r, j, k);
      n := |s.shards[k]| - |s'.shards[k]|;
    }
    EvictionsAct(cfg.caps[k], s.shards[k], n);
  }

  lemma StoreActs(cfg: Config, s: State, q: Query, e: Entry, k: nat) returns (acts: Acts)
    requires Shaped(cfg, s) && k < |cfg.caps|
    ensures |acts| <= 1 && Plain(acts)
    ensures Acted(cfg.caps[k], s.shards[k], acts, Store(cfg, s, q, e).shards[k], if Route(cfg, q) == k then [q] else [])
  {
    if Route(cfg, q) == k {
      var slots := s.shards[k];
      var i := IndexOf(slots, q);
      var x := if i < |slots| then Use(q, Refresh(slots[i].value, e)) else Put(q, e);
      acts := [x];
      ActedOne(cfg.caps[k], slots, x);
    } else {
      acts := [];
    }
  }

  lemma PlainThenEvictions(acts: Acts, n: nat)
    requires Plain(acts)
    ensures Plain(acts + Evictions(n))
  {
  }

  /** Store, then budget. */
  lemma WriteActs(cfg: Config, s: State, q: Query, e: Entry, s': State, k: nat) returns (acts: Acts)
    requires Shaped(cfg, s) && k < |cfg.caps| && Enforced(cfg, Store(cfg, s, q, e), s')
    ensures Shaped(cfg, s') && Plain(acts)
    ensures Acted(cfg.caps[k], s.shards[k], acts, s'.shards[k], if Route(cfg, q) == k then [q] else [])
  {
    var mid := Store(cfg, s, q, e);
    var first := StoreActs(cfg, s, q, e, k);
    var n := EnforcedActs(cfg, mid, s', k);
    var keys := if Route(cfg, q) == k then [q] else [];
    ActedConcat(cfg.caps[k], s.shards[k], first, mid.shards[k], keys, Evictions(n), s'.shards[k], []);
    assert keys + [] == keys;
    PlainThenEvictions(first, n);
    acts := first + Evictions(n);
  }

  ghost predicate OnlyPuts(acts: Acts) {
    forall i :: 0 <= i < |acts| ==> acts[i].Put?
  }

  lemma {:induction false} AdmitAllActs(cfg: Config, s: State, items: seq<Loaded>, k: nat) returns (acts: Acts)
    requires Shaped(cfg, s) && k < |cfg.caps|
    ensures OnlyPuts(acts)
    ensures Acted(cfg.caps[k], s.shards[k], acts, AdmitAll(cfg, s, items).shards[k], LoadedAt(cfg, items, k))
  {
    acts := [];
    if items != [] {
      var init, item := items[..|items| - 1], items[|items| - 1];
      var first := AdmitAllActs(cfg, s, init, k);
      var mid := AdmitAll(cfg, s, init);
      var q, e := item.data.query, LoadedEntry(item);
      if Route(cfg, q) == k {
        ActedOne(cfg.caps[k], mid.shards[k], Put(q, e));
        ActedConcat(cfg.caps[k], s.shards[k], first, mid.shards[k], LoadedAt(cfg, init, k),
                    [Put(q, e)], AdmitAll(cfg, s, items).shards[k], [q]);
        acts := first + [Put(q, e)];
      } else {
        assert LoadedAt(cfg, init, k) + [] == LoadedAt(cfg, init, k);
        acts := first;
      }
    }
  }

  lemma LoadActs(cfg: Config, s: State, items: seq<Loaded>, s': State, k: nat) returns (acts: Acts)
    requires Shaped(cfg, s) && k < |cfg.caps| && Enforced(cfg, AdmitAll(cfg, s, items), s')
    ensures Shaped(cfg, s') && Plain(acts)
    ensures Acted(cfg.caps[k], s.shards[k], acts, s'.shards[k], LoadedAt(cfg, items, k))
  {
    var mid := AdmitAll(cfg, s, items);
    var first := AdmitAllActs(cfg, s, items, k);
    var n := EnforcedActs(cfg, mid, s', k);
    var keys := LoadedAt(cfg, items, k);
    ActedConcat(cfg.caps[k], s.shards[k], first, mid.shards[k], keys, Evictions(n), s'.shards[k], []);
    assert keys + [] == keys;
    PlainThenEvictions(first, n);
    acts := first + Evictions(n);
  }

  lemma GetActs(cfg: Config, s: State, q: Query, k: nat) returns (acts: Acts)
    requires Shaped(cfg, s) && k < |cfg.caps|
    ensures Acted(cfg.caps[k], s.shards[k], acts, Touch(cfg, s, q).shards[k], if Route(cfg, q) == k then [q] else [])
  {
    acts := [];
    if Route(cfg, q) == k {
      var slots := s.shards[k];
      var i := IndexOf(slots, q);
      var e := if i < |slots| then slots[i].value else Fresh(Answer(q, [], ""), 0);
      acts := [Use(q, e.(hits := e.hits + 1))];
      ActedOne(cfg.caps[k], slots, acts[0]);
    }
  }

  lemma VisitActs(cfg: Config, acc: ScanAcc, key: PrefetchKey, threshold: nat, base: nat, k: nat) returns (acts: Acts)
    requires |acc.shards| == |cfg.caps| && k < |cfg.caps|
    ensures Acted(cfg.caps[k], acc.shards[k], acts, ScanOne(cfg, acc, key, threshold, base).shards[k],
                  if Route(cfg, key.query) == k then [key.query] else [])
  {
    acts := [];
    if Route(cfg, key.query) == k {
      var slots := acc.shards[k];
      var i := IndexOf(slots, key.query);
      var e := if i < |slots| then slots[i].value else Fresh(Answer(key.query, [], ""), 0);
      var e' := if ShouldRetry(e, threshold, base) && IsIpAddr(key.query.qtype) && !IsCurrent(e, threshold)
                then e.(inPrefetch := true) else e;
      acts := [Use(key.query, e')];
      ActedOne(cfg.caps[k], slots, acts[0]);
      assert i < |slots| ==> slots[i] == Slot(key.query, e);
    }
  }

  lemma {:induction false} ScanActs(cfg: Config, shards: seq<Slots>, pops: seq<PrefetchKey>, threshold: nat, base: nat,
                                    k: nat)
    returns (acts: Acts)
    requires |shards| == |cfg.caps| && k < |cfg.caps|
    ensures Acted(cfg.caps[k], shards[k], acts, ScanAll(cfg, shards, pops, threshold, base).shards[k],
                  PoppedAt(cfg, pops, k))
  {
    acts := [];
    if pops != [] {
      var init, key := pops[..|pops| - 1], pops[|pops| - 1];
      var first := ScanActs(cfg, shards, init, threshold, base, k);
      var acc := ScanAll(cfg, shards, init, threshold, base);
      var more := VisitActs(cfg, acc, key, threshold, base, k);
      ActedConcat(cfg.caps[k], shards[k], first, acc.shards[k], PoppedAt(cfg, init, k), more,
                  ScanAll(cfg, shards, pops, threshold, base).shards[k],
                  if Route(cfg, key.query) == k then [key.query] else []);
      acts := first + more;
    }
  }

  predicate IsWrite(op: Op) {
    op.Insert? || op.Negative? || op.Load?
  }

  /** Every operation acts on every shard as a short history that names just the queries it touches there. */
  lemma StepActs(cfg: Config, s: State, op: Op, s': State, k: nat) returns (acts: Acts)
    requires Shaped(cfg, s) && Step(cfg, s, op, s') && k < |cfg.caps|
    ensures Shaped(cfg, s') && Acted(cfg.caps[k], s.shards[k], acts, s'.shards[k], TouchedBy(cfg, op, k))
    ensures IsWrite(op) ==> Plain(acts)
  {
    match op
    case Insert(q, records, group, now) =>
      acts := WriteActs(cfg, s, q, InsertEntry(q, records, group, now), s'.(heap := s.heap), k);
    case Negative(q, r, group, now) =>
      acts := WriteActs(cfg, s, q, NegativeEntry(r, group, now), s', k);
    case Load(items) =>
      acts := LoadActs(cfg, s, items, s', k);
    case Get(q, _, _) =>
      acts := GetActs(cfg, s, q, k);
    case Scan(now, ahead, base, _, pops, _, _) =>
      acts := ScanActs(cfg, s.shards, pops, Threshold(cfg, now, ahead), base, k);
    case Clear =>
      acts := [Action.Clear];
      ActedOne(cfg.caps[k], s.shards[k], Action.Clear);
  }

  // ---------- Every run ----------

  lemma TouchesNext(cfg: Config, ops: seq<Op>, op: Op, k: nat)
    requires |cfg.caps| > 0
    ensures Touches(cfg, ops + [op], k) == Touches(cfg, ops, k) + TouchedBy(cfg, op, k)
  {
    assert (ops + [op])[..|ops|] == ops;
  }

  /** In every reachable state each shard is what an LRU list of its capacity holds after a history that names exactly
      the queries the run touched in that shard, in order. */
  lemma {:induction false} ShardsAreLru(cfg: Config, ops: seq<Op>, s: State, k: nat) returns (acts: Acts)
    requires ValidConfig(cfg) && Steps(cfg, Init(cfg), ops, s) && k < |cfg.caps|
    ensures Shaped(cfg, s) && Acted(cfg.caps[k], [], acts, s.shards[k], Touches(cfg, ops, k))
    decreases |ops|
  {
    acts := [];
    if ops != [] {
      var init, op := ops[..|ops| - 1], ops[|ops| - 1];
      var m :| Shaped(cfg, m) && Steps(cfg, Init(cfg), init, m) && Step(cfg, m, op, s);
      var first := ShardsAreLru(cfg, init, m, k);
      var more := StepActs(cfg, m, op, s, k);
      ActedConcat(cfg.caps[k], [], first, m.shards[k], Touches(cfg, init, k), more, s.shards[k], TouchedBy(cfg, op, k));
      acts := first + more;
    }
  }

  /** In every reachable state the stored order of a shard is the order in which the run last touched its queries. */
  lemma OrderIsRecencyOfRun(cfg: Config, ops: seq<Op>, s: State, k: nat, i: nat, j: nat)
    requires ValidConfig(cfg) && Steps(cfg, Init(cfg), ops, s) && k < |cfg.caps| && Shaped(cfg, s)
    requires i < j < |s.shards[k]|
    ensures LastTouch(Touches(cfg, ops, k), s.shards[k][i].key) > LastTouch(Touches(cfg, ops, k), s.shards[k][j].key)
  {
    var acts := ShardsAreLru(cfg, ops, s, k);
    OrderIsRecency(cfg.caps[k], acts);
    SameOrderOfTouch(acts, s.shards[k][i].key, s.shards[k][j].key);
  }

  /** Whatever an insert or a load evicts, for capacity or for the budget, was touched less recently over the whole run
      than every query it leaves in the same shard. */
  lemma EvictedIsLeastRecent(cfg: Config, ops: seq<Op>, s: State, op: Op, s': State, q: Query, q': Query)
    requires ValidConfig(cfg) && Steps(cfg, Init(cfg), ops, s) && Shaped(cfg, s)
    requires IsWrite(op) && Step(cfg, s, op, s') && Shaped(cfg, s') && Route(cfg, q) == Route(cfg, q')
    requires Lookup(cfg, s.shards, q).Some? && Lookup(cfg, s'.shards, q) == None && Lookup(cfg, s'.shards, q').Some?
    ensures var touches := Touches(cfg, ops + [op], Route(cfg, q)); LastTouch(touches, q') > LastTouch(touches, q)
  {
    var k := Route(cfg, q);
    var cap := cfg.caps[k];
    var acts := ShardsAreLru(cfg, ops, s, k);
    var more := StepActs(cfg, s, op, s', k);
    ActedConcat(cap, [], acts, s.shards[k], Touches(cfg, ops, k), more, s'.shards[k], TouchedBy(cfg, op, k));
    TouchesNext(cfg, ops, op, k);
    RemovedIsLessRecent(cap, acts, more, q, q');
    SameOrderOfTouch(acts + more, q', q);
  }

  /** Reads and scans evict nothing. */
  lemma ReadsEvictNothing(cfg: Config, s: State, op: Op, s': State, q: Query)
    requires Sound(cfg, s) && Step(cfg, s, op, s') && (op.Get? || op.Scan?) && Lookup(cfg, s.shards, q).Some?
    ensures Shaped(cfg, s') && Lookup(cfg, s'.shards, q).Some?
  {
    match op
    case Get(q', _, _) =>
      TouchLookup(cfg, s, q', q);
    case Scan(now, ahead, base, maxCount, pops, result, wait) =>
      ScanOnlyMarks(cfg, s, Threshold(cfg, now, ahead), base, maxCount, pops, result, wait, s');
  }
}
