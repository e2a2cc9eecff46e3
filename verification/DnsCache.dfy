/** The cache object itself: shards, heap and counter updated in place, each method proved to be the corresponding
    step of the model. */
module DnsCacheObject {
  import opened Dns
  import opened Lru
  import opened CacheModel
  import opened CacheRuns
  import opened RecordGroups

  lemma {:induction false} HeapHasMin(heap: multiset<PrefetchKey>)
    requires heap != multiset{}
    ensures exists k :: k in heap && forall k' :: k' in heap ==> k.exp <= k'.exp
    decreases |heap|
  {
    var x :| x in heap;
    var rest := heap - multiset{x};
    if rest != multiset{} {
      HeapHasMin(rest);
      var m :| m in rest && forall k' :: k' in rest ==> m.exp <= k'.exp;
      assert forall k' :: k' in heap ==> k' == x || k' in rest;
      var k := if x.exp <= m.exp then x else m;
      assert k in heap && forall k' :: k' in heap ==> k.exp <= k'.exp;
    } else {
      assert heap == multiset{x};
    }
  }

  /** What has been popped and what is left, in heap order. */
  ghost predicate HeapSplit(start: multiset<PrefetchKey>, heap: multiset<PrefetchKey>, pops: seq<PrefetchKey>,
                            threshold: nat)
  {
    && start == heap + multiset(pops)
    && PopOrder(start, pops, threshold)
    && forall i, k :: 0 <= i < |pops| && k in heap ==> pops[i].exp <= k.exp
  }

  /** The scan's heap traffic once it has stopped, the key it stopped at being among those to put back. */
  ghost predicate Collected(start: multiset<PrefetchKey>, heap: multiset<PrefetchKey>, pops: seq<PrefetchKey>,
                            threshold: nat, found: seq<Found>, maxCount: nat, requeue: seq<PrefetchKey>,
                            again: seq<PrefetchKey>)
  {
    && PopOrder(start, pops, threshold) && EarliestFirst(start, pops)
    && |found| <= maxCount
    && (|found| < maxCount ==> forall k :: k in start - multiset(pops) ==> k.exp > threshold)
    && heap + multiset(requeue) == start - multiset(pops) + multiset(again)
  }

  lemma MoveOne(heap: multiset<PrefetchKey>, pops: seq<PrefetchKey>, key: PrefetchKey)
    requires key in heap
    ensures (heap - multiset{key}) + multiset(pops + [key]) == heap + multiset(pops)
  {
    assert multiset(pops + [key]) == multiset(pops) + multiset{key};
    assert heap - multiset{key} + multiset{key} == heap;
  }

  lemma RestOfHeap(heap: multiset<PrefetchKey>, pops: seq<PrefetchKey>)
    ensures heap + multiset(pops) - multiset(pops) == heap
  {
  }

  lemma OrderNext(pops: seq<PrefetchKey>, key: PrefetchKey)
    requires forall i, j :: 0 <= i < j < |pops| ==> pops[i].exp <= pops[j].exp
    requires forall i :: 0 <= i < |pops| ==> pops[i].exp <= key.exp
    ensures forall i, j :: 0 <= i < j < |pops + [key]| ==> (pops + [key])[i].exp <= (pops + [key])[j].exp
  {
  }

  lemma PopNext(start: multiset<PrefetchKey>, heap: multiset<PrefetchKey>, pops: seq<PrefetchKey>, threshold: nat,
                key: PrefetchKey)
    requires HeapSplit(start, heap, pops, threshold)
    requires key in heap && key.exp <= threshold && forall k :: k in heap ==> key.exp <= k.exp
    ensures HeapSplit(start, heap - multiset{key}, pops + [key], threshold)
  {
    MoveOne(heap, pops, key);
    OrderNext(pops, key);
    var more, rest := pops + [key], heap - multiset{key};
    assert start == rest + multiset(more);
    assert multiset(more) <= start;
    forall i, k | 0 <= i < |more| && k in rest
      ensures more[i].exp <= k.exp
    {
      assert k in heap;
    }
  }

  lemma RoomForNext(cfg: Config, shards: seq<Slots>, pops: seq<PrefetchKey>, key: PrefetchKey, threshold: nat,
                    base: nat, maxCount: nat)
    requires |cfg.caps| > 0 && |shards| == |cfg.caps| && RoomBefore(cfg, shards, pops, threshold, base, maxCount)
    requires |ScanAll(cfg, shards, pops, threshold, base).found| < maxCount
    ensures RoomBefore(cfg, shards, pops + [key], threshold, base, maxCount)
  {
    forall n | 0 <= n < |pops + [key]|
      ensures |ScanAll(cfg, shards, (pops + [key])[..n], threshold, base).found| < maxCount
    {
      if n < |pops| {
        assert (pops + [key])[..n] == pops[..n];
      } else {
        assert (pops + [key])[..n] == pops;
      }
    }
  }

  lemma StopEmpty(start: multiset<PrefetchKey>, pops: seq<PrefetchKey>, threshold: nat, found: seq<Found>,
                  maxCount: nat, again: seq<PrefetchKey>)
    requires HeapSplit(start, multiset{}, pops, threshold) && |found| <= maxCount
    ensures Collected(start, multiset{}, pops, threshold, found, maxCount, again, again)
  {
    RestOfHeap(multiset{}, pops);
  }

  /** What a scan has done to the table so far. */
  ghost predicate Progress(cfg: Config, c0: seq<Slots>, contents: seq<Slots>, pops: seq<PrefetchKey>, threshold: nat,
                           base: nat, maxCount: nat, found: seq<Found>, requeue: seq<PrefetchKey>)
  {
    && |cfg.caps| > 0 && |c0| == |cfg.caps|
    && ScanAll(cfg, c0, pops, threshold, base) == ScanAcc(contents, found, requeue)
    && RoomBefore(cfg, c0, pops, threshold, base, maxCount) && |found| <= maxCount
  }

  /** What the scan loop has done, to heap and table, when it ends. */
  ghost predicate CollectedAll(cfg: Config, h0: multiset<PrefetchKey>, c0: seq<Slots>, heap: multiset<PrefetchKey>,
                               contents: seq<Slots>, pops: seq<PrefetchKey>, threshold: nat, base: nat, maxCount: nat,
                               found: seq<Found>, requeue: seq<PrefetchKey>)
  {
    && |cfg.caps| > 0 && |c0| == |cfg.caps|
    && RoomBefore(cfg, c0, pops, threshold, base, maxCount)
    && var acc := ScanAll(cfg, c0, pops, threshold, base);
       && contents == acc.shards && found == acc.found
       && Collected(h0, heap, pops, threshold, found, maxCount, requeue, acc.requeue)
  }

  lemma StopScan(cfg: Config, h0: multiset<PrefetchKey>, c0: seq<Slots>, heap: multiset<PrefetchKey>,
                 contents: seq<Slots>, pops: seq<PrefetchKey>, threshold: nat, base: nat, maxCount: nat,
                 found: seq<Found>, requeue: seq<PrefetchKey>, back: seq<PrefetchKey>)
    requires Progress(cfg, c0, contents, pops, threshold, base, maxCount, found, requeue)
    requires Collected(h0, heap, pops, threshold, found, maxCount, requeue + back, requeue)
    ensures CollectedAll(cfg, h0, c0, heap, contents, pops, threshold, base, maxCount, found, requeue + back)
  {
  }

  /** The collected keys put back, the reports sorted and the wait announced: a scan step. */
  lemma FinishScan(cfg: Config, s: State, heap: multiset<PrefetchKey>, contents: seq<Slots>, pops: seq<PrefetchKey>,
                   now: nat, ahead: Option<nat>, base: nat, maxCount: nat, found: seq<Found>,
                   requeue: seq<PrefetchKey>, result: seq<Found>, wait: nat, left: multiset<PrefetchKey>)
    requires Sound(cfg, s) && left == heap + multiset(requeue)
    requires CollectedAll(cfg, s.heap, s.shards, heap, contents, pops, Threshold(cfg, now, ahead), base, maxCount,
                          found, requeue)
    requires StablySorted(found, result) && NextWait(left, Threshold(cfg, now, ahead), wait)
    ensures var s' := State(contents, left, s.totalBytes);
            Sound(cfg, s') && Step(cfg, s, Scan(now, ahead, base, maxCount, pops, result, wait), s')
  {
    var threshold := Threshold(cfg, now, ahead);
    var acc := ScanAll(cfg, s.shards, pops, threshold, base);
    ScanFromParts(cfg, s, threshold, base, maxCount, pops, acc, result, left, wait);
    ScanAllFacts(cfg, s, pops, threshold, base);
  }

  /** A stored and budgeted answer, once its key is on the heap, is an insert step. */
  lemma InsertIsStep(cfg: Config, s: State, q: Query, records: seq<Record>, group: string, now: nat, w: State)
    requires Sound(cfg, s) && Sound(cfg, w)
    requires Enforced(cfg, Store(cfg, s, q, InsertEntry(q, records, group, now)), w)
    ensures var s' := w.(heap := w.heap + multiset{PrefetchKey(InsertEntry(q, records, group, now).validUntil, q)});
            Sound(cfg, s') && Step(cfg, s, Op.Insert(q, records, group, now), s')
  {
    var s' := w.(heap := w.heap + multiset{PrefetchKey(InsertEntry(q, records, group, now).validUntil, q)});
    assert s'.(heap := s.heap) == w;
  }

  lemma StopAt(start: multiset<PrefetchKey>, heap: multiset<PrefetchKey>, pops: seq<PrefetchKey>, threshold: nat,
               key: PrefetchKey, found: seq<Found>, maxCount: nat, again: seq<PrefetchKey>)
    requires HeapSplit(start, heap, pops, threshold) && |found| <= maxCount
    requires key in heap && forall k :: k in heap ==> key.exp <= k.exp
    requires key.exp > threshold || |found| >= maxCount
    ensures Collected(start, heap - multiset{key}, pops, threshold, found, maxCount, again + [key], again)
  {
    RestOfHeap(heap, pops);
    MoveOne(heap, again, key);
  }

  function InsertByHits(s: seq<Found>, f: Found): (r: seq<Found>)
    ensures multiset(r) == multiset(s) + multiset{f}
  {
    if s == [] || s[|s| - 1].hits >= f.hits then s + [f]
    else
      assert s == s[..|s| - 1] + [s[|s| - 1]];
      InsertByHits(s[..|s| - 1], f) + [s[|s| - 1]]
  }

  lemma {:induction false} InsertByHitsSorted(s: seq<Found>, f: Found)
    requires SortedByHits(s)
    ensures SortedByHits(InsertByHits(s, f))
  {
    if s != [] && s[|s| - 1].hits < f.hits {
      var init, last := s[..|s| - 1], s[|s| - 1];
      InsertByHitsSorted(init, f);
      var r := InsertByHits(init, f);
      forall i | 0 <= i < |r|
        ensures r[i].hits >= last.hits
      {
        assert r[i] in multiset(r);
        assert r[i] == f || r[i] in init;
      }
    }
  }

  lemma WithHitsAppend(s: seq<Found>, f: Found, h: nat)
    ensures WithHits(s + [f], h) == WithHits(s, h) + if f.hits == h then [f] else []
  {
    assert (s + [f])[..|s|] == s;
  }

  lemma {:induction false} InsertByHitsStable(s: seq<Found>, f: Found, h: nat)
    ensures WithHits(InsertByHits(s, f), h) == WithHits(s, h) + if f.hits == h then [f] else []
  {
    if s == [] || s[|s| - 1].hits >= f.hits {
      WithHitsAppend(s, f, h);
    } else {
      var init, last := s[..|s| - 1], s[|s| - 1];
      InsertByHitsStable(init, f, h);
      WithHitsAppend(InsertByHits(init, f), last, h);
    }
  }

  lemma InsertKeepsStable(s: seq<Found>, r: seq<Found>, f: Found)
    requires StablySorted(s, r)
    ensures StablySorted(s + [f], InsertByHits(r, f))
  {
    InsertByHitsSorted(r, f);
    forall h
      ensures WithHits(InsertByHits(r, f), h) == WithHits(s + [f], h)
    {
      InsertByHitsStable(r, f, h);
      WithHitsAppend(s, f, h);
    }
  }

  /** The stable sort, most hits first. */
  method SortByHits(found: seq<Found>) returns (r: seq<Found>)
    ensures StablySorted(found, r)
  {
    r := [];
    for i := 0 to |found|
      invariant StablySorted(found[..i], r)
    {
      InsertKeepsStable(found[..i], r, found[i]);
      assert found[..i + 1] == found[..i] + [found[i]];
      r := InsertByHits(r, found[i]);
    }
    assert found[..|found|] == found;
  }

  method LeastTtlOf(records: seq<Record>) returns (ttl: nat)
    ensures ttl == LeastTtl(records, DEFAULT_LIFETIME)
  {
    ttl := DEFAULT_LIFETIME;
    for i := 0 to |records|
      invariant ttl == LeastTtl(records[..i], DEFAULT_LIFETIME)
    {
      assert records[..i + 1][..i] == records[..i];
      ttl := Min(ttl, records[i].ttl);
    }
    assert records[..|records|] == records;
  }

  lemma StraysStep(original: Query, records: seq<Record>, r: Record)
    ensures Strays(original, records + [r]) <==> Strays(original, records) || QueryOf(r) != original
  {
    var all := records + [r];
    if Strays(original, records) {
      var i :| 0 <= i < |records| && QueryOf(records[i]) != original;
      assert QueryOf(all[i]) != original;
    } else if QueryOf(r) != original {
      assert QueryOf(all[|records|]) != original;
    }
  }

  lemma GroupKeysDistinct(records: seq<Record>)
    ensures var g := Grouped(records); forall i, j :: 0 <= i < j < |g| ==> g[i].query != g[j].query
  {
    FirstQueriesExact(records);
  }

  lemma PlaceAt(groups: seq<Group>, i: nat, q: Query)
    requires i < |groups| && forall a, b :: 0 <= a < b < |groups| ==> groups[a].query != groups[b].query
    ensures groups[i].query == q <==> Place(groups, q) == i
  {
  }

  lemma AppendNext<T>(first: seq<T>, w: seq<T>, i: nat)
    requires i < |w|
    ensures first + w[..i] + [w[i]] == first + w[..i + 1]
  {
  }

  lemma StraysUnlessOriginal(original: Query, records: seq<Record>)
    requires records != [] && original !in FirstQueries(records)
    ensures Strays(original, records)
  {
    FirstQueriesExact(records);
    assert QueryOf(records[0]) in FirstQueries(records);
  }

  method GroupRecords(original: Query, records: seq<Record>) returns (groups: seq<Group>, isCnameQuery: bool)
    ensures groups == Grouped(records)
    ensures isCnameQuery <==> Strays(original, records)
  {
    groups, isCnameQuery := [], false;
    for i := 0 to |records|
      invariant groups == Grouped(records[..i])
      invariant isCnameQuery <==> Strays(original, records[..i])
    {
      AddRecordGroups(records[..i], records[i]);
      assert records[..i + 1] == records[..i] + [records[i]];
      StraysStep(original, records[..i], records[i]);
      groups := AddRecord(groups, records[i]);
      isCnameQuery := isCnameQuery || original != QueryOf(records[i]);
    }
    assert records[..|records|] == records;
  }

  function Entries(shards: seq<Slots>): nat {
    if shards == [] then 0 else |shards[0]| + Entries(shards[1..])
  }

  lemma {:induction false} EntriesUpdate(shards: seq<Slots>, k: nat, slots: Slots)
    requires k < |shards|
    ensures Entries(shards[k := slots]) == Entries(shards) - |shards[k]| + |slots|
  {
    if k > 0 {
      EntriesUpdate(shards[1..], k - 1, slots);
      assert shards[k := slots][1..] == shards[1..][k - 1 := slots];
    } else {
      assert shards[k := slots][1..] == shards[1..];
    }
  }

  lemma EntriesPop(shards: seq<Slots>, k: nat)
    requires k < |shards|
    ensures Entries(PopAt(shards, k)) == Entries(shards) - if shards[k] == [] then 0 else 1
  {
    if shards[k] != [] {
      EntriesUpdate(shards, k, shards[k][..|shards[k]| - 1]);
    }
  }

  class DnsCache {
    const cfg: Config
    const shards: seq<Shard<Query, Entry>>
    var heap: multiset<PrefetchKey>
    var totalBytes: int

    /** The slots of all shards; `Built` ties it to the shard objects. */
    ghost var contents: seq<Slots>

    ghost function View(): State
      reads this
    {
      State(contents, heap, totalBytes)
    }

    ghost predicate Built()
      reads this`contents, shards
    {
      && |shards| == |cfg.caps| == |contents|
      && (forall i, j :: 0 <= i < j < |shards| ==> shards[i] != shards[j])
      && (forall i :: 0 <= i < |shards| ==> shards[i].cap == cfg.caps[i] && shards[i].slots == contents[i])
    }

    ghost predicate Valid()
      reads this, shards
    {
      Built() && Sound(cfg, View())
    }

    constructor (cacheSize: nat, expiredTtl: nat, expiredReplyTtl: nat, maxBytes: nat, layout: Layout,
                 hash: Query -> nat)
      ensures Valid() && fresh(shards)
      ensures cfg == Config(Capacities(cacheSize), expiredTtl, expiredReplyTtl, maxBytes, layout, hash)
      ensures View() == Init(cfg)
      ensures Sum(cfg.caps) == Max(cacheSize, 1)
    {
      CapacitiesSum(cacheSize);
      var caps := Capacities(cacheSize);
      var c := Config(caps, expiredTtl, expiredReplyTtl, maxBytes, layout, hash);
      var built: seq<Shard<Query, Entry>> := [];
      for i := 0 to |caps|
        invariant |built| == i
        invariant forall a :: 0 <= a < i ==> fresh(built[a]) && built[a].cap == caps[a] && built[a].slots == []
        invariant forall a, b :: 0 <= a < b < i ==> built[a] != built[b]
      {
        var shard := new Shard<Query, Entry>(caps[i]);
        built := built + [shard];
      }
      cfg, shards, heap, totalBytes := c, built, multiset{}, 0;
      contents := Init(c).shards;
      new;
      InitRefines(cfg);
    }

    // ---------- The memory budget ----------

    /** The counter is exact; all that the budget pass itself relies on. */
    ghost predicate Exact()
      reads this, shards
    {
      Built() && totalBytes == Total(cfg.layout, contents)
    }

    /** `pop_lru` on shard `i`, with its bytes returned to the counter. */
    method PopShard(i: nat) returns (popped: bool)
      requires Exact() && i < |shards|
      modifies this, shards
      ensures Exact() && heap == old(heap)
      ensures contents == PopAt(old(contents), i)
      ensures popped <==> old(contents)[i] != []
    {
      ghost var was := contents;
      var out := shards[i].PopLru();
      popped := out.Some?;
      contents := contents[i := shards[i].slots];
      if popped {
        totalBytes := totalBytes - EntrySize(cfg.layout, out.value.key, out.value.value);
      }
      TotalAfterPop(cfg.layout, was, i);
      assert contents == PopAt(was, i);
    }

    /** One eviction round over the shards; stops early when usage fits. */
    method EvictRound(ghost start: seq<Slots>, ghost r: nat) returns (evicted: bool, ghost j: nat)
      requires Exact() && totalBytes > cfg.maxBytes
      requires |start| == |shards| && contents == Visits(start, r, 0) && OverBudgetBefore(cfg, start, r, 0)
      modifies this, shards
      ensures Exact() && heap == old(heap)
      ensures j <= |start| && contents == Visits(start, r, j)
      ensures OverBudgetBefore(cfg, start, r, j)
      ensures totalBytes > cfg.maxBytes ==> j == |start|
      ensures evicted ==> Entries(contents) < old(Entries(contents))
      ensures !evicted ==> forall k :: 0 <= k < |shards| ==> contents[k] == []
    {
      evicted := false;
      ghost var first := contents;
      ghost var now := first;
      var i := 0;
      while i < |shards| && totalBytes > cfg.maxBytes
        invariant 0 <= i <= |shards| && Exact() && heap == old(heap)
        invariant now == contents == Visits(start, r, i)
        invariant OverBudgetBefore(cfg, start, r, i)
        invariant evicted ==> Entries(now) < Entries(first)
        invariant !evicted ==> now == first && forall k :: 0 <= k < i ==> first[k] == []
      {
        EntriesPop(now, i);
        OverBudgetNext(cfg, start, r, i);
        var popped := PopShard(i);
        now := contents;
        evicted := evicted || popped;
        i := i + 1;
      }
      j := i;
    }

    method EnforceMemoryBudget()
      requires Exact()
      modifies this, shards
      ensures Exact() && Enforced(cfg, old(View()), View())
    {
      if cfg.maxBytes == 0 {
        return;
      }
      ghost var start := contents;
      ghost var r: nat, j: nat := 0, 0;
      while totalBytes > cfg.maxBytes
        invariant Exact() && heap == old(heap)
        invariant j <= |start| && contents == Visits(start, r, j)
        invariant totalBytes > cfg.maxBytes ==> j == 0
        invariant OverBudgetBefore(cfg, start, r, j)
        decreases Entries(contents)
      {
        var evicted;
        evicted, j := EvictRound(start, r);
        if !evicted {
          EmptyTotal(cfg.layout, contents);
          break;
        }
        if totalBytes > cfg.maxBytes {
          OverBudgetRound(cfg, start, r);
          r, j := r + 1, 0;
        }
      }
      assert FirstFit(cfg, start, r, j);
    }

    // ---------- Writing ----------

    /** Puts a slot in through `push`, settling the bytes of whatever it displaced. */
    method AdmitEntry(q: Query, e: Entry)
      requires Built() && |cfg.caps| > 0
      modifies this, shards
      ensures Built() && Shaped(cfg, old(View())) && View() == Admit(cfg, old(View()), q, e)
    {
      var k := Route(cfg, q);
      var out := shards[k].PushSlot(q, e);
      contents := contents[k := shards[k].slots];
      if out.Some? {
        totalBytes := totalBytes - EntrySize(cfg.layout, out.value.key, out.value.value);
      }
      totalBytes := totalBytes + EntrySize(cfg.layout, q, e);
    }

    /** The shard section shared by both kinds of insert. */
    method StoreEntry(q: Query, e: Entry)
      requires Built() && |cfg.caps| > 0
      modifies this, shards
      ensures Built() && Shaped(cfg, old(View())) && View() == Store(cfg, old(View()), q, e)
    {
      var k := Route(cfg, q);
      var found := shards[k].Promote(q);
      if found.Some? {
        var entry := found.value;
        shards[k].WriteFront(Refresh(entry, e));
        contents := contents[k := shards[k].slots];
        totalBytes := totalBytes + EntrySize(cfg.layout, q, e) - EntrySize(cfg.layout, q, entry);
      } else {
        AdmitEntry(q, e);
      }
    }

    /** Store, then bring usage back within the budget. */
    method WriteEntry(q: Query, e: Entry)
      requires Valid() && e.failureTime == None
      modifies this, shards
      ensures Valid() && Enforced(cfg, Store(cfg, old(View()), q, e), View())
    {
      StoreIsSound(cfg, View(), q, e);
      StoreEntry(q, e);
      ghost var stored := View();
      EnforceMemoryBudget();
      EnforcedIsSound(cfg, stored, View());
    }

    method Insert(q: Query, records: seq<Record>, now: nat, group: string) returns (lookup: Response)
      requires Valid()
      modifies this, shards
      ensures Valid() && Step(cfg, old(View()), Op.Insert(q, records, group, now), View())
      ensures lookup == Answer(q, records, group)
    {
      var ttl := LeastTtlOf(records);
      var validUntil := now + ttl * SECOND;
      lookup := Answer(q, records, group);
      var e := Fresh(lookup, validUntil);
      assert e == InsertEntry(q, records, group, now);
      ghost var was := View();
      WriteEntry(q, e);
      ghost var written := View();
      InsertIsStep(cfg, was, q, records, group, now, written);
      heap := heap + multiset{PrefetchKey(validUntil, q)};
      assert View() == written.(heap := written.heap + multiset{PrefetchKey(e.validUntil, q)});
    }

    method InsertNegative(q: Query, response: Response, group: string, now: nat)
      requires Valid()
      modifies this, shards
      ensures Valid() && Step(cfg, old(View()), Negative(q, response, group, now), View())
    {
      WriteEntry(q, Fresh(NegativeAnswer(response, group), now + NegativeTtl(response) * SECOND));
    }

    /** `Insert` as the continuation of a run that began in `start`. */
    method InsertNext(q: Query, records: seq<Record>, now: nat, group: string, ghost start: State, ghost ops: seq<Op>)
      returns (lookup: Response)
      requires Valid() && Shaped(cfg, start) && Steps(cfg, start, ops, View())
      modifies this, shards
      ensures Valid() && Steps(cfg, start, ops + [Op.Insert(q, records, group, now)], View())
      ensures lookup == Answer(q, records, group)
    {
      ghost var before := View();
      lookup := Insert(q, records, now, group);
      StepsAppend(cfg, start, ops, before, Op.Insert(q, records, group, now), View());
    }

    /** The response after the first `i` groups: the group of the original query replaces the one so far. */
    static function Chosen(original: Query, groups: seq<Group>, i: nat, group: string, prior: Option<Response>)
      : Option<Response>
    {
      var p := Place(groups, original);
      if p < i && p < |groups| then Some(Answer(original, groups[p].records, group)) else prior
    }

    method InsertGroup(original: Query, groups: seq<Group>, i: nat, now: nat, group: string, prior: Option<Response>,
                       sofar: Option<Response>, ghost start: State, ghost first: seq<Op>, ghost writes: seq<Op>)
      returns (r: Option<Response>)
      requires Valid() && Shaped(cfg, start) && i < |groups|
      requires writes == GroupWrites(groups, group, now) && Steps(cfg, start, first + writes[..i], View())
      requires forall a, b :: 0 <= a < b < |groups| ==> groups[a].query != groups[b].query
      requires sofar == Chosen(original, groups, i, group, prior)
      modifies this, shards
      ensures Valid() && Steps(cfg, start, first + writes[..i + 1], View())
      ensures r == Chosen(original, groups, i + 1, group, prior)
    {
      var inserted := InsertNext(groups[i].query, groups[i].records, now, group, start, first + writes[..i]);
      AppendNext(first, writes, i);
      PlaceAt(groups, i, original);
      r := if original == groups[i].query then Some(inserted) else sofar;
    }

    /** Inserts the groups in order. */
    method InsertGroups(original: Query, groups: seq<Group>, now: nat, group: string, prior: Option<Response>,
                        ghost start: State, ghost first: seq<Op>)
      returns (r: Option<Response>)
      requires Valid() && Shaped(cfg, start) && Steps(cfg, start, first, View())
      requires forall i, j :: 0 <= i < j < |groups| ==> groups[i].query != groups[j].query
      modifies this, shards
      ensures Valid() && Steps(cfg, start, first + GroupWrites(groups, group, now), View())
      ensures r == Chosen(original, groups, |groups|, group, prior)
    {
      r := prior;
      ghost var writes := GroupWrites(groups, group, now);
      assert first + writes[..0] == first;
      for i := 0 to |groups|
        invariant Valid() && Steps(cfg, start, first + writes[..i], View())
        invariant r == Chosen(original, groups, i, group, prior)
      {
        r := InsertGroup(original, groups, i, now, group, prior, r, start, first, writes);
      }
      assert writes[..|groups|] == writes;
    }

    method InsertRecords(original: Query, records: seq<Record>, now: nat, group: string) returns (r: Option<Response>)
      requires Valid()
      modifies this, shards
      ensures Valid() && Steps(cfg, old(View()), Writes(original, records, group, now), View())
      ensures r == Returned(original, records, group)
    {
      var groups, isCnameQuery := GroupRecords(original, records);
      r := None;
      ghost var start := View();
      ghost var ops: seq<Op> := [];
      if isCnameQuery {
        var all := InsertNext(original, Flatten(groups), now, group, start, ops);
        ops := ops + [Op.Insert(original, Flatten(groups), group, now)];
        r := Some(all);
      }
      GroupKeysDistinct(records);
      r := InsertGroups(original, groups, now, group, r, start, ops);
      PlaceOfKey(records, original);
      if records != [] && original !in FirstQueries(records) {
        StraysUnlessOriginal(original, records);
      }
    }

    method AdmitItems(items: seq<Loaded>)
      requires Built() && |cfg.caps| > 0
      modifies this, shards
      ensures Built() && Shaped(cfg, old(View())) && View() == AdmitAll(cfg, old(View()), items)
    {
      ghost var start := View();
      for i := 0 to |items|
        invariant Built() && View() == AdmitAll(cfg, start, items[..i])
      {
        var item := items[i];
        assert items[..i + 1][..i] == items[..i];
        AdmitEntry(item.data.query, LoadedEntry(item));
        heap := heap + multiset{PrefetchKey(item.validUntil, item.data.query)};
      }
      assert items[..|items|] == items;
    }

    /** What `load_from` does with the decoded entries of a cache file. */
    method LoadFrom(items: seq<Loaded>)
      requires Valid()
      modifies this, shards
      ensures Valid() && Step(cfg, old(View()), Load(items), View())
    {
      ghost var start := View();
      AdmitItems(items);
      AdmitAllIsSound(cfg, start, items);
      EnforceMemoryBudget();
      EnforcedIsSound(cfg, AdmitAll(cfg, start, items), View());
    }

    method Clear()
      requires Valid()
      modifies this, shards
      ensures Valid() && Step(cfg, old(View()), Op.Clear, View())
    {
      for i := 0 to |shards|
        invariant |shards| == |cfg.caps| && forall k :: 0 <= k < i ==> shards[k].slots == []
      {
        shards[i].Reset();
      }
      heap := multiset{};
      totalBytes := 0;
      contents := Init(cfg).shards;
      InitRefines(cfg);
    }

    // ---------- Reading ----------

    method Get(q: Query, now: nat) returns (served: Option<Served>)
      requires Valid()
      modifies this, shards
      ensures Valid() && Step(cfg, old(View()), Op.Get(q, now, served), View())
    {
      ghost var start := View();
      var k := Route(cfg, q);
      var found := shards[k].Promote(q);
      if found.Some? {
        var e := found.value;
        shards[k].WriteFront(e.(hits := e.hits + 1));
        served := Some(Serve(cfg, e, q, now));
      } else {
        served := None;
      }
      contents := contents[k := shards[k].slots];
      assert View() == Touch(cfg, start, q);
      TouchIsSound(cfg, start, q);
    }

    // ---------- The expiry scan ----------

    method PopMin() returns (top: Option<PrefetchKey>)
      modifies this`heap
      ensures top == None <==> old(heap) == multiset{}
      ensures top == None ==> heap == old(heap)
      ensures top.Some? ==>
                && top.value in old(heap) && heap == old(heap) - multiset{top.value}
                && forall k :: k in old(heap) ==> top.value.exp <= k.exp
    {
      if heap == multiset{} {
        top := None;
      } else {
        HeapHasMin(heap);
        var k :| k in heap && forall k' :: k' in heap ==> k.exp <= k'.exp;
        heap := heap - multiset{k};
        top := Some(k);
      }
    }

    /** Judges one due key against the shard it is routed to. */
    method ScanVisit(key: PrefetchKey, threshold: nat, baseInterval: nat, ghost acc: ScanAcc)
      returns (report: Option<Found>, again: Option<PrefetchKey>)
      requires Built() && |cfg.caps| > 0 && acc.shards == contents
      modifies this`contents, shards
      ensures Built()
      ensures ScanOne(cfg, acc, key, threshold, baseInterval) ==
                ScanAcc(contents, acc.found + (if report.Some? then [report.value] else []),
                        acc.requeue + (if again.Some? then [again.value] else []))
    {
      report, again := None, None;
      var k := Route(cfg, key.query);
      var found := shards[k].Promote(key.query);
      if found.Some? {
        var e := found.value;
        if ShouldRetry(e, threshold, baseInterval) && IsIpAddr(key.query.qtype) {
          if IsCurrent(e, threshold) {
            again := Some(PrefetchKey(e.validUntil, key.query));
          } else {
            shards[k].WriteFront(e.(inPrefetch := true));
            report := Some(Found(key.query, e.hits, e.data.group));
          }
        }
      }
      contents := contents[k := shards[k].slots];
    }

    /** A scan under way, with `h0` and `c0` as they were at its start. */
    ghost predicate Scanning(h0: multiset<PrefetchKey>, c0: seq<Slots>, pops: seq<PrefetchKey>, threshold: nat,
                             baseInterval: nat, maxCount: nat, found: seq<Found>, requeue: seq<PrefetchKey>)
      reads this, shards
    {
      && Built() && HeapSplit(h0, heap, pops, threshold)
      && Progress(cfg, c0, contents, pops, threshold, baseInterval, maxCount, found, requeue)
    }

    /** One turn of the scan loop with the key just popped, once that key is known to be due. */
    method ScanTurn(key: PrefetchKey, threshold: nat, baseInterval: nat, maxCount: nat, found: seq<Found>,
                    requeue: seq<PrefetchKey>, ghost h0: multiset<PrefetchKey>, ghost c0: seq<Slots>,
                    ghost pops: seq<PrefetchKey>)
      returns (found': seq<Found>, requeue': seq<PrefetchKey>)
      requires Built() && HeapSplit(h0, heap, pops + [key], threshold) && |found| < maxCount
      requires Progress(cfg, c0, contents, pops, threshold, baseInterval, maxCount, found, requeue)
      modifies this`contents, shards
      ensures Scanning(h0, c0, pops + [key], threshold, baseInterval, maxCount, found', requeue')
    {
      var report, again := ScanVisit(key, threshold, baseInterval, ScanAcc(contents, found, requeue));
      found' := if report.Some? then found + [report.value] else found;
      requeue' := if again.Some? then requeue + [again.value] else requeue;
      RoomForNext(cfg, c0, pops, key, threshold, baseInterval, maxCount);
      assert (pops + [key])[..|pops|] == pops;
    }

    /** The next due key, or, when the scan has to stop, the key to put back. */
    method NextDue(threshold: nat, maxCount: nat, found: seq<Found>, requeue: seq<PrefetchKey>,
                   ghost h0: multiset<PrefetchKey>, ghost pops: seq<PrefetchKey>)
      returns (key: Option<PrefetchKey>, back: seq<PrefetchKey>)
      requires HeapSplit(h0, heap, pops, threshold) && |found| <= maxCount
      modifies this`heap
      ensures key.Some? ==> |found| < maxCount && HeapSplit(h0, heap, pops + [key.value], threshold)
      ensures key.Some? ==> |heap| < |old(heap)|
      ensures key.None? ==> Collected(h0, heap, pops, threshold, found, maxCount, requeue + back, requeue)
    {
      ghost var before := heap;
      var top := PopMin();
      if top == None {
        StopEmpty(h0, pops, threshold, found, maxCount, requeue);
        assert requeue + [] == requeue;
        return None, [];
      }
      if top.value.exp > threshold || |found| >= maxCount {
        StopAt(h0, before, pops, threshold, top.value, found, maxCount, requeue);
        return None, [top.value];
      }
      PopNext(h0, before, pops, threshold, top.value);
      return top, [];
    }

    /** Takes due keys off the heap until none is left, the next is not due, or the batch is full. */
    method CollectDue(threshold: nat, baseInterval: nat, maxCount: nat)
      returns (found: seq<Found>, requeue: seq<PrefetchKey>, ghost pops: seq<PrefetchKey>)
      requires Built() && |cfg.caps| > 0
      modifies this`heap, this`contents, shards
      ensures Built()
      ensures CollectedAll(cfg, old(heap), old(contents), heap, contents, pops, threshold, baseInterval, maxCount,
                           found, requeue)
    {
      found, requeue, pops := [], [], [];
      ghost var h0, c0 := heap, contents;
      while true
        invariant Scanning(h0, c0, pops, threshold, baseInterval, maxCount, found, requeue)
        decreases |heap|
      {
        var key, back := NextDue(threshold, maxCount, found, requeue, h0, pops);
        if key.None? {
          StopScan(cfg, h0, c0, heap, contents, pops, threshold, baseInterval, maxCount, found, requeue, back);
          requeue := requeue + back;
          return;
        }
        found, requeue := ScanTurn(key.value, threshold, baseInterval, maxCount, found, requeue, h0, c0, pops);
        pops := pops + [key.value];
      }
    }

    /** The wait until the next scan, from the earliest key on the heap. */
    method WaitFor(threshold: nat) returns (wait: nat)
      ensures NextWait(heap, threshold, wait)
    {
      wait := MAX_TTL * SECOND;
      if heap != multiset{} {
        HeapHasMin(heap);
        var k :| k in heap && forall k' :: k' in heap ==> k.exp <= k'.exp;
        if k.exp > threshold {
          wait := Min(k.exp - threshold, wait);
        }
      }
    }

    /** Puts keys back, sorts the reports and works out the wait. */
    method Announce(found: seq<Found>, requeue: seq<PrefetchKey>, threshold: nat)
      returns (expired: seq<Found>, wait: nat)
      modifies this`heap
      ensures heap == old(heap) + multiset(requeue) && StablySorted(found, expired) && NextWait(heap, threshold, wait)
    {
      heap := heap + multiset(requeue);
      wait := WaitFor(threshold);
      expired := SortByHits(found);
    }

    method GetExpired(now: nat, ahead: Option<nat>, baseInterval: nat, maxCount: nat)
      returns (expired: seq<Found>, wait: nat, ghost pops: seq<PrefetchKey>)
      requires Valid()
      modifies this, shards
      ensures Valid()
      ensures Step(cfg, old(View()), Scan(now, ahead, baseInterval, maxCount, pops, expired, wait), View())
    {
      ghost var start := View();
      var threshold := Threshold(cfg, now, ahead);
      var found, requeue;
      found, requeue, pops := CollectDue(threshold, baseInterval, maxCount);
      ghost var rest := heap;
      expired, wait := Announce(found, requeue, threshold);
      FinishScan(cfg, start, rest, contents, pops, now, ahead, baseInterval, maxCount, found, requeue, expired, wait,
                 heap);
      assert Built();
    }
  }
}
