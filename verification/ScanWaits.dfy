/** How far the wait that a prefetch scan announces can be relied on. */
module ScanWaits {
  import opened Dns
  import opened CacheModel
  import opened CacheRuns

  /** The entry of `q` would be refreshed, but expires at the very instant of the threshold. */
  ghost predicate ExpiresAt(cfg: Config, shards: seq<Slots>, q: Query, threshold: nat)
    requires |cfg.caps| > 0 && |shards| == |cfg.caps|
  {
    var e := Lookup(cfg, shards, q);
    e.Some? && IsIpAddr(q.qtype) && !e.value.inPrefetch && e.value.validUntil == threshold
  }

  /** What is put back stands for an unmarked address entry that has not expired. */
  lemma {:induction false} RequeuedIsResident(cfg: Config, s: State, pops: seq<PrefetchKey>, threshold: nat, base: nat,
                                              i: nat)
    requires Sound(cfg, s) && i < |ScanAll(cfg, s.shards, pops, threshold, base).requeue|
    ensures var k := ScanAll(cfg, s.shards, pops, threshold, base).requeue[i];
            var e := Lookup(cfg, s.shards, k.query);
            && e.Some? && IsIpAddr(k.query.qtype) && !e.value.inPrefetch
            && e.value.validUntil == k.exp && k.exp >= threshold
            && exists p :: p in pops && p.query == k.query
  {
    var init, key := pops[..|pops| - 1], pops[|pops| - 1];
    var acc := ScanAll(cfg, s.shards, init, threshold, base);
    ScanAllFacts(cfg, s, init, threshold, base);
    ScanOneLookup(cfg, s, acc, key, threshold, base);
    if i < |acc.requeue| {
      RequeuedIsResident(cfg, s, init, threshold, base, i);
    } else {
      assert Scanned(cfg, s.shards, acc, key.query);
      assert key in pops;
    }
  }

  /** A key at the threshold is put back exactly when a popped key stands for an entry expiring right then. */
  lemma RequeuedAtThreshold(cfg: Config, s: State, pops: seq<PrefetchKey>, threshold: nat, base: nat)
    requires Sound(cfg, s)
    ensures (exists k :: k in ScanAll(cfg, s.shards, pops, threshold, base).requeue && k.exp <= threshold) <==>
            (exists p :: p in pops && ExpiresAt(cfg, s.shards, p.query, threshold))
  {
    var acc := ScanAll(cfg, s.shards, pops, threshold, base);
    ScanAllFacts(cfg, s, pops, threshold, base);
    if k :| k in acc.requeue && k.exp <= threshold {
      var i :| 0 <= i < |acc.requeue| && acc.requeue[i] == k;
      RequeuedIsResident(cfg, s, pops, threshold, base, i);
      var p :| p in pops && p.query == k.query;
      assert ExpiresAt(cfg, s.shards, p.query, threshold);
    }
    if p :| p in pops && ExpiresAt(cfg, s.shards, p.query, threshold) {
      var i :| 0 <= i < |pops| && pops[i] == p;
      assert Answered(cfg, acc, pops[i]);
      assert Scanned(cfg, s.shards, acc, p.query);
      NotDueNotReported(cfg, s, pops, threshold, base, p.query);
      assert PrefetchKey(threshold, p.query) in acc.requeue;
    }
  }

  lemma NotDueNotReported(cfg: Config, s: State, pops: seq<PrefetchKey>, threshold: nat, base: nat, q: Query)
    requires Sound(cfg, s) && Lookup(cfg, s.shards, q).Some?
    requires !Due(q, Lookup(cfg, s.shards, q).value, threshold)
    ensures !Reported(ScanAll(cfg, s.shards, pops, threshold, base).found, q)
  {
    var acc := ScanAll(cfg, s.shards, pops, threshold, base);
    ScanAllFacts(cfg, s, pops, threshold, base);
    forall i | 0 <= i < |acc.found|
      ensures acc.found[i].query != q
    {
      assert FoundOk(cfg, s.shards, acc.found[i], threshold);
    }
  }

  ghost predicate NoKeyDue(heap: multiset<PrefetchKey>, threshold: nat) {
    forall k :: k in heap ==> k.exp > threshold
  }

  lemma KeyLeftDue(cfg: Config, s: State, threshold: nat, base: nat, maxCount: nat, pops: seq<PrefetchKey>,
                   result: seq<Found>, wait: nat, s': State)
    requires Sound(cfg, s) && ScanStep(cfg, s, threshold, base, maxCount, pops, result, wait, s')
    ensures NoKeyDue(s'.heap, threshold) <==>
              && NoKeyDue(s.heap - multiset(pops), threshold)
              && !exists p :: p in pops && ExpiresAt(cfg, s.shards, p.query, threshold)
  {
    var acc := ScanAll(cfg, s.shards, pops, threshold, base);
    RequeuedAtThreshold(cfg, s, pops, threshold, base);
    assert forall k :: k in acc.requeue <==> k in multiset(acc.requeue);
    assert forall k :: k in s'.heap <==> k in s.heap - multiset(pops) || k in multiset(acc.requeue);
  }

  /** The announced wait keeps clear of every key left on the heap. */
  ghost predicate WaitIsSafe(heap: multiset<PrefetchKey>, threshold: nat, wait: nat) {
    forall k :: k in heap ==> threshold + wait <= k.exp
  }

  /** The announced wait never runs past a key on the heap, except when a due key was left unpopped or a popped key
      stood for an entry expiring exactly at the threshold; then it always does. */
  lemma WaitIsSafeIff(cfg: Config, s: State, threshold: nat, base: nat, maxCount: nat, pops: seq<PrefetchKey>,
                      result: seq<Found>, wait: nat, s': State)
    requires Sound(cfg, s) && ScanStep(cfg, s, threshold, base, maxCount, pops, result, wait, s')
    ensures WaitIsSafe(s'.heap, threshold, wait) <==>
              && NoKeyDue(s.heap - multiset(pops), threshold)
              && !exists p :: p in pops && ExpiresAt(cfg, s.shards, p.query, threshold)
  {
    KeyLeftDue(cfg, s, threshold, base, maxCount, pops, result, wait, s');
    assert WaitIsSafe(s'.heap, threshold, wait) <==> NoKeyDue(s'.heap, threshold);
  }

  ghost function HeapQueries(heap: multiset<PrefetchKey>): set<Query> {
    set k | k in heap :: k.query
  }

  /** The resident entries that a scan should report and that have a due key on the heap. */
  ghost function DueQueries(cfg: Config, s: State, threshold: nat): set<Query>
    requires Shaped(cfg, s)
  {
    set q | q in HeapQueries(s.heap) && Covered(s.heap, q, threshold) && DueIn(cfg, s, q, threshold)
  }

  ghost predicate DueIn(cfg: Config, s: State, q: Query, threshold: nat)
    requires Shaped(cfg, s)
  {
    var e := Lookup(cfg, s.shards, q);
    e.Some? && Due(q, e.value, threshold)
  }

  lemma DueQueriesExact(cfg: Config, s: State, threshold: nat, q: Query)
    requires Shaped(cfg, s)
    ensures q in DueQueries(cfg, s, threshold) <==> Covered(s.heap, q, threshold) && DueIn(cfg, s, q, threshold)
  {
    if Covered(s.heap, q, threshold) {
      var k :| k in s.heap && k.query == q && k.exp <= threshold;
      assert k.query in HeapQueries(s.heap);
    }
  }

  function QueriesOf(found: seq<Found>): set<Query> {
    set i | 0 <= i < |found| :: found[i].query
  }

  lemma {:induction false} CountOfDistinct(found: seq<Found>)
    requires forall i, j :: 0 <= i < j < |found| ==> found[i].query != found[j].query
    ensures |QueriesOf(found)| == |found|
  {
    if found != [] {
      var n := |found| - 1;
      CountOfDistinct(found[..n]);
      assert QueriesOf(found) == QueriesOf(found[..n]) + {found[n].query};
      assert found[n].query !in QueriesOf(found[..n]);
    }
  }

  /** A scan reports as many entries as are due, up to the limit. */
  lemma ReportsUpToLimit(cfg: Config, s: State, threshold: nat, base: nat, maxCount: nat, pops: seq<PrefetchKey>,
                         result: seq<Found>, wait: nat, s': State)
    requires Sound(cfg, s) && ScanStep(cfg, s, threshold, base, maxCount, pops, result, wait, s')
    ensures QueriesOf(result) <= DueQueries(cfg, s, threshold)
    ensures |result| == Min(|DueQueries(cfg, s, threshold)|, maxCount)
  {
    ScanReportsOnlyDue(cfg, s, threshold, base, maxCount, pops, result, wait, s');
    CountOfDistinct(result);
    var due := DueQueries(cfg, s, threshold);
    forall q | q in QueriesOf(result)
      ensures q in due
    {
      ReportIsDue(cfg, s, threshold, base, maxCount, pops, result, wait, s', q);
    }
    SubsetCount(QueriesOf(result), due);
    if |result| < maxCount {
      ScanReportsAllDue(cfg, s, threshold, base, maxCount, pops, result, wait, s');
      forall q | q in due
        ensures q in QueriesOf(result)
      {
        DueQueriesExact(cfg, s, threshold, q);
        assert Reported(result, q);
      }
      assert due == QueriesOf(result);
    }
  }

  lemma ReportIsDue(cfg: Config, s: State, threshold: nat, base: nat, maxCount: nat, pops: seq<PrefetchKey>,
                    result: seq<Found>, wait: nat, s': State, q: Query)
    requires Sound(cfg, s) && ScanStep(cfg, s, threshold, base, maxCount, pops, result, wait, s')
    requires q in QueriesOf(result)
    ensures q in DueQueries(cfg, s, threshold)
  {
    var acc := ScanAll(cfg, s.shards, pops, threshold, base);
    SameReports(acc.found, result);
    assert Reported(result, q);
    ReportedHadDueKey(cfg, s.shards, pops, threshold, base, q);
    var k :| k in pops && k.query == q;
    assert k in multiset(pops) && k.exp <= threshold;
    assert Covered(s.heap, q, threshold);
    ScanReportsOnlyDue(cfg, s, threshold, base, maxCount, pops, result, wait, s');
    var i :| 0 <= i < |result| && result[i].query == q;
    assert FoundOk(cfg, s.shards, result[i], threshold);
    DueQueriesExact(cfg, s, threshold, q);
  }

  lemma SubsetCount<T>(a: set<T>, b: set<T>)
    requires a <= b
    ensures |a| <= |b|
  {
    assert b == a + (b - a);
  }

  /** A due entry that is not reported still has its due key on the heap. */
  lemma UnreportedKeepsKey(cfg: Config, s: State, threshold: nat, base: nat, pops: seq<PrefetchKey>, q: Query)
    requires Sound(cfg, s) && multiset(pops) <= s.heap
    requires q in DueQueries(cfg, s, threshold)
    requires !Reported(ScanAll(cfg, s.shards, pops, threshold, base).found, q)
    ensures !NoKeyDue(s.heap - multiset(pops), threshold)
  {
    var acc := ScanAll(cfg, s.shards, pops, threshold, base);
    ScanAllFacts(cfg, s, pops, threshold, base);
    DueQueriesExact(cfg, s, threshold, q);
    var k :| k in s.heap && k.query == q && k.exp <= threshold;
    assert Scanned(cfg, s.shards, acc, q);
    if k in pops {
      assert false;
    }
    assert k !in multiset(pops);
    assert k in s.heap - multiset(pops);
  }

  lemma SomeUnreported(cfg: Config, s: State, threshold: nat, base: nat, maxCount: nat, pops: seq<PrefetchKey>,
                       result: seq<Found>, wait: nat, s': State) returns (q: Query)
    requires Sound(cfg, s) && ScanStep(cfg, s, threshold, base, maxCount, pops, result, wait, s')
    requires |DueQueries(cfg, s, threshold)| > maxCount
    ensures q in DueQueries(cfg, s, threshold) && !Reported(result, q)
  {
    ScanReportsOnlyDue(cfg, s, threshold, base, maxCount, pops, result, wait, s');
    CountOfDistinct(result);
    var due := DueQueries(cfg, s, threshold);
    if due <= QueriesOf(result) {
      SubsetCount(due, QueriesOf(result));
      assert false;
    }
    q :| q in due && q !in QueriesOf(result);
  }

  lemma DueKeysArePopped(heap: multiset<PrefetchKey>, pops: seq<PrefetchKey>, threshold: nat)
    requires PopOrder(heap, pops, threshold) && NoKeyDue(heap - multiset(pops), threshold)
    ensures forall k :: k in pops <==> k in heap && k.exp <= threshold
  {
    forall k
      ensures k in pops <==> k in heap && k.exp <= threshold
    {
      assert k in pops <==> k in multiset(pops);
    }
  }

  // ---------- Which entries a full batch takes ----------

  /** Popping a key of a due entry reports that entry. */
  lemma PoppedDueIsReported(cfg: Config, s: State, pops: seq<PrefetchKey>, threshold: nat, base: nat, k: PrefetchKey)
    requires Sound(cfg, s) && k in pops && DueIn(cfg, s, k.query, threshold)
    ensures Reported(ScanAll(cfg, s.shards, pops, threshold, base).found, k.query)
  {
    var acc := ScanAll(cfg, s.shards, pops, threshold, base);
    ScanAllFacts(cfg, s, pops, threshold, base);
    assert Scanned(cfg, s.shards, acc, k.query);
    var i :| 0 <= i < |pops| && pops[i] == k;
    assert Answered(cfg, acc, pops[i]);
  }

  /** With no more due entries than the limit, all of them are reported. */
  lemma AllDueReported(cfg: Config, s: State, threshold: nat, base: nat, maxCount: nat, pops: seq<PrefetchKey>,
                       result: seq<Found>, wait: nat, s': State)
    requires Sound(cfg, s) && ScanStep(cfg, s, threshold, base, maxCount, pops, result, wait, s')
    requires |DueQueries(cfg, s, threshold)| <= maxCount
    ensures QueriesOf(result) == DueQueries(cfg, s, threshold)
    ensures ExactlyDue(cfg, s, result, threshold)
  {
    var due := DueQueries(cfg, s, threshold);
    ReportsUpToLimit(cfg, s, threshold, base, maxCount, pops, result, wait, s');
    ScanReportsOnlyDue(cfg, s, threshold, base, maxCount, pops, result, wait, s');
    CountOfDistinct(result);
    SameSize(QueriesOf(result), due);
    forall q
      ensures Reported(result, q) <==> Covered(s.heap, q, threshold) && DueIn(cfg, s, q, threshold)
    {
      DueQueriesExact(cfg, s, threshold, q);
      assert Reported(result, q) <==> q in QueriesOf(result);
    }
  }

  lemma SameSize<T>(a: set<T>, b: set<T>)
    requires a <= b && |a| == |b|
    ensures a == b
  {
    assert b == a + (b - a);
    assert |b - a| == 0;
  }

  /** A full batch takes the earliest: an entry that is reported has a key no later than any key of a due entry that is
      not. */
  lemma FullBatchIsEarliest(cfg: Config, s: State, threshold: nat, base: nat, maxCount: nat, pops: seq<PrefetchKey>,
                            result: seq<Found>, wait: nat, s': State, q: Query, k': PrefetchKey)
    requires Sound(cfg, s) && ScanStep(cfg, s, threshold, base, maxCount, pops, result, wait, s')
    requires Reported(result, q) && k' in s.heap && DueIn(cfg, s, k'.query, threshold) && !Reported(result, k'.query)
    ensures exists k :: k in s.heap && k.query == q && k.exp <= k'.exp
  {
    var acc := ScanAll(cfg, s.shards, pops, threshold, base);
    SameReports(acc.found, result);
    ReportedHadDueKey(cfg, s.shards, pops, threshold, base, q);
    var k :| k in pops && k.query == q;
    if k' in pops {
      PoppedDueIsReported(cfg, s, pops, threshold, base, k');
      assert false;
    }
    assert k in multiset(pops) && k' !in multiset(pops);
    assert k' in s.heap - multiset(pops);
    var i :| 0 <= i < |pops| && pops[i] == k;
    assert pops[i].exp <= k'.exp;
  }

  // ---------- The wait, from the state before the call ----------

  /** No due key stands for an entry that expires exactly at the threshold. */
  ghost predicate NoneExpiring(cfg: Config, s: State, threshold: nat)
    requires Shaped(cfg, s)
  {
    !exists k :: k in s.heap && k.exp <= threshold && ExpiresAt(cfg, s.shards, k.query, threshold)
  }

  /** A due key of greatest deadline. */
  ghost predicate Latest(heap: multiset<PrefetchKey>, threshold: nat, k: PrefetchKey) {
    k in heap && k.exp <= threshold && forall k' :: k' in heap && k'.exp <= threshold ==> k'.exp <= k.exp
  }

  /** The only due key of a due entry. */
  ghost predicate Sole(cfg: Config, s: State, threshold: nat, k: PrefetchKey)
    requires Shaped(cfg, s)
  {
    && k.query in DueQueries(cfg, s, threshold) && s.heap[k] == 1
    && forall k' :: k' in s.heap && k'.exp <= threshold && k'.query == k.query ==> k' == k
  }

  lemma {:induction false} HasLatest(heap: multiset<PrefetchKey>, threshold: nat, k: PrefetchKey)
    returns (g: PrefetchKey)
    requires k in heap && k.exp <= threshold
    ensures Latest(heap, threshold, g)
    decreases threshold - k.exp
  {
    if k' :| k' in heap && k'.exp <= threshold && k'.exp > k.exp {
      g := HasLatest(heap, threshold, k');
    } else {
      g := k;
    }
  }

  /** If a due key is left on the heap, one of greatest deadline is. */
  lemma LatestIsLeft(heap: multiset<PrefetchKey>, pops: seq<PrefetchKey>, threshold: nat, k: PrefetchKey)
    returns (g: PrefetchKey)
    requires multiset(pops) <= heap && EarliestFirst(heap, pops)
    requires k in heap - multiset(pops) && k.exp <= threshold
    ensures Latest(heap, threshold, g) && g in heap - multiset(pops)
  {
    g := HasLatest(heap, threshold, k);
    if g !in heap - multiset(pops) {
      assert g in multiset(pops);
      assert g in pops;
      var i :| 0 <= i < |pops| && pops[i] == g;
      assert pops[i].exp <= k.exp;
      g := k;
    }
  }

  /** As many due entries as the limit, and every latest key the sole key of one: then no due key is left. */
  lemma SoleKeysAreTaken(cfg: Config, s: State, threshold: nat, base: nat, maxCount: nat, pops: seq<PrefetchKey>,
                         result: seq<Found>, wait: nat, s': State)
    requires Sound(cfg, s) && ScanStep(cfg, s, threshold, base, maxCount, pops, result, wait, s')
    requires |DueQueries(cfg, s, threshold)| <= maxCount
    requires forall k :: Latest(s.heap, threshold, k) ==> Sole(cfg, s, threshold, k)
    ensures NoKeyDue(s.heap - multiset(pops), threshold)
  {
    if k :| k in s.heap - multiset(pops) && k.exp <= threshold {
      var g := LatestIsLeft(s.heap, pops, threshold, k);
      assert Sole(cfg, s, threshold, g);
      AllDueReported(cfg, s, threshold, base, maxCount, pops, result, wait, s');
      SoleKeyWasPopped(cfg, s, threshold, base, maxCount, pops, result, wait, s', g);
      assert false;
    }
  }

  lemma SoleKeyWasPopped(cfg: Config, s: State, threshold: nat, base: nat, maxCount: nat, pops: seq<PrefetchKey>,
                         result: seq<Found>, wait: nat, s': State, g: PrefetchKey)
    requires Sound(cfg, s) && ScanStep(cfg, s, threshold, base, maxCount, pops, result, wait, s')
    requires Sole(cfg, s, threshold, g) && g.query in QueriesOf(result)
    ensures g !in s.heap - multiset(pops)
  {
    var acc := ScanAll(cfg, s.shards, pops, threshold, base);
    SameReports(acc.found, result);
    assert Reported(result, g.query);
    ReportedHadDueKey(cfg, s.shards, pops, threshold, base, g.query);
    var k :| k in pops && k.query == g.query;
    assert k in multiset(pops);
    var i :| 0 <= i < |pops| && pops[i] == k;
    assert k == g;
  }

  /** The last pop of a scan that just fills its batch is the first one for a due entry. */
  lemma LastPopFills(cfg: Config, s: State, threshold: nat, base: nat, maxCount: nat, pops: seq<PrefetchKey>)
    requires Sound(cfg, s) && pops != [] && RoomBefore(cfg, s.shards, pops, threshold, base, maxCount)
    requires |ScanAll(cfg, s.shards, pops, threshold, base).found| == maxCount
    ensures var n := |pops| - 1;
            DueIn(cfg, s, pops[n].query, threshold) && forall i :: 0 <= i < n ==> pops[i].query != pops[n].query
  {
    var n := |pops| - 1;
    var init, key := pops[..n], pops[n];
    var acc := ScanAll(cfg, s.shards, init, threshold, base);
    ScanAllFacts(cfg, s, init, threshold, base);
    ScanOneLookup(cfg, s, acc, key, threshold, base);
    assert |acc.found| < maxCount;
    assert Scanned(cfg, s.shards, acc, key.query);
    assert DueIn(cfg, s, key.query, threshold);
    forall i | 0 <= i < n
      ensures pops[i].query != key.query
    {
      if pops[i].query == key.query {
        assert init[i] == pops[i];
        PoppedDueIsReported(cfg, s, init, threshold, base, pops[i]);
        assert false;
      }
    }
  }

  lemma OnceInPops(heap: multiset<PrefetchKey>, pops: seq<PrefetchKey>, k: PrefetchKey)
    requires pops != [] && pops[|pops| - 1] == k && forall i :: 0 <= i < |pops| - 1 ==> pops[i] != k
    requires multiset(pops) <= heap && k !in heap - multiset(pops)
    ensures heap[k] == 1
  {
    var init := pops[..|pops| - 1];
    assert pops == init + [k];
    assert k !in init;
    assert multiset(init)[k] == 0;
  }

  lemma LastPopIsLatest(heap: multiset<PrefetchKey>, pops: seq<PrefetchKey>, threshold: nat)
    requires pops != [] && PopOrder(heap, pops, threshold)
    requires forall k :: k in pops <==> k in heap && k.exp <= threshold
    ensures Latest(heap, threshold, pops[|pops| - 1])
  {
    var g := pops[|pops| - 1];
    assert g in pops;
    forall k | k in heap && k.exp <= threshold
      ensures k.exp <= g.exp
    {
      assert k in pops;
      var i :| 0 <= i < |pops| && pops[i] == k;
    }
  }

  /** As many due entries as the limit, and no due key left: then some latest key is the sole key of a due entry. */
  lemma LastPopIsSole(cfg: Config, s: State, threshold: nat, base: nat, maxCount: nat, pops: seq<PrefetchKey>,
                      result: seq<Found>, wait: nat, s': State, k: PrefetchKey)
    returns (g: PrefetchKey)
    requires Sound(cfg, s) && ScanStep(cfg, s, threshold, base, maxCount, pops, result, wait, s')
    requires |DueQueries(cfg, s, threshold)| == maxCount && k in s.heap && k.exp <= threshold
    requires NoKeyDue(s.heap - multiset(pops), threshold)
    ensures Latest(s.heap, threshold, g) && Sole(cfg, s, threshold, g)
  {
    DueKeysArePopped(s.heap, pops, threshold);
    assert k in pops;
    g := pops[|pops| - 1];
    assert g in pops;
    LastPopIsLatest(s.heap, pops, threshold);
    ReportsUpToLimit(cfg, s, threshold, base, maxCount, pops, result, wait, s');
    SameReports(ScanAll(cfg, s.shards, pops, threshold, base).found, result);
    LastPopFills(cfg, s, threshold, base, maxCount, pops);
    SoleIfLast(cfg, s, threshold, pops, g);
  }

  lemma SoleIfLast(cfg: Config, s: State, threshold: nat, pops: seq<PrefetchKey>, g: PrefetchKey)
    requires Shaped(cfg, s) && pops != [] && pops[|pops| - 1] == g && DueIn(cfg, s, g.query, threshold)
    requires forall i :: 0 <= i < |pops| - 1 ==> pops[i].query != g.query
    requires multiset(pops) <= s.heap && forall k :: k in pops <==> k in s.heap && k.exp <= threshold
    requires NoKeyDue(s.heap - multiset(pops), threshold)
    ensures Sole(cfg, s, threshold, g)
  {
    assert g in pops;
    OnceInPops(s.heap, pops, g);
    assert Covered(s.heap, g.query, threshold);
    DueQueriesExact(cfg, s, threshold, g.query);
    forall k' | k' in s.heap && k'.exp <= threshold && k'.query == g.query
      ensures k' == g
    {
      assert k' in pops;
      var i :| 0 <= i < |pops| && pops[i] == k';
    }
  }

  /** Whether the wait is safe, from the state before the call.
      With fewer due entries than the limit: exactly when no due key stands for an entry expiring at the threshold.
      With more: never.
      With just as many: exactly then too, if every key of greatest due deadline is the sole due key of a due entry;
      never, if there are due keys and none of greatest deadline is. Otherwise the heap's choice among the keys of that
      deadline decides. */
  lemma WaitIsSafeBefore(cfg: Config, s: State, threshold: nat, base: nat, maxCount: nat, pops: seq<PrefetchKey>,
                         result: seq<Found>, wait: nat, s': State)
    requires Sound(cfg, s) && ScanStep(cfg, s, threshold, base, maxCount, pops, result, wait, s')
    ensures |DueQueries(cfg, s, threshold)| < maxCount ==>
              (WaitIsSafe(s'.heap, threshold, wait) <==> NoneExpiring(cfg, s, threshold))
    ensures |DueQueries(cfg, s, threshold)| > maxCount ==> !WaitIsSafe(s'.heap, threshold, wait)
    ensures |DueQueries(cfg, s, threshold)| == maxCount
              && (forall k :: Latest(s.heap, threshold, k) ==> Sole(cfg, s, threshold, k)) ==>
              (WaitIsSafe(s'.heap, threshold, wait) <==> NoneExpiring(cfg, s, threshold))
    ensures |DueQueries(cfg, s, threshold)| == maxCount && !NoKeyDue(s.heap, threshold)
              && (forall k :: Latest(s.heap, threshold, k) ==> !Sole(cfg, s, threshold, k)) ==>
              !WaitIsSafe(s'.heap, threshold, wait)
  {
    var due := DueQueries(cfg, s, threshold);
    ReportsUpToLimit(cfg, s, threshold, base, maxCount, pops, result, wait, s');
    WaitIsSafeIff(cfg, s, threshold, base, maxCount, pops, result, wait, s');
    SameReports(ScanAll(cfg, s.shards, pops, threshold, base).found, result);
    if |due| > maxCount {
      var q := SomeUnreported(cfg, s, threshold, base, maxCount, pops, result, wait, s');
      UnreportedKeepsKey(cfg, s, threshold, base, pops, q);
    } else if |due| < maxCount {
      DueKeysArePopped(s.heap, pops, threshold);
    } else {
      AtTheLimit(cfg, s, threshold, base, maxCount, pops, result, wait, s');
    }
  }

  lemma AtTheLimit(cfg: Config, s: State, threshold: nat, base: nat, maxCount: nat, pops: seq<PrefetchKey>,
                   result: seq<Found>, wait: nat, s': State)
    requires Sound(cfg, s) && ScanStep(cfg, s, threshold, base, maxCount, pops, result, wait, s')
    requires |DueQueries(cfg, s, threshold)| == maxCount
    ensures (forall k :: Latest(s.heap, threshold, k) ==> Sole(cfg, s, threshold, k)) ==>
              (WaitIsSafe(s'.heap, threshold, wait) <==> NoneExpiring(cfg, s, threshold))
    ensures !NoKeyDue(s.heap, threshold)
              && (forall k :: Latest(s.heap, threshold, k) ==> !Sole(cfg, s, threshold, k)) ==>
              !WaitIsSafe(s'.heap, threshold, wait)
  {
    WaitIsSafeIff(cfg, s, threshold, base, maxCount, pops, result, wait, s');
    if forall k :: Latest(s.heap, threshold, k) ==> Sole(cfg, s, threshold, k) {
      SoleKeysAreTaken(cfg, s, threshold, base, maxCount, pops, result, wait, s');
      DueKeysArePopped(s.heap, pops, threshold);
    }
    if !NoKeyDue(s.heap, threshold) && NoKeyDue(s.heap - multiset(pops), threshold) {
      var k :| k in s.heap && k.exp <= threshold;
      var g := LastPopIsSole(cfg, s, threshold, base, maxCount, pops, result, wait, s', k);
    }
  }

  /** After a scan of a table with fewer due entries than the limit and none expiring at the threshold, no refreshable
      entry falls due before the wait is over. */
  lemma NothingFallsDueDuringWait(cfg: Config, s: State, last: map<Query, Write>, op: Op, s': State, q: Query)
    requires Refines(cfg, s, last) && op.Scan? && Step(cfg, s, op, s')
    requires var threshold := Threshold(cfg, op.now, op.ahead);
             |DueQueries(cfg, s, threshold)| < op.maxCount && NoneExpiring(cfg, s, threshold)
    requires Shaped(cfg, s') && Lookup(cfg, s'.shards, q).Some?
    requires q in last && !last[q].kind.Denial? && IsIpAddr(q.qtype)
    ensures var e := Lookup(cfg, s'.shards, q).value;
            !e.inPrefetch ==> Threshold(cfg, op.now, op.ahead) + op.wait <= e.validUntil
  {
    var threshold := Threshold(cfg, op.now, op.ahead);
    var Scan(now, ahead, base, maxCount, pops, result, wait) := op;
    ScanRefines(cfg, s, last, threshold, base, maxCount, pops, result, wait, s');
    WaitIsSafeBefore(cfg, s, threshold, base, maxCount, pops, result, wait, s');
    var e := Lookup(cfg, s'.shards, q).value;
    assert Faithful(last, s'.heap, q, e);
    if !e.inPrefetch {
      var k :| k in s'.heap && k.query == q && k.exp <= e.validUntil;
    }
  }
}
