/** Concrete runs of the cache that show where the prefetch scan falls short. */
module CacheExamples {
  import opened Dns
  import opened Lru
  import opened CacheModel
  import opened CacheRuns
  import opened ScanWaits

  /** One shard with room for four entries, no budget, no stale serving. */
  const CFG: Config := Config([4], 0, 0, 0, Layout(0, 0, 0), _ => 0)

  const A1: Query := Query("a", A, 1)
  const B1: Query := Query("b", A, 1)
  const T1: Query := Query("t", OtherType(16), 1)

  /** A record that lives for five seconds. */
  function Short(q: Query): seq<Record> {
    [Record(q.name, q.qtype, 1, 5, Address(7))]
  }

  function InsertShort(q: Query, now: nat): Op {
    Insert(q, Short(q), "g", now)
  }

  function KeyAt(q: Query, seconds: nat): PrefetchKey {
    PrefetchKey(seconds * SECOND, q)
  }

  /** Without a budget an insert just stores the entry and its key. */
  function AfterInsert(s: State, q: Query, now: nat): State
    requires Shaped(CFG, s)
  {
    var e := InsertEntry(q, Short(q), "g", now);
    Store(CFG, s, q, e).(heap := s.heap + multiset{PrefetchKey(e.validUntil, q)})
  }

  lemma InsertWorks(s: State, q: Query, now: nat)
    requires Shaped(CFG, s)
    ensures Step(CFG, s, InsertShort(q, now), AfterInsert(s, q, now)) && Shaped(CFG, AfterInsert(s, q, now))
    ensures InsertEntry(q, Short(q), "g", now).validUntil == now + 5 * SECOND
  {
    var records := Short(q);
    assert records[..0] == [];
    assert LeastTtl(records, DEFAULT_LIFETIME) == 5;
    var s' := AfterInsert(s, q, now);
    assert s'.(heap := s.heap) == Store(CFG, s, q, InsertEntry(q, records, "g", now));
  }

  /** The entry of a short answer inserted at `now`. */
  function Stored(q: Query, now: nat, marked: bool, hits: nat): Slot<Query, Entry> {
    Slot(q, Entry(Answer(q, Short(q), "g"), now + 5 * SECOND, marked, None, hits))
  }

  function Table(slots: Slots, heap: multiset<PrefetchKey>, bytes: int): State {
    State([slots], heap, bytes)
  }

  lemma FirstInsert(q: Query)
    ensures AfterInsert(Init(CFG), q, 0) ==
              Table([Stored(q, 0, false, 0)], multiset{KeyAt(q, 5)},
                    EntrySize(CFG.layout, q, Stored(q, 0, false, 0).value))
  {
    InsertWorks(Init(CFG), q, 0);
    assert Init(CFG).shards == [[]];
    assert [Stored(q, 0, false, 0)] + [] == [Stored(q, 0, false, 0)];
  }

  lemma OneFoundIsSorted(found: seq<Found>)
    requires |found| <= 1
    ensures StablySorted(found, found)
  {
  }

  lemma OnePop(cfg: Config, shards: seq<Slots>, key: PrefetchKey, threshold: nat)
    requires |cfg.caps| == |shards| == 1
    ensures ScanAll(cfg, shards, [key], threshold, 0) == ScanOne(cfg, ScanAcc(shards, [], []), key, threshold, 0)
  {
    assert [key][..0] == [];
  }

  lemma OnePopOrder(heap: multiset<PrefetchKey>, key: PrefetchKey, threshold: nat)
    requires key in heap && key.exp <= threshold && forall k :: k in heap - multiset{key} ==> key.exp <= k.exp
    ensures multiset([key]) == multiset{key} && PopOrder(heap, [key], threshold) && EarliestFirst(heap, [key])
  {
  }

  lemma OneRoom(cfg: Config, shards: seq<Slots>, key: PrefetchKey, threshold: nat, maxCount: nat)
    requires |cfg.caps| == |shards| == 1 && maxCount > 0
    ensures RoomBefore(cfg, shards, [key], threshold, 0, maxCount)
  {
    assert [key][..0] == [];
  }

  /** A scan that pops one due key and leaves the heap empty or with a due key in front: the wait is a whole day. */
  lemma OneKeyScan(cfg: Config, s: State, key: PrefetchKey, now: nat, ahead: Option<nat>, maxCount: nat, acc: ScanAcc)
    requires |cfg.caps| == 1 && Shaped(cfg, s) && key in s.heap && key.exp <= Threshold(cfg, now, ahead)
    requires acc == ScanOne(cfg, ScanAcc(s.shards, [], []), key, Threshold(cfg, now, ahead), 0)
    requires |acc.found| <= maxCount && maxCount > 0 && forall k :: k in s.heap - multiset{key} ==> key.exp <= k.exp
    requires |acc.found| < maxCount ==>
               forall k :: k in s.heap - multiset{key} ==> k.exp > Threshold(cfg, now, ahead)
    requires var left := s.heap - multiset{key} + multiset(acc.requeue);
             left == multiset{} || exists k :: k in left && k.exp <= Threshold(cfg, now, ahead)
    ensures Step(cfg, s, Scan(now, ahead, 0, maxCount, [key], acc.found, 86400 * SECOND),
                 State(acc.shards, s.heap - multiset{key} + multiset(acc.requeue), s.totalBytes))
  {
    var threshold := Threshold(cfg, now, ahead);
    OnePop(cfg, s.shards, key, threshold);
    OnePopOrder(s.heap, key, threshold);
    OneRoom(cfg, s.shards, key, threshold, maxCount);
    OneFoundIsSorted(acc.found);
    var left := s.heap - multiset{key} + multiset(acc.requeue);
    ScanFromParts(cfg, s, threshold, 0, maxCount, [key], acc, acc.found, left, 86400 * SECOND);
  }

  /** A visit to a table of one entry. */
  lemma VisitOne(cfg: Config, slot: Slot<Query, Entry>, key: PrefetchKey, threshold: nat)
    requires |cfg.caps| == 1 && slot.key == key.query
    ensures var e := slot.value;
            ScanOne(cfg, ScanAcc([[slot]], [], []), key, threshold, 0) ==
              if !ShouldRetry(e, threshold, 0) || !IsIpAddr(key.query.qtype) then ScanAcc([[slot]], [], [])
              else if IsCurrent(e, threshold) then ScanAcc([[slot]], [], [PrefetchKey(e.validUntil, key.query)])
              else ScanAcc([[Slot(key.query, e.(inPrefetch := true))]], [Found(key.query, e.hits, e.data.group)], [])
  {
    assert IndexOf([slot], key.query) == 0 && Without([slot], 0) == [];
    var marked := Slot(key.query, slot.value.(inPrefetch := true));
    assert [slot] + [] == [slot] && [marked] + [] == [marked];
    assert [[slot]][0 := [slot]] == [[slot]] && [[slot]][0 := [marked]] == [[marked]];
    var nothing: seq<Found>, none: seq<PrefetchKey> := [], [];
    var f, k := Found(key.query, slot.value.hits, slot.value.data.group), PrefetchKey(slot.value.validUntil, key.query);
    assert nothing + [f] == [f] && none + [k] == [k];
  }

  /** A rewrite in a table of one entry. */
  lemma StoreOne(slot: Slot<Query, Entry>, heap: multiset<PrefetchKey>, bytes: int, e: Entry)
    ensures Store(CFG, Table([slot], heap, bytes), slot.key, e) ==
              Table([Slot(slot.key, Refresh(slot.value, e))], heap,
                    bytes + EntrySize(CFG.layout, slot.key, e) - SlotSize(CFG.layout, slot))
  {
    assert IndexOf([slot], slot.key) == 0 && Without([slot], 0) == [];
    var fresh' := Slot(slot.key, Refresh(slot.value, e));
    assert [fresh'] + [] == [fresh'] && [[slot]][0 := [fresh']] == [[fresh']];
  }

  // ---------- An entry that expires at the threshold ----------

  /** An entry inserted at time 0 for five seconds, and a scan at time 0: its key is put back although it is due, and
      the announced wait of a day runs past it. */
  lemma WaitOverrunsEntryAtThreshold()
    ensures var s := AfterInsert(Init(CFG), A1, 0);
            && Step(CFG, Init(CFG), InsertShort(A1, 0), s)
            && Step(CFG, s, Scan(0, None, 0, 10, [KeyAt(A1, 5)], [], 86400 * SECOND), s)
            && !WaitIsSafe(s.heap, Threshold(CFG, 0, None), 86400 * SECOND)
  {
    var s := AfterInsert(Init(CFG), A1, 0);
    InsertWorks(Init(CFG), A1, 0);
    FirstInsert(A1);
    var key := KeyAt(A1, 5);
    var slot := Stored(A1, 0, false, 0);
    var acc := ScanOne(CFG, ScanAcc(s.shards, [], []), key, Threshold(CFG, 0, None), 0);
    VisitOne(CFG, slot, key, Threshold(CFG, 0, None));
    assert acc == ScanAcc([[slot]], [], [key]);
    var left := s.heap - multiset{key} + multiset(acc.requeue);
    assert left == multiset{key} == s.heap;
    assert key in left;
    OneKeyScan(CFG, s, key, 0, None, 10, acc);
    assert key in s.heap && key.exp < Threshold(CFG, 0, None) + 86400 * SECOND;
  }

  // ---------- A mark that a fresh insert does not clear ----------

  function Report(q: Query): Found {
    Found(q, 0, Some("g"))
  }

  function Bytes1(q: Query): nat {
    EntrySize(CFG.layout, q, Stored(q, 0, false, 0).value)
  }

  /** The states: inserted, scanned and marked, inserted afresh, scanned again. */
  const INSERTED: State := Table([Stored(A1, 0, false, 0)], multiset{KeyAt(A1, 5)}, Bytes1(A1))
  const MARKED: State := Table([Stored(A1, 0, true, 0)], multiset{}, Bytes1(A1))
  const RENEWED: State := Table([Stored(A1, 100 * SECOND, true, 1)], multiset{KeyAt(A1, 105)}, Bytes1(A1))
  const MISSED: State := Table([Stored(A1, 100 * SECOND, true, 1)], multiset{}, Bytes1(A1))

  lemma ScanMarks()
    ensures Step(CFG, INSERTED, Scan(100 * SECOND, None, 0, 10, [KeyAt(A1, 5)], [Report(A1)], 86400 * SECOND), MARKED)
  {
    var key, slot := KeyAt(A1, 5), Stored(A1, 0, false, 0);
    var acc := ScanOne(CFG, ScanAcc(INSERTED.shards, [], []), key, Threshold(CFG, 100 * SECOND, None), 0);
    VisitOne(CFG, slot, key, Threshold(CFG, 100 * SECOND, None));
    assert acc == ScanAcc(MARKED.shards, [Report(A1)], []);
    assert INSERTED.heap - multiset{key} + multiset(acc.requeue) == multiset{};
    OneKeyScan(CFG, INSERTED, key, 100 * SECOND, None, 10, acc);
  }

  lemma InsertRenews()
    ensures Step(CFG, MARKED, InsertShort(A1, 100 * SECOND), RENEWED)
  {
    InsertWorks(MARKED, A1, 100 * SECOND);
    var slot := Stored(A1, 0, true, 0);
    StoreOne(slot, MARKED.heap, MARKED.totalBytes, InsertEntry(A1, Short(A1), "g", 100 * SECOND));
    assert AfterInsert(MARKED, A1, 100 * SECOND) == RENEWED;
  }

  lemma ScanMisses()
    ensures Step(CFG, RENEWED, Scan(1000 * SECOND, None, 0, 10, [KeyAt(A1, 105)], [], 86400 * SECOND), MISSED)
  {
    var key, slot := KeyAt(A1, 105), Stored(A1, 100 * SECOND, true, 1);
    var acc := ScanOne(CFG, ScanAcc(RENEWED.shards, [], []), key, Threshold(CFG, 1000 * SECOND, None), 0);
    VisitOne(CFG, slot, key, Threshold(CFG, 1000 * SECOND, None));
    assert acc == ScanAcc(RENEWED.shards, [], []);
    assert RENEWED.heap - multiset{key} + multiset(acc.requeue) == multiset{};
    OneKeyScan(CFG, RENEWED, key, 1000 * SECOND, None, 10, acc);
  }

  lemma FirstStep()
    ensures Step(CFG, Init(CFG), InsertShort(A1, 0), INSERTED)
  {
    InsertWorks(Init(CFG), A1, 0);
    FirstInsert(A1);
  }

  lemma RenewedHasExpired()
    ensures Lookup(CFG, RENEWED.shards, A1).Some?
    ensures Lookup(CFG, RENEWED.shards, A1).value.validUntil < Threshold(CFG, 1000 * SECOND, None)
  {
    FindAt(RENEWED.shards[0], 0);
  }

  /** A run from the empty cache: an entry is inserted, scanned when it has expired, and inserted afresh. When it has
      expired again, a scan with room for ten reports nothing. */
  lemma RenewedEntryIsMissed()
    ensures Step(CFG, Init(CFG), InsertShort(A1, 0), INSERTED)
    ensures Step(CFG, INSERTED, Scan(100 * SECOND, None, 0, 10, [KeyAt(A1, 5)], [Report(A1)], 86400 * SECOND), MARKED)
    ensures Step(CFG, MARKED, InsertShort(A1, 100 * SECOND), RENEWED)
    ensures Step(CFG, RENEWED, Scan(1000 * SECOND, None, 0, 10, [KeyAt(A1, 105)], [], 86400 * SECOND), MISSED)
    ensures Lookup(CFG, RENEWED.shards, A1).Some?
    ensures Lookup(CFG, RENEWED.shards, A1).value.validUntil < Threshold(CFG, 1000 * SECOND, None)
  {
    FirstStep();
    ScanMarks();
    InsertRenews();
    ScanMisses();
    RenewedHasExpired();
  }

  // ---------- A full batch ----------

  const TWO: State := AfterInsert(AfterInsert(Init(CFG), A1, 0), B1, 0)

  lemma TwoEntries()
    ensures Step(CFG, Init(CFG), InsertShort(A1, 0), INSERTED) && Step(CFG, INSERTED, InsertShort(B1, 0), TWO)
    ensures TWO.shards == [[Stored(B1, 0, false, 0), Stored(A1, 0, false, 0)]]
    ensures TWO.heap == multiset{KeyAt(A1, 5), KeyAt(B1, 5)}
  {
    InsertWorks(Init(CFG), A1, 0);
    FirstInsert(A1);
    InsertWorks(INSERTED, B1, 0);
    assert [Stored(B1, 0, false, 0)] + [Stored(A1, 0, false, 0)] == [Stored(B1, 0, false, 0), Stored(A1, 0, false, 0)];
  }

  /** Two expired entries and a scan with room for one: the other key is left due, and the wait of a day runs past
      it. */
  lemma WaitOverrunsFullBatch()
    ensures var s' := State([[Stored(A1, 0, true, 0), Stored(B1, 0, false, 0)]], multiset{KeyAt(B1, 5)},
                            TWO.totalBytes);
            && Step(CFG, TWO, Scan(100 * SECOND, None, 0, 1, [KeyAt(A1, 5)], [Report(A1)], 86400 * SECOND), s')
            && !WaitIsSafe(s'.heap, Threshold(CFG, 100 * SECOND, None), 86400 * SECOND)
  {
    TwoEntries();
    var key, a, b := KeyAt(A1, 5), Stored(A1, 0, false, 0), Stored(B1, 0, false, 0);
    var acc := ScanOne(CFG, ScanAcc(TWO.shards, [], []), key, Threshold(CFG, 100 * SECOND, None), 0);
    assert A1 != B1;
    assert IndexOf([b, a], A1) == 1;
    assert Without([b, a], 1) == [b];
    assert [Stored(A1, 0, true, 0)] + [b] == [Stored(A1, 0, true, 0), b];
    assert acc == ScanAcc([[Stored(A1, 0, true, 0), b]], [Report(A1)], []);
    var left := TWO.heap - multiset{key} + multiset(acc.requeue);
    assert left == multiset{KeyAt(B1, 5)};
    assert KeyAt(B1, 5) in left;
    OneKeyScan(CFG, TWO, key, 100 * SECOND, None, 1, acc);
  }

  // ---------- Keys of one deadline ----------

  /** An address entry and a text entry, both expired, with keys of one deadline. */
  const TIED: State := AfterInsert(AfterInsert(Init(CFG), A1, 0), T1, 0)

  /** Either way round, the address entry is marked and in front. */
  const DONE: seq<Slots> := [[Stored(A1, 0, true, 0), Stored(T1, 0, false, 0)]]

  lemma TiedEntries()
    ensures Step(CFG, Init(CFG), InsertShort(A1, 0), INSERTED) && Step(CFG, INSERTED, InsertShort(T1, 0), TIED)
    ensures TIED.shards == [[Stored(T1, 0, false, 0), Stored(A1, 0, false, 0)]] && Shaped(CFG, TIED)
    ensures TIED.heap == multiset{KeyAt(A1, 5), KeyAt(T1, 5)}
  {
    InsertWorks(Init(CFG), A1, 0);
    FirstInsert(A1);
    InsertWorks(INSERTED, T1, 0);
    assert [Stored(T1, 0, false, 0)] + [Stored(A1, 0, false, 0)] == [Stored(T1, 0, false, 0), Stored(A1, 0, false, 0)];
  }

  lemma VisitAddress(threshold: nat)
    requires threshold > 5 * SECOND
    ensures var shards := [[Stored(T1, 0, false, 0), Stored(A1, 0, false, 0)]];
            ScanOne(CFG, ScanAcc(shards, [], []), KeyAt(A1, 5), threshold, 0) == ScanAcc(DONE, [Report(A1)], [])
  {
    var a, t := Stored(A1, 0, false, 0), Stored(T1, 0, false, 0);
    assert T1 != A1;
    assert IndexOf([t, a], A1) == 1 && Without([t, a], 1) == [t];
    assert [Stored(A1, 0, true, 0)] + [t] == [Stored(A1, 0, true, 0), t];
    var none: seq<Found> := [];
    assert none + [Report(A1)] == [Report(A1)];
  }

  lemma VisitText(threshold: nat)
    ensures var shards := [[Stored(T1, 0, false, 0), Stored(A1, 0, false, 0)]];
            ScanOne(CFG, ScanAcc(shards, [], []), KeyAt(T1, 5), threshold, 0) == ScanAcc(shards, [], [])
  {
    var a, t := Stored(A1, 0, false, 0), Stored(T1, 0, false, 0);
    assert IndexOf([t, a], T1) == 0 && Without([t, a], 0) == [a];
    assert [t] + [a] == [t, a];
  }

  /** With room for one, the address key first leaves the other key due. */
  lemma AddressFirst()
    ensures Step(CFG, TIED, Scan(100 * SECOND, None, 0, 1, [KeyAt(A1, 5)], [Report(A1)], 86400 * SECOND),
                 State(DONE, multiset{KeyAt(T1, 5)}, TIED.totalBytes))
  {
    TiedEntries();
    var threshold := Threshold(CFG, 100 * SECOND, None);
    VisitAddress(threshold);
    var acc := ScanOne(CFG, ScanAcc(TIED.shards, [], []), KeyAt(A1, 5), threshold, 0);
    var left := TIED.heap - multiset{KeyAt(A1, 5)} + multiset(acc.requeue);
    assert left == multiset{KeyAt(T1, 5)};
    assert KeyAt(T1, 5) in left;
    OneKeyScan(CFG, TIED, KeyAt(A1, 5), 100 * SECOND, None, 1, acc);
  }

  lemma BothVisits(threshold: nat)
    requires threshold > 5 * SECOND
    ensures var shards := [[Stored(T1, 0, false, 0), Stored(A1, 0, false, 0)]];
            && ScanAll(CFG, shards, [KeyAt(T1, 5), KeyAt(A1, 5)], threshold, 0) == ScanAcc(DONE, [Report(A1)], [])
            && RoomBefore(CFG, shards, [KeyAt(T1, 5), KeyAt(A1, 5)], threshold, 0, 1)
  {
    var shards := [[Stored(T1, 0, false, 0), Stored(A1, 0, false, 0)]];
    var pops := [KeyAt(T1, 5), KeyAt(A1, 5)];
    assert pops[..1] == [KeyAt(T1, 5)] && pops[..0] == [];
    OnePop(CFG, shards, KeyAt(T1, 5), threshold);
    VisitText(threshold);
    VisitAddress(threshold);
  }

  lemma BothPops(threshold: nat)
    requires threshold >= 5 * SECOND
    ensures var heap, pops := multiset{KeyAt(A1, 5), KeyAt(T1, 5)}, [KeyAt(T1, 5), KeyAt(A1, 5)];
            && multiset(pops) == heap && heap - multiset(pops) == multiset{}
            && PopOrder(heap, pops, threshold) && EarliestFirst(heap, pops)
  {
  }

  /** The text key first leaves nothing. */
  lemma TextFirst()
    ensures Step(CFG, TIED,
                 Scan(100 * SECOND, None, 0, 1, [KeyAt(T1, 5), KeyAt(A1, 5)], [Report(A1)], 86400 * SECOND),
                 State(DONE, multiset{}, TIED.totalBytes))
  {
    TiedEntries();
    var threshold := Threshold(CFG, 100 * SECOND, None);
    BothVisits(threshold);
    BothPops(threshold);
    OneFoundIsSorted([Report(A1)]);
    var none: seq<PrefetchKey> := [];
    assert multiset{} + multiset(none) == multiset{};
    ScanFromParts(CFG, TIED, threshold, 0, 1, [KeyAt(T1, 5), KeyAt(A1, 5)], ScanAcc(DONE, [Report(A1)], []),
                  [Report(A1)], multiset{}, 86400 * SECOND);
  }

  /** One due entry, room for one, and another due key of the same deadline: from one state, the wait overruns a due key
      or not, as the heap chooses. */
  lemma TieDecides()
    ensures var op1 := Scan(100 * SECOND, None, 0, 1, [KeyAt(A1, 5)], [Report(A1)], 86400 * SECOND);
            var op2 := Scan(100 * SECOND, None, 0, 1, [KeyAt(T1, 5), KeyAt(A1, 5)], [Report(A1)], 86400 * SECOND);
            var s1 := State(DONE, multiset{KeyAt(T1, 5)}, TIED.totalBytes);
            var s2 := State(DONE, multiset{}, TIED.totalBytes);
            && Step(CFG, TIED, op1, s1) && !WaitIsSafe(s1.heap, Threshold(CFG, 100 * SECOND, None), op1.wait)
            && Step(CFG, TIED, op2, s2) && WaitIsSafe(s2.heap, Threshold(CFG, 100 * SECOND, None), op2.wait)
  {
    AddressFirst();
    TextFirst();
    var left := multiset{KeyAt(T1, 5)};
    assert KeyAt(T1, 5) in left;
  }

  // ---------- A scan with stale serving and a look-ahead ----------

  /** Entries are served stale for a day. */
  const STALE: Config := CFG.(expiredTtl := 86400)

  /** One entry, inserted at `at` seconds for five seconds, with its key. */
  function One(at: nat, marked: bool): State {
    Table([Stored(A1, at * SECOND, marked, 0)], multiset{KeyAt(A1, at + 5)}, Bytes1(A1))
  }

  /** At 100000 s, looking ten seconds ahead, the scan is after entries that expired before 13610 s. An entry that
      expires at 13605 s is reported and marked. */
  lemma StaleEntryIsReported()
    ensures Step(STALE, One(13600, false),
                 Scan(100000 * SECOND, Some(10), 0, 10, [KeyAt(A1, 13605)], [Report(A1)], 86400 * SECOND),
                 One(13600, true).(heap := multiset{}))
  {
    var s, key, slot := One(13600, false), KeyAt(A1, 13605), Stored(A1, 13600 * SECOND, false, 0);
    var threshold := Threshold(STALE, 100000 * SECOND, Some(10));
    VisitOne(STALE, slot, key, threshold);
    var acc := ScanOne(STALE, ScanAcc(s.shards, [], []), key, threshold, 0);
    assert acc == ScanAcc(One(13600, true).shards, [Report(A1)], []);
    assert s.heap - multiset{key} + multiset(acc.requeue) == multiset{};
    OneKeyScan(STALE, s, key, 100000 * SECOND, Some(10), 10, acc);
  }

  /** One that expires at 13615 s stays as it is, and so does its key; the wait is the five seconds until it is due. */
  lemma StaleEntryIsAwaited()
    ensures Step(STALE, One(13610, false), Scan(100000 * SECOND, Some(10), 0, 10, [], [], 5 * SECOND),
                 One(13610, false))
  {
    var s, key := One(13610, false), KeyAt(A1, 13615);
    var threshold := Threshold(STALE, 100000 * SECOND, Some(10));
    var acc := ScanAll(STALE, s.shards, [], threshold, 0);
    OneFoundIsSorted([]);
    var none: seq<PrefetchKey> := [];
    assert s.heap - multiset(none) + multiset(acc.requeue) == s.heap;
    assert key in s.heap && forall k :: k in s.heap ==> k == key;
    ScanFromParts(STALE, s, threshold, 0, 10, none, acc, [], s.heap, 5 * SECOND);
  }
}
