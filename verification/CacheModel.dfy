/** The DNS cache as a value: routed LRU shards, the prefetch heap and the byte counter, with the effect of each
    operation. Instants are nanoseconds since the earliest representable instant. */
module CacheModel {
  import opened Dns
  import opened Lru

  const SHARD_COUNT: nat := 16
  const DEFAULT_LIFETIME: nat := 600
  const MAX_TTL: nat := 86400

  datatype Entry = Entry(data: Response, validUntil: nat, inPrefetch: bool, failureTime: Option<nat>, hits: nat)

  type Slots = seq<Slot<Query, Entry>>

  datatype PrefetchKey = PrefetchKey(exp: nat, query: Query)

  /** The in-memory sizes of the three structures that the byte estimate counts. */
  datatype Layout = Layout(query: nat, entry: nat, record: nat)

  datatype Config = Config(caps: seq<nat>, expiredTtl: nat, expiredReplyTtl: nat, maxBytes: nat,
                           layout: Layout, hash: Query -> nat)

  datatype State = State(shards: seq<Slots>, heap: multiset<PrefetchKey>, totalBytes: int)

  // ---------- Shard capacities ----------

  function Capacities(cacheSize: nat): (caps: seq<nat>) {
    var n := if cacheSize >= SHARD_COUNT then SHARD_COUNT else 1;
    var per := Max(cacheSize / n, 1);
    var rem := if cacheSize >= per * n then cacheSize - per * n else 0;
    Spread(n, per, rem)
  }

  function Spread(n: nat, per: nat, rem: nat): (s: seq<nat>)
    ensures |s| == n
  {
    seq(n, i => per + if i < rem then 1 else 0)
  }

  function Sum(s: seq<nat>): nat {
    if s == [] then 0 else Sum(s[..|s| - 1]) + s[|s| - 1]
  }

  lemma {:induction false} SumOfSpread(n: nat, per: nat, rem: nat)
    ensures Sum(Spread(n, per, rem)) == n * per + Min(n, rem)
  {
    if n > 0 {
      SumOfSpread(n - 1, per, rem);
      assert Spread(n, per, rem)[..n - 1] == Spread(n - 1, per, rem);
    }
  }

  /** The configured size is shared out without loss, and no shard is left without room. */
  lemma CapacitiesSum(cacheSize: nat)
    ensures Sum(Capacities(cacheSize)) == Max(cacheSize, 1)
    ensures forall i :: 0 <= i < |Capacities(cacheSize)| ==> Capacities(cacheSize)[i] > 0
    ensures |Capacities(cacheSize)| == if cacheSize >= 16 then 16 else 1
  {
    var n := if cacheSize >= SHARD_COUNT then SHARD_COUNT else 1;
    var per := Max(cacheSize / n, 1);
    var rem := if cacheSize >= per * n then cacheSize - per * n else 0;
    SumOfSpread(n, per, rem);
  }

  // ---------- Routing and lookup ----------

  ghost predicate Shaped(cfg: Config, s: State) {
    |cfg.caps| > 0 && |s.shards| == |cfg.caps|
  }

  function Route(cfg: Config, q: Query): (k: nat)
    requires |cfg.caps| > 0
    ensures k < |cfg.caps|
  {
    cfg.hash(q) % |cfg.caps|
  }

  /** The resident entry for `q`, looked for in the one shard that `q` is routed to. */
  function Lookup(cfg: Config, shards: seq<Slots>, q: Query): (r: Option<Entry>)
    requires |cfg.caps| > 0 && |shards| == |cfg.caps|
  {
    Find(shards[Route(cfg, q)], q)
  }

  // ---------- Byte estimate ----------

  function RecordsSize(l: Layout, records: seq<Record>): nat {
    if records == [] then 0 else l.record + |records[0].name| + 128 + RecordsSize(l, records[1..])
  }

  function EntrySize(l: Layout, q: Query, e: Entry): nat {
    l.query + l.entry + |q.name| + RecordsSize(l, e.data.answers)
  }

  function NamesLength(records: seq<Record>): nat {
    if records == [] then 0 else |records[0].name| + NamesLength(records[1..])
  }

  lemma {:induction false} RecordsSizeExact(l: Layout, records: seq<Record>)
    ensures RecordsSize(l, records) == |records| * (l.record + 128) + NamesLength(records)
  {
    if records != [] {
      RecordsSizeExact(l, records[1..]);
      var n, x := |records|, l.record + 128;
      assert n * x == (n - 1) * x + x;
    }
  }

  /** The estimate: the two fixed sizes, the length of the name, and for every record its fixed size, the length of its
      name and 128 bytes. */
  lemma EntrySizeExact(l: Layout, q: Query, e: Entry)
    ensures EntrySize(l, q, e) ==
              l.query + l.entry + |q.name| + |e.data.answers| * (l.record + 128) + NamesLength(e.data.answers)
  {
    RecordsSizeExact(l, e.data.answers);
  }

  function SlotSize(l: Layout, slot: Slot<Query, Entry>): nat {
    EntrySize(l, slot.key, slot.value)
  }

  function Bytes(l: Layout, slots: Slots): nat {
    if slots == [] then 0 else SlotSize(l, slots[0]) + Bytes(l, slots[1..])
  }

  function Total(l: Layout, shards: seq<Slots>): nat {
    if shards == [] then 0 else Bytes(l, shards[0]) + Total(l, shards[1..])
  }

  lemma {:induction false} BytesConcat(l: Layout, a: Slots, b: Slots)
    ensures Bytes(l, a + b) == Bytes(l, a) + Bytes(l, b)
  {
    if a == [] {
      assert a + b == b;
    } else {
      BytesConcat(l, a[1..], b);
      assert (a + b)[1..] == a[1..] + b;
    }
  }

  lemma BytesWithout(l: Layout, slots: Slots, i: nat)
    requires i < |slots|
    ensures Bytes(l, slots) == Bytes(l, Without(slots, i)) + SlotSize(l, slots[i])
  {
    BytesConcat(l, slots[..i], slots[i..]);
    assert slots == slots[..i] + slots[i..];
    assert slots[i..][1..] == slots[i + 1..];
    BytesConcat(l, slots[..i], slots[i + 1..]);
  }

  lemma BytesFront(l: Layout, slot: Slot<Query, Entry>, rest: Slots)
    ensures Bytes(l, [slot] + rest) == SlotSize(l, slot) + Bytes(l, rest)
  {
    assert ([slot] + rest)[1..] == rest;
  }

  lemma BytesDropLast(l: Layout, slots: Slots)
    requires slots != []
    ensures Bytes(l, slots) == Bytes(l, slots[..|slots| - 1]) + SlotSize(l, slots[|slots| - 1])
  {
    BytesWithout(l, slots, |slots| - 1);
    assert Without(slots, |slots| - 1) == slots[..|slots| - 1];
  }

  lemma {:induction false} TotalUpdate(l: Layout, shards: seq<Slots>, k: nat, slots: Slots)
    requires k < |shards|
    ensures Total(l, shards[k := slots]) == Total(l, shards) - Bytes(l, shards[k]) + Bytes(l, slots)
  {
    if k > 0 {
      TotalUpdate(l, shards[1..], k - 1, slots);
      assert shards[k := slots][1..] == shards[1..][k - 1 := slots];
    } else {
      assert shards[k := slots][1..] == shards[1..];
    }
  }

  lemma {:induction false} BytesOfShardAtMostTotal(l: Layout, shards: seq<Slots>, k: nat)
    requires k < |shards|
    ensures Bytes(l, shards[k]) <= Total(l, shards)
  {
    if k > 0 {
      BytesOfShardAtMostTotal(l, shards[1..], k - 1);
    }
  }

  lemma {:induction false} EmptyTotal(l: Layout, shards: seq<Slots>)
    requires forall k :: 0 <= k < |shards| ==> shards[k] == []
    ensures Total(l, shards) == 0
  {
    if shards != [] {
      EmptyTotal(l, shards[1..]);
    }
  }

  // ---------- The structural invariant ----------

  ghost predicate ShardOk(cfg: Config, k: nat, slots: Slots)
    requires k < |cfg.caps|
  {
    && Distinct(slots)
    && |slots| <= cfg.caps[k]
    && forall i :: 0 <= i < |slots| ==> Route(cfg, slots[i].key) == k && slots[i].value.failureTime == None
  }

  /** Every key sits only in its routed shard, once; capacities hold; the byte counter is exact. */
  ghost predicate Sound(cfg: Config, s: State) {
    && Shaped(cfg, s)
    && (forall k :: 0 <= k < |cfg.caps| ==> cfg.caps[k] > 0)
    && (forall k :: 0 <= k < |s.shards| ==> ShardOk(cfg, k, s.shards[k]))
    && s.totalBytes == Total(cfg.layout, s.shards)
  }

  function Init(cfg: Config): State {
    State(seq(|cfg.caps|, _ => []), multiset{}, 0)
  }

  // ---------- Writing ----------

  /** The `push` path: a new key, or (on load) a wholesale replacement. */
  function Admit(cfg: Config, s: State, q: Query, e: Entry): (s': State)
    requires Shaped(cfg, s)
    ensures Shaped(cfg, s') && s'.heap == s.heap
  {
    var k := Route(cfg, q);
    var (slots, out) := Push(s.shards[k], cfg.caps[k], q, e);
    State(s.shards[k := slots], s.heap,
          s.totalBytes - SizeOut(cfg.layout, out) + EntrySize(cfg.layout, q, e))
  }

  /** Rewriting a resident entry keeps its prefetch marks and counts a hit. */
  function Refresh(old_: Entry, e: Entry): Entry {
    old_.(data := e.data, validUntil := e.validUntil, hits := old_.hits + 1)
  }

  function Store(cfg: Config, s: State, q: Query, e: Entry): (s': State)
    requires Shaped(cfg, s)
    ensures Shaped(cfg, s') && s'.heap == s.heap
  {
    var k := Route(cfg, q);
    var slots := s.shards[k];
    var i := IndexOf(slots, q);
    if i < |slots| then
      State(s.shards[k := [Slot(q, Refresh(slots[i].value, e))] + Without(slots, i)], s.heap,
            s.totalBytes + EntrySize(cfg.layout, q, e) - SlotSize(cfg.layout, slots[i]))
    else
      Admit(cfg, s, q, e)
  }

  lemma ShardReplaced(cfg: Config, s: State, k: nat, slots: Slots, total: int)
    requires Sound(cfg, s) && k < |s.shards| && ShardOk(cfg, k, slots)
    requires total == s.totalBytes - Bytes(cfg.layout, s.shards[k]) + Bytes(cfg.layout, slots)
    ensures Sound(cfg, State(s.shards[k := slots], s.heap, total))
  {
    TotalUpdate(cfg.layout, s.shards, k, slots);
  }

  lemma UseIsSound(cfg: Config, s: State, k: nat, i: nat, e: Entry)
    requires Sound(cfg, s) && k < |s.shards| && i < |s.shards[k]| && e.failureTime == None
    ensures var slots := s.shards[k];
            var slots' := [Slot(slots[i].key, e)] + Without(slots, i);
            Sound(cfg, State(s.shards[k := slots'], s.heap,
                             s.totalBytes + EntrySize(cfg.layout, slots[i].key, e) - SlotSize(cfg.layout, slots[i])))
  {
    var slots := s.shards[k];
    var slots' := [Slot(slots[i].key, e)] + Without(slots, i);
    FindAfterUse(slots, i, e, slots[i].key);
    BytesWithout(cfg.layout, slots, i);
    BytesFront(cfg.layout, Slot(slots[i].key, e), Without(slots, i));
    assert ShardOk(cfg, k, slots');
    ShardReplaced(cfg, s, k, slots',
                  s.totalBytes + EntrySize(cfg.layout, slots[i].key, e) - SlotSize(cfg.layout, slots[i]));
  }

  function SizeOut(l: Layout, out: Option<Slot<Query, Entry>>): nat {
    if out.Some? then SlotSize(l, out.value) else 0
  }

  lemma BytesAfterPush(l: Layout, slots: Slots, cap: nat, q: Query, e: Entry)
    requires cap > 0
    ensures var (slots', out) := Push(slots, cap, q, e);
            Bytes(l, slots') == Bytes(l, slots) - SizeOut(l, out) + EntrySize(l, q, e)
  {
    var i := IndexOf(slots, q);
    if i < |slots| {
      BytesWithout(l, slots, i);
      BytesFront(l, Slot(q, e), Without(slots, i));
    } else if |slots| >= cap {
      BytesDropLast(l, slots);
      BytesFront(l, Slot(q, e), slots[..|slots| - 1]);
    } else {
      BytesFront(l, Slot(q, e), slots);
    }
  }

  lemma AdmitIsSound(cfg: Config, s: State, q: Query, e: Entry)
    requires Sound(cfg, s) && e.failureTime == None
    ensures Sound(cfg, Admit(cfg, s, q, e))
    ensures var out := Push(s.shards[Route(cfg, q)], cfg.caps[Route(cfg, q)], q, e).1;
            SizeOut(cfg.layout, out) <= s.totalBytes
  {
    var k := Route(cfg, q);
    var slots := s.shards[k];
    var (slots', out) := Push(slots, cfg.caps[k], q, e);
    PushKeepsShape(slots, cfg.caps[k], q, e);
    BytesAfterPush(cfg.layout, slots, cfg.caps[k], q, e);
    BytesOfShardAtMostTotal(cfg.layout, s.shards, k);
    assert ShardOk(cfg, k, slots');
    ShardReplaced(cfg, s, k, slots', s.totalBytes - SizeOut(cfg.layout, out) + EntrySize(cfg.layout, q, e));
  }

  lemma StoreIsSound(cfg: Config, s: State, q: Query, e: Entry)
    requires Sound(cfg, s) && e.failureTime == None
    ensures Sound(cfg, Store(cfg, s, q, e))
  {
    var k := Route(cfg, q);
    var slots := s.shards[k];
    var i := IndexOf(slots, q);
    if i < |slots| {
      UseIsSound(cfg, s, k, i, Refresh(slots[i].value, e));
    } else {
      AdmitIsSound(cfg, s, q, e);
    }
  }

  // ---------- The memory budget ----------

  function PopAt(shards: seq<Slots>, j: nat): (r: seq<Slots>)
    requires j < |shards|
    ensures |r| == |shards|
  {
    if shards[j] == [] then shards else shards[j := shards[j][..|shards[j]| - 1]]
  }

  lemma TotalAfterPop(l: Layout, shards: seq<Slots>, i: nat)
    requires i < |shards|
    ensures var slots := shards[i];
            Total(l, PopAt(shards, i)) ==
              Total(l, shards) - if slots == [] then 0 else SlotSize(l, slots[|slots| - 1])
  {
    var slots := shards[i];
    if slots != [] {
      BytesDropLast(l, slots);
      TotalUpdate(l, shards, i, slots[..|slots| - 1]);
    }
  }

  /** The shards after `r` full eviction rounds and `j` further shard visits. */
  function Visits(shards: seq<Slots>, r: nat, j: nat): (v: seq<Slots>)
    requires j <= |shards|
    ensures |v| == |shards|
    decreases r, j
  {
    if j > 0 then PopAt(Visits(shards, r, j - 1), j - 1)
    else if r > 0 then Visits(shards, r - 1, |shards|)
    else shards
  }

  ghost predicate Earlier(r': nat, j': nat, r: nat, j: nat) {
    r' < r || (r' == r && j' < j)
  }

  ghost predicate OverBudgetBefore(cfg: Config, shards: seq<Slots>, r: nat, j: nat) {
    forall r': nat, j': nat :: j' <= |shards| && Earlier(r', j', r, j) ==>
      Total(cfg.layout, Visits(shards, r', j')) > cfg.maxBytes
  }

  lemma OverBudgetNext(cfg: Config, shards: seq<Slots>, r: nat, j: nat)
    requires j < |shards| && OverBudgetBefore(cfg, shards, r, j)
    requires Total(cfg.layout, Visits(shards, r, j)) > cfg.maxBytes
    ensures OverBudgetBefore(cfg, shards, r, j + 1)
  {
  }

  lemma OverBudgetRound(cfg: Config, shards: seq<Slots>, r: nat)
    requires OverBudgetBefore(cfg, shards, r, |shards|)
    requires Total(cfg.layout, Visits(shards, r, |shards|)) > cfg.maxBytes
    ensures OverBudgetBefore(cfg, shards, r + 1, 0)
  {
  }

  /** (r, j) is the first point of the round-robin schedule at which usage is within the budget. */
  ghost predicate FirstFit(cfg: Config, shards: seq<Slots>, r: nat, j: nat) {
    && j <= |shards|
    && Total(cfg.layout, Visits(shards, r, j)) <= cfg.maxBytes
    && OverBudgetBefore(cfg, shards, r, j)
  }

  ghost predicate Enforced(cfg: Config, s: State, s': State) {
    if cfg.maxBytes == 0 then s' == s
    else
      && s'.heap == s.heap
      && s'.totalBytes == Total(cfg.layout, s'.shards)
      && exists r: nat, j: nat :: FirstFit(cfg, s.shards, r, j) && s'.shards == Visits(s.shards, r, j)
  }

  function Less(n: nat, k: nat): nat {
    if n >= k then n - k else 0
  }

  /** Each round takes at most one entry from each shard, always the least recently used one. */
  lemma {:induction false} VisitsShape(shards: seq<Slots>, r: nat, j: nat, i: nat)
    requires j <= |shards| && i < |shards|
    ensures Visits(shards, r, j)[i] == shards[i][..Less(|shards[i]|, if i < j then r + 1 else r)]
    decreases r, j
  {
    if j > 0 {
      VisitsShape(shards, r, j - 1, i);
    } else if r > 0 {
      VisitsShape(shards, r - 1, |shards|, i);
    }
  }

  lemma EnforcedIsSound(cfg: Config, s: State, s': State)
    requires Sound(cfg, s) && Enforced(cfg, s, s')
    ensures Sound(cfg, s')
    ensures cfg.maxBytes != 0 ==> s'.totalBytes <= cfg.maxBytes
    ensures forall q :: Lookup(cfg, s'.shards, q) == Lookup(cfg, s.shards, q) || Lookup(cfg, s'.shards, q) == None
  {
    if cfg.maxBytes != 0 {
      var r: nat, j: nat :| FirstFit(cfg, s.shards, r, j) && s'.shards == Visits(s.shards, r, j);
      forall k | 0 <= k < |s'.shards|
        ensures ShardOk(cfg, k, s'.shards[k])
      {
        VisitsShape(s.shards, r, j, k);
      }
      forall q
        ensures Lookup(cfg, s'.shards, q) == Lookup(cfg, s.shards, q) || Lookup(cfg, s'.shards, q) == None
      {
        var k := Route(cfg, q);
        VisitsShape(s.shards, r, j, k);
        FindInPrefix(s.shards[k], Less(|s.shards[k]|, if k < j then r + 1 else r), q);
      }
    }
  }

  /** The budget pass is deterministic: the first fitting point of the schedule is unique. */
  lemma FirstFitUnique(cfg: Config, shards: seq<Slots>, r: nat, j: nat, r': nat, j': nat)
    requires FirstFit(cfg, shards, r, j) && FirstFit(cfg, shards, r', j')
    ensures r == r' && j == j'
  {
    assert !Earlier(r, j, r', j') && !Earlier(r', j', r, j);
  }

  // ---------- Reading ----------

  datatype Served = Served(response: Response, valid: bool)

  predicate IsCurrent(e: Entry, now: nat) {
    now <= e.validUntil
  }

  /** Answers that hold only addresses under other names are given the name that was asked for. */
  function Aligned(data: Response, q: Query): Response {
    var answers := data.answers;
    if && !(exists i :: 0 <= i < |answers| && answers[i].rtype.CNAME?)
       && answers != []
       && (forall i :: 0 <= i < |answers| ==> IsIpAddr(answers[i].rtype))
       && (exists i :: 0 <= i < |answers| && answers[i].name != q.name)
    then data.(answers := Rename(answers, q.name))
    else data
  }

  /** What a hit at `now` hands out; the casts to 32 bits are kept. */
  function Serve(cfg: Config, e: Entry, q: Query, now: nat): Served {
    var data := Aligned(e.data, q);
    if IsCurrent(e, now) then
      Served(data.(answers := CapTtl(data.answers, ((e.validUntil - now) / SECOND) % U32)), true)
    else
      Served(data.(answers := CapTtl(data.answers, cfg.expiredReplyTtl % U32)), false)
  }

  function Touch(cfg: Config, s: State, q: Query): (s': State)
    requires Shaped(cfg, s)
    ensures Shaped(cfg, s')
  {
    var k := Route(cfg, q);
    var slots := s.shards[k];
    var i := IndexOf(slots, q);
    if i < |slots| then
      var e := slots[i].value;
      s.(shards := s.shards[k := [Slot(q, e.(hits := e.hits + 1))] + Without(slots, i)])
    else s
  }

  // ---------- The expiry scan ----------

  datatype Found = Found(query: Query, hits: nat, group: Option<string>)

  datatype ScanAcc = ScanAcc(shards: seq<Slots>, found: seq<Found>, requeue: seq<PrefetchKey>)

  /** Unmarked, or marked and two base intervals after a failure. */
  predicate ShouldRetry(e: Entry, now: nat, baseInterval: nat): (r: bool)
    ensures e.inPrefetch && e.failureTime.None? ==> !r
    ensures e.inPrefetch && e.failureTime.Some? && now >= e.failureTime.value ==>
              (r <==> now - e.failureTime.value >= baseInterval + baseInterval)
  {
    !e.inPrefetch || (e.failureTime.Some? && now >= e.failureTime.value + baseInterval * 2)
  }

  function Threshold(cfg: Config, now: nat, ahead: Option<nat>): nat {
    (if cfg.expiredTtl > 0 && cfg.expiredTtl * SECOND <= now then now - cfg.expiredTtl * SECOND else now)
    + (if ahead.Some? then ahead.value else 5) * SECOND
  }

  /** What the scan does with one due key taken from the heap. */
  function ScanOne(cfg: Config, acc: ScanAcc, key: PrefetchKey, threshold: nat, baseInterval: nat): (r: ScanAcc)
    requires |cfg.caps| > 0 && |acc.shards| == |cfg.caps|
    ensures |r.shards| == |cfg.caps|
  {
    var k := Route(cfg, key.query);
    var slots := acc.shards[k];
    var i := IndexOf(slots, key.query);
    if i == |slots| then acc
    else
      var e := slots[i].value;
      var promoted := acc.(shards := acc.shards[k := [slots[i]] + Without(slots, i)]);
      if !ShouldRetry(e, threshold, baseInterval) || !IsIpAddr(key.query.qtype) then promoted
      else if IsCurrent(e, threshold) then
        promoted.(requeue := acc.requeue + [PrefetchKey(e.validUntil, key.query)])
      else
        acc.(shards := acc.shards[k := [Slot(key.query, e.(inPrefetch := true))] + Without(slots, i)],
             found := acc.found + [Found(key.query, e.hits, e.data.group)])
  }

  function ScanAll(cfg: Config, shards: seq<Slots>, pops: seq<PrefetchKey>, threshold: nat, baseInterval: nat)
    : (r: ScanAcc)
    requires |cfg.caps| > 0 && |shards| == |cfg.caps|
    ensures |r.shards| == |cfg.caps|
  {
    if pops == [] then ScanAcc(shards, [], [])
    else ScanOne(cfg, ScanAll(cfg, shards, pops[..|pops| - 1], threshold, baseInterval),
                 pops[|pops| - 1], threshold, baseInterval)
  }

  /** `pops` are the due keys taken off the heap, smallest deadline first. */
  ghost predicate PopOrder(heap: multiset<PrefetchKey>, pops: seq<PrefetchKey>, threshold: nat) {
    && multiset(pops) <= heap
    && (forall i :: 0 <= i < |pops| ==> pops[i].exp <= threshold)
    && forall i, j :: 0 <= i < j < |pops| ==> pops[i].exp <= pops[j].exp
  }

  /** The popped keys are the earliest ones: none that is left has an earlier deadline. */
  ghost predicate EarliestFirst(heap: multiset<PrefetchKey>, pops: seq<PrefetchKey>) {
    forall i, k :: 0 <= i < |pops| && k in heap - multiset(pops) ==> pops[i].exp <= k.exp
  }

  /** Popping goes on only while the batch has room. */
  ghost predicate RoomBefore(cfg: Config, shards: seq<Slots>, pops: seq<PrefetchKey>, threshold: nat,
                             baseInterval: nat, maxCount: nat)
    requires |cfg.caps| > 0 && |shards| == |cfg.caps|
  {
    forall n :: 0 <= n < |pops| ==> |ScanAll(cfg, shards, pops[..n], threshold, baseInterval).found| < maxCount
  }

  ghost predicate SortedByHits(s: seq<Found>) {
    forall i, j :: 0 <= i < j < |s| ==> s[i].hits >= s[j].hits
  }

  function WithHits(s: seq<Found>, h: nat): seq<Found> {
    if s == [] then []
    else
      var n := |s| - 1;
      WithHits(s[..n], h) + if s[n].hits == h then [s[n]] else []
  }

  /** `r` is `s` most hits first, equal hits in their former order. */
  ghost predicate StablySorted(s: seq<Found>, r: seq<Found>) {
    multiset(r) == multiset(s) && SortedByHits(r) && forall h :: WithHits(r, h) == WithHits(s, h)
  }

  /** The wait until the next scan, from what is left on the heap. */
  ghost predicate NextWait(heap: multiset<PrefetchKey>, threshold: nat, wait: nat) {
    if heap == multiset{} || (exists k :: k in heap && k.exp <= threshold) then wait == MAX_TTL * SECOND
    else
      && wait <= MAX_TTL * SECOND
      && (forall k :: k in heap ==> k.exp >= threshold + wait)
      && (wait < MAX_TTL * SECOND ==> exists k :: k in heap && k.exp == threshold + wait)
  }

  ghost predicate ScanStep(cfg: Config, s: State, threshold: nat, baseInterval: nat, maxCount: nat,
                           pops: seq<PrefetchKey>, result: seq<Found>, wait: nat, s': State)
    requires Shaped(cfg, s)
  {
    var acc := ScanAll(cfg, s.shards, pops, threshold, baseInterval);
    && PopOrder(s.heap, pops, threshold) && EarliestFirst(s.heap, pops)
    && RoomBefore(cfg, s.shards, pops, threshold, baseInterval, maxCount)
    && |acc.found| <= maxCount
    && (|acc.found| < maxCount ==> forall k :: k in s.heap - multiset(pops) ==> k.exp > threshold)
    && s' == State(acc.shards, s.heap - multiset(pops) + multiset(acc.requeue), s.totalBytes)
    && StablySorted(acc.found, result)
    && NextWait(s'.heap, threshold, wait)
  }

  /** A scan step from its parts. */
  lemma ScanFromParts(cfg: Config, s: State, threshold: nat, baseInterval: nat, maxCount: nat, pops: seq<PrefetchKey>,
                      acc: ScanAcc, result: seq<Found>, left: multiset<PrefetchKey>, wait: nat)
    requires Shaped(cfg, s) && acc == ScanAll(cfg, s.shards, pops, threshold, baseInterval)
    requires PopOrder(s.heap, pops, threshold) && EarliestFirst(s.heap, pops)
    requires RoomBefore(cfg, s.shards, pops, threshold, baseInterval, maxCount) && |acc.found| <= maxCount
    requires |acc.found| < maxCount ==> forall k :: k in s.heap - multiset(pops) ==> k.exp > threshold
    requires left == s.heap - multiset(pops) + multiset(acc.requeue)
    requires StablySorted(acc.found, result) && NextWait(left, threshold, wait)
    ensures ScanStep(cfg, s, threshold, baseInterval, maxCount, pops, result, wait,
                     State(acc.shards, left, s.totalBytes))
  {
  }
}
