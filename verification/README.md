# A verified model of the smartdns-rs cores

This project models the parts of smartdns-rs whose correctness depends on several structures agreeing with each other,
and proves what the rest of the server relies on. `dafny verify dfyconfig.toml` checks all of it.

- **The DNS cache** (`Lru`, `CacheModel`, `CacheRuns`, `CacheReads`, `CacheRecency`, `ScanWaits`, `ScanTimes`,
  `CacheExamples`, `RecordGroups`, `RecordOrder`, `DnsCache`, `CacheCodec`, `CacheFiles`, `Ttl`). Up to 16 LRU shards,
  a byte counter with a budget, a heap that stands in for a full-table expiry scan, and a tagged file format.
  `CacheModel` gives each operation as a step between values, `CacheRuns` proves what every run of steps keeps, and
  the class in `DnsCache` updates shards, heap and counter in place; each of its methods is proved to take exactly its
  step. The reference is one plain map from each query to its last write. `CacheReads`, `ScanTimes` and `RecordOrder`
  say what comes out against what went in: served names and TTLs, the clock of the expiry scan, and the order of
  records by their positions.
- **The domain rule index** (`Domains`, `DomainIndex`, `DomainRules`, `AddressRules`, `Trie`). Hash probes along a
  walk towards the root, against a linear scan of an association list of rules; the links from each rule to the rule
  that encloses it and the walk along them that answers a query; the label trie against a finite map.
- **Upstreams** (`Upstream`, `UpstreamRuns`, `AnswerRace`). The circuit breaker against its event history and against
  the results of runs of lookups, the bounded retry loop, and the races between servers and pings, for every arrival
  order.
- **Dispatch** (`Dispatch`). Counters, permits, batches and tasks of the request loop as one object with one
  invariant.
- **Smaller cores** (`Listeners`, `Dns64`). Listener de-duplication and the embedding of IPv4 addresses.
- `Dns`, `Positions`, `Permutations` and `Arith` hold shared values, positions in lists and arithmetic.

## How to read the model

- Instants are nanoseconds since the earliest representable instant; clocks, message bytes, hash values, glob
  matching, the order of arrivals and what a send returns are parameters.
- Names are compared after case folding. The 64-bit pattern hash is taken as injective, so maps are keyed by the
  pattern itself. The base name of a non-empty name is fully qualified.
- The heap is a multiset; a pop takes some key of least deadline. `pops` in a scan step records which ones.
- Each cache method and each turn of the dispatch loop runs to completion before the next one starts.
- Widths that matter are written out: 32-bit casts of TTLs, 16- and 32-bit fields of the file format, the 32-bit
  failure counter, 128-bit addresses.

## What turned out not to hold

Each is kept as the code has it, with the exact condition proved and a concrete input that shows it.

- A prefetch mark survives every operation, a fresh insert included, except reloading the entry from a file
  (`MarkKeptIff`, over stretches of runs `MarkedIsNeverReported`). `RenewedEntryIsMissed` is a run from the empty
  cache in which an expired entry is inserted afresh, expires again, and is not reported.
- The wait announced by the expiry scan overruns a due key exactly when a due key was left unpopped or a popped key
  stands for an entry expiring at the threshold (`WaitIsSafeIff`). In terms of the state before the call
  (`WaitIsSafeBefore`): with fewer due entries than the limit, exactly when a due key stands for an entry expiring at
  the threshold; with more, always; with as many, as in the first case if every due key of greatest deadline is the
  sole due key of a due entry, and always if none of them is. Only keys tied at the greatest due deadline, some of
  them sole and some not, leave it to the heap (`TieDecides`). Inputs: `WaitOverrunsEntryAtThreshold` and
  `WaitOverrunsFullBatch`.
- Foreground queries that get no permit stay in the active count for good. Once they reach the limit, every later
  foreground query is refused; below it an idle dispatcher lets a query through (`LockoutIff`, `Dispatcher.Step`).
  Under one fixed limit they stay at least 64 below it, so the lockout takes a reload that lowers the limit.
  `DroppedForGood` drives the dispatcher there.
- A lookup can find nothing although a rule matches the name: exactly when some rule is lost, that is, matches the
  name but not the name looked up, and no rule is accepted for that one (`LostIff`, `MissedIff`). Only the root and
  wildcard names lose rules. Inputs: `RootIsMissed` and `WildcardNameIsMissed`. Conversely, a wildcard name can be
  given a rule that does not match it, exactly when the rule found is exact or a one-label pattern
  (`FoundMatchesIff`); input: `WildcardNameGetsOtherRule`.
- A cache entry is restored with its group and hits exactly when they fit the format (`RoundTripIffStorable`). Inputs:
  an empty group name (`EmptyGroupIsLost`) and 2^32 hits (`HitsWrap`).
- For prefixes of 32 to 64 bits the embedding has the layout of section 2.2 of RFC 6052 exactly when no set bit of the
  IPv4 address falls beyond bit 64 (`AgreesWithRfcIff`). Input: 0.0.0.1 under a /64 (`SlashSixtyFourDiffers`).
- First-ping can come away without an address although an upstream has one: exactly when a failed ping, started by an
  answer without addresses, ends the race first (`FirstPingLosesIff`). Input: `FirstPingLosesAnswer`.

Two comments in the source disagree with the code, and the model follows the code. `insert_records` is documented to
return nothing when no record matches the query; it returns all records, group by group. The fastest-response strategy
is documented to return the first error; it returns the latest one, or the repeated one that ended the race.

## Model

| member | source | states |
|---|---|---|
| `Lru.OrderIsRecency` | src/dns_mw_cache.rs:618-620 | Over every history of a shard, keys are distinct, the capacity holds, and stored order is order of last use. |
| `Lru.VictimIsLeastRecent` | src/dns_mw_cache.rs:884-888 | Over every history, a push displaces something exactly when the key is resident or the shard is full; a displaced other key has the oldest last use of all. |
| `Lru.RemovedIsLessRecent` | src/dns_mw_cache.rs:690-711 | Over every history, a key that a stretch of pushes and evictions removes was used less recently than every key it leaves. |
| `Lru.OnlyLastChanges` | src/dns_mw_cache.rs:878-888 | After one action any two kept keys are in their former order, or the earlier one is the key just used. |
| `Lru.FindAfterUse` | src/dns_mw_cache.rs:878-883 | Rewriting a resident key changes the value of that key alone. |
| `Lru.FindAfterPush` | src/dns_mw_cache.rs:885-889 | A push writes its own key; other keys may disappear but never change. |
| `Lru.Shard.constructor` | src/dns_mw_cache.rs:652-657 | A new shard is empty and has its capacity. |
| `Lru.Shard.Promote` | src/dns_mw_cache.rs:878 | A resident key moves to the front with its value; an absent one changes nothing. |
| `Lru.Shard.WriteFront` | src/dns_mw_cache.rs:878-882 | Assignment through the promoted reference changes the front value only. |
| `Lru.Shard.PushSlot` | src/dns_mw_cache.rs:885-887 | The new contents and the displaced slot, replacement and capacity eviction included. |
| `Lru.Shard.PopLru` | src/dns_mw_cache.rs:699 | Takes the last slot in recency order, or nothing from an empty shard. |
| `Lru.Shard.Reset` | src/dns_mw_cache.rs:818-820 | Leaves no slot. |
| `CacheModel.CapacitiesSum` | src/dns_mw_cache.rs:643-657 | For every size there are 16 shards, or one below size 16; each has room, and capacities add up to max(size, 1). |
| `CacheModel.UseIsSound` | src/dns_mw_cache.rs:878-883 | Rewriting a resident entry keeps routing, distinctness, capacities and the exact byte total. |
| `CacheModel.AdmitIsSound` | src/dns_mw_cache.rs:788-799 | A push keeps the same invariant, and the bytes subtracted never exceed the counter. |
| `CacheModel.StoreIsSound` | src/dns_mw_cache.rs:873-890 | An insert of either kind keeps the same invariant. |
| `CacheModel.VisitsShape` | src/dns_mw_cache.rs:695-706 | After any number of eviction rounds and visits, each shard has lost exactly that many of its least recent entries, one per round at most. |
| `CacheModel.EnforcedIsSound` | src/dns_mw_cache.rs:690-711 | The budget pass keeps the invariant, ends within the budget, and changes no entry it leaves. |
| `CacheModel.FirstFitUnique` | src/dns_mw_cache.rs:695-706 | The stopping point of the budget pass, the first at which usage fits, is unique. |
| `CacheModel.TotalAfterPop` | src/dns_mw_cache.rs:699-700 | Popping a shard lowers the total by exactly the size of the popped entry. |
| `CacheRuns.LeastTtl` | src/dns_mw_cache.rs:856-866 | The result bounds every record TTL and the default from below and equals one of them. |
| `CacheRuns.NegativeTtl` | src/dns_mw_cache.rs:508-517 | 600 s without an SOA; otherwise the minimum of the first SOA, raised to 60 s or lowered to 3600 s. |
| `CacheRuns.StoreRefines` | src/dns_mw_cache.rs:849-938 | An insert of either kind, budget pass included, keeps the cache a view of the last-write map, with every unmarked positive address entry covered by a heap key. |
| `CacheRuns.AdmitAllRefines` | src/dns_mw_cache.rs:788-805 | The same for loading entries from a file. |
| `CacheRuns.TouchLookup` | src/dns_mw_cache.rs:1033-1034 | A read adds a hit to its own entry and changes nothing else. |
| `CacheRuns.ScanOneLookup` | src/dns_mw_cache.rs:1116-1140 | What one popped key does: exactly when its entry is marked and reported, when it is put back, and that no other entry changes. |
| `CacheRuns.ScanRefines` | src/dns_mw_cache.rs:1071-1168 | A whole scan keeps the refinement: no popped key loses the cover of an entry that still needs one. |
| `CacheRuns.StepRefines` | src/dns_mw_cache.rs:759-1168 | Every operation keeps the refinement. |
| `CacheRuns.RunRefines` | src/dns_mw_cache.rs:618-1169 | In every reachable state each key sits once, in its routed shard; capacities hold; the byte counter is exact; each resident entry is the last write of its query. |
| `CacheModel.EntrySizeExact` | src/dns_mw_cache.rs:1188-1196 | The estimate is the fixed sizes, the length of the query name, and for every record its fixed size, its name and 128 bytes. |
| `CacheRuns.GetSeesLastWrite` | src/dns_mw_cache.rs:1029-1069 | Over every run a hit is the last value written for exactly that query, up to record names and lowered TTLs, and is valid exactly until that write's deadline; `CacheReads.ReadIsExact` fixes the names and TTLs. |
| `CacheReads.ReadIsExact` | src/dns_mw_cache.rs:1029-1069 | Over every run a hit is the last write of its query, exactly: only if it holds nothing but addresses and one has another name are all records given the asked name, otherwise none is; a valid record keeps its TTL or has the greatest one that fits before the deadline; a stale one has the lesser of its TTL and the stale-reply TTL; the TTLs as long as the time left and the stale-reply TTL fit 32 bits. |
| `CacheReads.TimeLeftFits` | src/dns_mw_cache.rs:1061-1064 | For what inserts wrote, the time left is at most an hour, so the 32-bit cast of it never bites. |
| `CacheReads.AnswerReadBack` | src/dns_mw_cache.rs:849-1069 | An inserted answer that nothing overwrote reads back as a positive response to its query with exactly the inserted records in order, valid until the least of their TTLs or 600 s have passed. |
| `CacheReads.DenialReadBack` | src/dns_mw_cache.rs:906-1069 | A denial that nothing overwrote reads back with the query, code, authorities and records of the response it was inserted with, its TTLs capped, valid until its negative TTL has passed. |
| `CacheReads.HitsCountUses` | src/dns_mw_cache.rs:849-1034 | Reads and rewrites of an entry add one hit each and nothing else does; an entry that comes in by an insert has no hits and no mark. |
| `CacheRuns.ServeBounds` | src/dns_mw_cache.rs:1061-1067 | A record served valid at t has t + TTL at most the deadline; a stale one has at most the stale-reply TTL. |
| `CacheRuns.NoAnswerOutlivesItsEntry` | src/dns_mw_cache.rs:849-1069 | The same over every run, together with the lifetime of the write: min(600 s, least record TTL) for answers, 60..3600 s for denials. |
| `CacheRuns.ScanReportsOnlyDue` | src/dns_mw_cache.rs:1105-1162 | A scan reports at most the limit, no query twice, most hits first, and only resident unmarked address entries past the threshold. |
| `CacheRuns.ScanOnlyMarks` | src/dns_mw_cache.rs:1116-1140 | Reported entries are marked; every other lookup is unchanged. |
| `CacheRuns.ScanReportsAllDue` | src/dns_mw_cache.rs:1094-1141 | Below the limit the reports are exactly the due entries with a due key on the heap. |
| `CacheRuns.ScanAgreesWithFullScan` | src/dns_mw_cache.rs:1071-1168 | In every reachable state all of the above hold, and a scan below the limit misses no due entry last written by an insert or a load. |
| `CacheRuns.ReloadClearsMark` | src/dns_mw_cache.rs:788-795 | An entry loaded from a file is unmarked. |
| `CacheRuns.MarkKeptIff` | src/dns_mw_cache.rs:878-883 | For an entry that stays resident the mark survives a step if and only if the step does not reload that entry; no scan reports a marked entry. |
| `CacheRuns.MarkedIsNeverReported` | src/dns_mw_cache.rs:1118-1142 | Over any stretch of a run in which a marked entry stays resident and is not reloaded, the mark stays and no scan reports it. |
| `ScanWaits.RequeuedAtThreshold` | src/dns_mw_cache.rs:1128-1131 | A key no later than the threshold is put back exactly when a popped key stands for an unmarked address entry expiring at the threshold. |
| `ScanWaits.ReportsUpToLimit` | src/dns_mw_cache.rs:1094-1141 | A scan reports as many entries as are due with a due key on the heap, up to the limit. |
| `ScanWaits.AllDueReported` | src/dns_mw_cache.rs:1094-1141 | With no more due entries than the limit, exactly the due entries with a due key are reported. |
| `ScanWaits.FullBatchIsEarliest` | src/dns_mw_cache.rs:1096-1114 | A reported entry has a key no later than any key of a due entry that is not reported. |
| `ScanWaits.WaitIsSafeIff` | src/dns_mw_cache.rs:1144-1160 | The wait keeps clear of every key left if and only if no due key was left unpopped and no popped key stands for an entry expiring at the threshold. |
| `ScanWaits.WaitIsSafeBefore` | src/dns_mw_cache.rs:1071-1160 | From the state before the call: with fewer due entries than the limit the wait is safe if and only if no due key stands for an entry expiring at the threshold; with more it never is; with as many it is so under the same condition if every latest due key is the sole due key of a due entry, and never if none is. |
| `ScanWaits.NothingFallsDueDuringWait` | src/dns_mw_cache.rs:1150-1160 | With fewer due entries than the limit and no due key of an entry expiring at the threshold, no refreshable entry falls due before the wait is over. |
| `CacheRuns.BudgetHoldsInEveryRun` | src/dns_mw_cache.rs:672-711 | In every reachable state the counter is the sum of the entry estimates and, with a budget set, within it. |
| `CacheRecency.StepActs` | src/dns_mw_cache.rs:759-1168 | Every operation acts on every shard as a short LRU history that names just the queries it touches there, in order. |
| `CacheRecency.ShardsAreLru` | src/dns_mw_cache.rs:618-1169 | In every reachable state each shard is what an LRU list of its capacity holds after a history naming exactly the queries the run touched in it. |
| `CacheRecency.OrderIsRecencyOfRun` | src/dns_mw_cache.rs:618-1169 | In every reachable state the stored order of a shard is the order in which the run last touched its queries. |
| `CacheRecency.EvictedIsLeastRecent` | src/dns_mw_cache.rs:690-938 | Over every run, whatever an insert or a load evicts, for capacity or for the budget, was touched less recently than every query it leaves in the same shard. |
| `CacheRecency.ReadsEvictNothing` | src/dns_mw_cache.rs:1029-1168 | Reads and scans evict nothing. |
| `ScanTimes.ScanInTime` | src/dns_mw_cache.rs:1071-1142 | In every reachable state a scan reports only unmarked address entries that will have been expired, for the configured stale-serving time if that applies, within the look-ahead (5 s if not given); below its limit it reports every such entry last written by an insert or a load. |
| `ScanTimes.NothingOverdueDuringWait` | src/dns_mw_cache.rs:1144-1160 | With fewer due entries than the limit and none expiring at the threshold, no refreshable entry is past its time at any moment until the announced wait is over. |
| `CacheExamples.StaleEntryIsReported` | src/dns_mw_cache.rs:1087-1142 | With a day of stale serving and ten seconds of look-ahead, an entry expired a day ago but for five seconds is reported. |
| `CacheExamples.StaleEntryIsAwaited` | src/dns_mw_cache.rs:1087-1160 | Under the same settings one that has ten more seconds is left alone, and the wait is the time until it is due. |
| `CacheExamples.RenewedEntryIsMissed` | src/dns_mw_cache.rs:878-883 | A run in which a fresh insert onto a marked entry leaves the mark, and the scan after its expiry reports nothing. |
| `CacheExamples.WaitOverrunsEntryAtThreshold` | src/dns_mw_cache.rs:1128-1160 | A scan with an entry expiring at the threshold announces a wait past a due key. |
| `CacheExamples.WaitOverrunsFullBatch` | src/dns_mw_cache.rs:1110-1160 | A scan with a full batch leaves a due key and announces a wait past it. |
| `CacheExamples.TieDecides` | src/dns_mw_cache.rs:1096-1160 | One state and two scans that differ in which of two keys of one deadline comes first: one wait overruns a due key, the other does not. |
| `CacheRuns.StepIsSound` | src/dns_mw_cache.rs:759-1168 | Every operation takes a sound state to a sound state. |
| `RecordGroups.FirstQueriesExact` | src/dns_mw_cache.rs:961-978 | The group keys are the distinct (name, type, class) of the records, each once. |
| `RecordGroups.AddRecordGroups` | src/dns_mw_cache.rs:972-976 | One turn of the grouping fold gives the groups of the longer list: in-group order kept, new groups at the end. |
| `RecordOrder.GroupByPosition` | src/dns_mw_cache.rs:972-976 | A group holds the records of its name, type and class, all of them, in the order of their positions in the list. |
| `RecordOrder.GroupsInOrder` | src/dns_mw_cache.rs:972-978 | The groups come in the order of the first positions of their records. |
| `RecordOrder.FlattenByPosition` | src/dns_mw_cache.rs:980-996 | Any number of groups end to end are the records at positions ordered by group, then by position, none left out and none repeated. |
| `RecordOrder.ReturnedByPosition` | src/dns_mw_cache.rs:951-1010 | The response handed back for a record list: the records of the asked key in their order; without any, all records, by first position of their key, then by position. |
| `RecordOrder.AliasThenAddress` | src/dns_mw_cache.rs:951-1010 | A CNAME and the address it leads to come back in that order. |
| `RecordGroups.GroupsArePartition` | src/dns_mw_cache.rs:960-980 | The groups end to end are a rearrangement of the record list. |
| `RecordGroups.LastAfterGroups` | src/dns_mw_cache.rs:998-1007 | After the group inserts, each group key was last written with its own group and every other query is untouched. |
| `RecordGroups.CachedIsReturned` | src/dns_mw_cache.rs:951-1010 | After caching a non-empty list, the last write of the original query is the response handed back, and that of every group key is its group. |
| `RecordGroups.GetAfterCaching` | src/dns_mw_cache.rs:951-1069 | After a record list has been cached at the end of any run, reading the original query yields the response handed back and reading a group key its group, if anything. |
| `DnsCacheObject.SortByHits` | src/dns_mw_cache.rs:1162 | A stable sort: a rearrangement, most hits first, equal hits in their former order. |
| `DnsCacheObject.LeastTtlOf` | src/dns_mw_cache.rs:858-866 | The fold computes the least TTL. |
| `DnsCacheObject.GroupRecords` | src/dns_mw_cache.rs:958-980 | The fold computes the groups, and whether some record strays from the original query. |
| `DnsCacheObject.DnsCache.constructor` | src/dns_mw_cache.rs:634-669 | A new cache is the initial state; capacities add up to max(size, 1). |
| `DnsCacheObject.DnsCache.PopShard` | src/dns_mw_cache.rs:698-705 | Evicts the least recent entry of one shard and keeps the counter exact. |
| `DnsCacheObject.DnsCache.EvictRound` | src/dns_mw_cache.rs:695-707 | One round visits the shards in order and only while over budget; without an eviction every shard is empty. |
| `DnsCacheObject.DnsCache.EnforceMemoryBudget` | src/dns_mw_cache.rs:690-711 | Terminates, at the first point of the round-robin schedule at which usage fits. |
| `DnsCacheObject.DnsCache.AdmitEntry` | src/dns_mw_cache.rs:788-799 | The push step on the routed shard, displaced bytes settled. |
| `DnsCacheObject.DnsCache.StoreEntry` | src/dns_mw_cache.rs:873-890 | The store step: rewrite in place or push. |
| `DnsCacheObject.DnsCache.WriteEntry` | src/dns_mw_cache.rs:873-891 | Store followed by the budget pass, keeping the invariant. |
| `DnsCacheObject.DnsCache.Insert` | src/dns_mw_cache.rs:849-899 | Exactly the insert step, heap key included; returns what it stored. |
| `DnsCacheObject.DnsCache.InsertNegative` | src/dns_mw_cache.rs:906-938 | Exactly the negative step: capped TTLs, no heap key. |
| `DnsCacheObject.DnsCache.InsertRecords` | src/dns_mw_cache.rs:951-1010 | Exactly the run of inserts for a record list; returns the group of the original query, else all records, and nothing only for an empty list; the order is that of `RecordOrder.ReturnedByPosition`. |
| `DnsCacheObject.DnsCache.LoadFrom` | src/dns_mw_cache.rs:784-806 | Exactly the load step on decoded entries. |
| `DnsCacheObject.DnsCache.Clear` | src/dns_mw_cache.rs:817-825 | Back to the initial state. |
| `DnsCacheObject.DnsCache.Get` | src/dns_mw_cache.rs:1029-1069 | Exactly the read step: hit counted, status by deadline; what it serves is that of `CacheReads.ReadIsExact`. |
| `DnsCacheObject.DnsCache.ScanVisit` | src/dns_mw_cache.rs:1116-1140 | The effect of one due key on its shard, the report and the keys to put back. |
| `DnsCacheObject.DnsCache.NextDue` | src/dns_mw_cache.rs:1096-1114 | Pops in deadline order; stops on an empty heap, on a key not due, or on a full batch, and puts that key back. |
| `DnsCacheObject.DnsCache.CollectDue` | src/dns_mw_cache.rs:1094-1141 | The scan loop terminates, pops the earliest keys and only while the batch has room, and does what the model's scan does with them. |
| `DnsCacheObject.DnsCache.WaitFor` | src/dns_mw_cache.rs:1152-1160 | The wait from the earliest key, capped, and the cap itself when that key is due. |
| `DnsCacheObject.DnsCache.GetExpired` | src/dns_mw_cache.rs:1071-1168 | Exactly the scan step: earliest keys first, no pop into a full batch, stable order by hits, the wait from what is left; on the clock it is `ScanTimes.ScanInTime`. |
| `Ttl.Clamp` | src/dns_mw_addr.rs:36-45 | The maximum if above it, else the minimum if below it unless the bounds clash, else unchanged; never above the maximum. |
| `Ttl.ClampTtlBounds` | src/dns_mw_addr.rs:36-45 | Clamps each record in place and nothing else. |
| `Ttl.ClampedLifetime` | src/dns_mw_cache.rs:429-442 | For any bounds, clamping the records clamps the cached lifetime: the clamped least TTL, or 600 s if less. |
| `CacheCodec.GroupRoundTrip` | src/dns_mw_cache.rs:1292-1299 | A group name of 1..65535 bytes, or none, reads back as written. |
| `CacheCodec.EntryRoundTrip` | src/dns_mw_cache.rs:1274-1353 | Over any self-delimiting message codec an entry reads back with its message, group and hits, consuming exactly its bytes. |
| `CacheCodec.EntryLayout` | src/dns_mw_cache.rs:1274-1305 | The bytes of an entry: 1 and the message, 2 and the whole seconds left, 3 and the length and text of the group name, 4 and the hits; integers big-endian. |
| `CacheCodec.RoundTripIffStorable` | src/dns_mw_cache.rs:1292-1304 | Group and hits survive exactly when the name is absent or 1..65535 bytes and hits are below 2^32. |
| `CacheCodec.EmptyGroupIsLost` | src/dns_mw_cache.rs:1292-1299 | An empty group name comes back as no group. |
| `CacheCodec.HitsWrap` | src/dns_mw_cache.rs:1301-1303 | 2^32 hits come back as zero. |
| `CacheCodec.LifetimeNeverExtended` | src/dns_mw_cache.rs:1282-1290 | The restored lifetime is never longer than what was left, and shorter by less than a second unless it overflows 32 bits. |
| `CacheCodec.Read` | src/dns_mw_cache.rs:1308-1353 | A decoded entry took at least one byte and at most all, and could have been stored. |
| `CacheCodec.FileRoundTrip` | src/dns_mw_cache.rs:1356-1384 | A whole file reads back as its encodable entries in order. |
| `CacheCodec.WriteMany` | src/dns_mw_cache.rs:1357-1371 | The writing loop emits every encodable entry in order and skips the others. |
| `CacheCodec.DecodeLoop` | src/dns_mw_cache.rs:1373-1384 | The decoding loop terminates because entries consume bytes, and one bad entry rejects the file. |
| `CacheCodec.DeserializeMany` | src/dns_mw_cache.rs:1373-1384 | The same loop over cache entries. |
| `CacheFiles.SavedComesBack` | src/dns_mw_cache.rs:1356-1384 | Saving any list of storable entries and decoding the file gives them all back in order: same response, group and hits, for at most the time that was left. |
| `CacheFiles.SnapshotIsResident` | src/dns_mw_cache.rs:723-732 | Every entry of the snapshot that is saved is resident under some query. |
| `CacheFiles.EntriesCarryTheirQuery` | src/dns_mw_cache.rs:849-938 | In every reachable state of a run whose denials carry their own query, every entry answers the query it is stored under. |
| `CacheFiles.SaveThenLoad` | src/dns_mw_cache.rs:723-806 | Saving any reachable cache, decoding the file and loading it into an empty cache of any size: whatever is resident was resident before, with the same response and hits and no more time than was left; under the same query if the denials of the run carried their own. |
| `Domains.RankDeterminesPattern` | src/collections.rs:28-62 | Among fully qualified patterns, kind and base name are fixed by the rank, so a walk towards the root probes each rank. |
| `DomainIndex.LinearBestIsBest` | src/config/domain.rs:32-46 | The linear scan yields the accepted rule of best rank, earliest inserted among equals, and nothing exactly when none is accepted. |
| `DomainIndex.AcceptedApplies` | src/config/domain.rs:32-46 | A rule is accepted for a name exactly if the name's labels are some prefix followed by the rule's: no prefix for an exact rule; one label for a one-label rule, whose wildcard is empty or accepts that label; at least one for a suffix rule; any for a default rule. |
| `DomainIndex.FoundApplies` | src/collections.rs:16-82 | The rule the lookup finds applies to the name in that sense, and nothing is found exactly if no rule does. |
| `DomainIndex.LostIff` | src/collections.rs:20-24 | A pattern matches a name without being accepted for the name that is looked up exactly in the listed cases: at the root a one-label pattern; for a wildcard name whatever names it in full, and one-label and suffix patterns on its base. |
| `DomainIndex.MissedIff` | src/collections.rs:16-82 | A lookup finds nothing although a rule matches if and only if some rule is lost and none is accepted for the name looked up; names that are neither the root nor wildcards lose none. |
| `DomainIndex.RootIsMissed` | src/config/domain.rs:36-42 | A one-label rule on the root matches the root, and the lookup finds nothing. |
| `DomainIndex.WildcardNameIsMissed` | src/collections.rs:20-24 | A one-label rule on example.com matches *.example.com, and the lookup finds nothing. |
| `DomainIndex.FoundMatchesIff` | src/collections.rs:20-24 | A rule accepted for the name looked up matches the name asked for, except exactly an exact or one-label rule found for a wildcard name. |
| `DomainIndex.WildcardNameGetsOtherRule` | src/collections.rs:20-24 | *.example.com is given the rule for exactly example.com, which does not match it. |
| `DomainIndex.FirstMatchDedup` | src/collections.rs:103-108 | Repeated insertions do not change which one-label pattern is met first. |
| `DomainIndex.PutRepresents` | src/collections.rs:100-112 | An insert keeps both hash tables a representation of the rule list. |
| `DomainIndex.DropRepresents` | src/collections.rs:115-123 | So does a removal. |
| `DomainIndex.HistoryKeepsLatest` | src/collections.rs:100-123 | Over every history of edits a rule is present exactly when its last edit was an insertion, with that value. |
| `DomainIndex.DomainMap.constructor` | src/collections.rs:126-133 | A new index holds no rule. |
| `DomainIndex.DomainMap.Insert` | src/collections.rs:100-112 | Qualifies the name, puts the rule, returns the previous value. |
| `DomainIndex.DomainMap.Remove` | src/collections.rs:115-123 | Drops the rule, returns its value. |
| `DomainIndex.DomainMap.FindSub` | src/collections.rs:38-49 | The scan of one-label patterns answers as the linear scan does, or rules out that rank. |
| `DomainIndex.DomainMap.ProbeLevel` | src/collections.rs:29-65 | The probes of one level answer as the linear scan does, or rule out all ranks of that level. |
| `DomainIndex.DomainMap.Find` | src/collections.rs:16-82 | For every index and every name the walk terminates and equals the linear scan. |
| `DomainRules.LeqTotal` | src/config/domain.rs:59-78 | The pattern order is total. |
| `DomainRules.LeqTransitive` | src/config/domain.rs:59-78 | The pattern order is transitive. |
| `DomainRules.KindsInOrder` | src/config/domain.rs:59-78 | On one name exact, one-label, suffix and default patterns come in this order, strictly. |
| `DomainRules.AncestorSortsFirst` | src/config/domain.rs:59-78 | In canonical name order (section 6.1 of RFC 4034) a proper ancestor sorts strictly before every name below it. |
| `DomainRules.SortItems` | src/dns_rule.rs:129-130 | A stable sort: a rearrangement in order, items that compare equal staying in their former order. |
| `DomainRules.EncloserSortsBefore` | src/dns_rule.rs:140 | A rule that applies to the base name of another has a shorter name and sorts before it. |
| `DomainRules.PartialIndexSuffices` | src/dns_rule.rs:134-144 | Links looked up while the index is half built equal the lookups in the finished index. |
| `DomainRules.Create` | src/dns_rule.rs:129-146 | For every set of fully qualified rules the index holds exactly them, and every non-root rule is linked to what a lookup of its base name finds in the finished index. |
| `DomainRules.ChainVisitsEnclosingRules` | src/dns_rule.rs:170-172 | Following the links visits the enclosing rules one by one, each name strictly shorter, ending where the lookup finds nothing. |
| `DomainRules.WalkAddressRules` | src/dns_mw_addr.rs:175-230 | The walk stops at the nearest rule with something to say, and answers nothing when none has or rules do not apply; what the rules say is fixed by the lemmas of `AddressRules`. |
| `AddressRules.OtherFamilyDoesNotMatter` | src/dns_mw_addr.rs:175-230 | Anywhere in a chain, a rule about the other address family alone can be struck out without changing the answer. |
| `AddressRules.SilentRules` | src/dns_mw_addr.rs:175-230 | So can a rule without an address part, and any SOA rule where SOA rules do not apply. |
| `AddressRules.SoaBlocks` | src/dns_mw_addr.rs:175-230 | Where SOA rules apply, the nearest rule blocks the query types it names with just the default SOA. |
| `AddressRules.IgnoreEndsWalk` | src/dns_mw_addr.rs:175-230 | An ignore rule ends the walk without an answer for the query types it names. |
| `AddressRules.AddressesAnswer` | src/dns_mw_addr.rs:175-230 | The nearest rule's addresses of the asked family are the answer, in order; for AAAA without an IPv6 part its IPv4 addresses mapped; with neither the SOA, or what the rest yields where SOA rules do not apply. |
| `AddressRules.RepliesFitTheQuery` | src/dns_mw_addr.rs:175-230 | For every chain an A query gets IPv4 addresses or just the SOA, an AAAA query IPv6 addresses, mapped ones or just the SOA, and no SOA where SOA rules do not apply. |
| `Trie.GetAfterInsert` | src/collections.rs:292-339 | An insert changes its own key alone and returns the value it replaced. |
| `Trie.LenAfterInsert` | src/collections.rs:366-369 | The recursive count grows by one exactly when the key was new. |
| `Trie.TrieMap.constructor` | src/collections.rs:271-275 | A new trie holds nothing. |
| `Trie.TrieMap.Insert` | src/collections.rs:215-226 | The trie is a finite map from non-empty keys whose size is the recursive count; an empty key is handed back. |
| `Trie.TrieMap.Get` | src/collections.rs:228-237 | The last value stored for exactly that key. |
| `Upstream.BreakerTracksHistory` | src/dns_client.rs:704-724 | The two breaker fields are the failures since the last reset (in 32 bits) and the latest failure. |
| `Upstream.SkippedIffRecentFailures` | src/dns_client.rs:704-713 | Over every history a server is skipped exactly when at least three failures, counted in 32 bits, followed its last reset and the latest is less than 30 s old. |
| `Upstream.NeverOpensWithoutFailure` | src/dns_client.rs:897-958 | Histories of successes, probes and overload never open the breaker; `UpstreamRuns.NeverSkippedWithoutFailures` says it of results. |
| `Upstream.AttemptsEnd` | src/dns_client.rs:873-960 | Every send but the last met a retryable error; a retryable error is final only with retries used up or past the deadline. |
| `Upstream.RetryIsBounded` | src/dns_client.rs:868-960 | For every sequence of outcomes: at most three sends and at most 9150 ms in sends and backoff. |
| `UpstreamRuns.SendsInDetail` | src/dns_client.rs:868-960 | Result, number of sends, time and end of every retry sequence: each send is cut off after 3 s; a second follows 50 ms and a third 100 ms after a transient error less than 8 s in. |
| `UpstreamRuns.LookupSeries` | src/dns_client.rs:816-960 | Any series of lookups on a server object is a run of the model, results included. |
| `UpstreamRuns.ResultDecides` | src/dns_client.rs:897-958 | A lookup that is sent counts with its whole time, and as a success exactly when its result is a response other than SERVFAIL and REFUSED or a denial; exactly then the streak restarts; an overload leaves the streak, anything else lengthens and dates it. |
| `UpstreamRuns.NeverSkippedWithoutFailures` | src/dns_client.rs:704-960 | In a run whose results are answers, denials and overloads in any mix, no lookup is skipped. |
| `UpstreamRuns.DenialsKeepServerOpen` | src/dns_client.rs:897-958 | Three NXDOMAIN results a second apart do not keep the fourth lookup from being sent. |
| `UpstreamRuns.ThreeFailuresSkip` | src/dns_client.rs:704-724 | After three failing results in a row, from any state whose streak does not overflow 32 bits, the next lookup is skipped exactly if it starts less than 30 s after the third. |
| `UpstreamRuns.FourthLookup` | src/dns_client.rs:704-960 | On a new server with three failing results the fourth lookup returns "no connections" and leaves no trace if it starts within those 30 s, and is sent otherwise. |
| `Upstream.NameServer.constructor` | src/dns_client.rs:688-700 | A new server has an empty history. |
| `Upstream.NameServer.IsFailing` | src/dns_client.rs:704-713 | Decides whether the history puts the server in cooldown. |
| `Upstream.NameServer.RecordSuccess` | src/dns_client.rs:716-718 | Appends a success to the history. |
| `Upstream.NameServer.RecordFailure` | src/dns_client.rs:721-724 | Appends a failure to the history. |
| `Upstream.NameServer.AllowProbe` | src/dns_client.rs:781-783 | Appends a probe reset to the history. |
| `Upstream.NameServer.RecordTime` | src/dns_client.rs:730-743 | Queries stay the sum of successes and failures. |
| `Upstream.NameServer.SendWithRetries` | src/dns_client.rs:868-960 | The loop computes the bounded sequence of attempts. |
| `Upstream.NameServer.Tell` | src/dns_client.rs:897-958 | The breaker sees a failure, a success or nothing, according to the final result; which is which is `UpstreamRuns.ResultDecides`. |
| `Upstream.NameServer.Conclude` | src/dns_client.rs:897-958 | A lookup that was not skipped adds exactly one query, its outcome and its time. |
| `Upstream.NameServer.Lookup` | src/dns_client.rs:816-960 | A skipped lookup leaves history and statistics as they were; any other adds exactly one success or failure, its time, and what the breaker has to know; over runs see `UpstreamRuns`. |
| `Upstream.Race` | src/dns_client.rs:584-597 | The first arrival with records wins, failing that the last arrival; records are returned exactly when some arrival has them. |
| `Upstream.NameServerGroup.CheckProbe` | src/dns_client.rs:510-521 | A probe is due exactly when the group is not empty, all servers cool, and none failed in the last 5 s. |
| `Upstream.NameServerGroup.AllowProbeIfAllCooling` | src/dns_client.rs:510-529 | Every server gets a probe reset exactly when a probe is due; nothing else changes. |
| `Upstream.SkippedAsAWholeIff` | src/dns_client.rs:510-529 | After that the whole group is skipped exactly when all were cooling and one failed in the last 5 s. |
| `Upstream.QuietGroupReachesAServer` | src/dns_client.rs:510-529 | A non-empty group without a failure in the last 5 s queries at least one server, whose query count grows by one. |
| `UpstreamRuns.FiveSecondsSuffice` | src/dns_client.rs:510-529 | A non-empty group none of whose servers failed in the last five seconds queries at least one of them. |
| `Upstream.NameServerGroup.LookupAll` | src/dns_client.rs:571-581 | Every server's result, history and statistics are those of its own lookup; none affects another. |
| `Upstream.RaceInOrder` | src/dns_client.rs:584-597 | For every arrival order the race returns one of the results, with records exactly when some result has them. |
| `Upstream.NameServerGroup.Lookup` | src/dns_client.rs:541-598 | For every arrival order, records are returned exactly when some server that was let through produced them; the history and statistics of every server are exact. |
| `AnswerRace.IpAddrsByPosition` | src/dns.rs:538-547 | The addresses of an answer are those of its address records, one each, in order. |
| `AnswerRace.DecisiveAnswerIff` | src/dns_mw_ns.rs:327-330 | An answer ends the first-ping race exactly if exactly one of its records is an address. |
| `AnswerRace.FindRecord` | src/dns_mw_ns.rs:222-225 | Finds the first record carrying the address, and one exactly when there is one. |
| `AnswerRace.HandleStrategy` | src/dns_mw_ns.rs:217-243 | The unreachable branch is reached exactly when no answer carries the selected address; otherwise the reply is the first answer that does, with its first record for the address alone. |
| `AnswerRace.Tally` | src/dns_mw_ns.rs:498-501 | The fold counts the occurrences of every address. |
| `AnswerRace.GreatestCount` | src/dns_mw_ns.rs:502-504 | The scan yields a key of greatest count, whatever the order of entries, and nothing only for no entries. |
| `AnswerRace.MostFrequentIp` | src/dns_mw_ns.rs:494-505 | An address of greatest multiplicity, or none exactly when there is no address. |
| `AnswerRace.Conclude` | src/dns_mw_ns.rs:354-363 | Pinged address, else a most frequent one, else fallback exactly when no answer has an address. |
| `AnswerRace.FirstPing` | src/dns_mw_ns.rs:315-363 | The first ping result or single-address answer decides, over the answers and errors collected until then. |
| `AnswerRace.FirstCarrierIsEarliest` | src/dns_mw_ns.rs:217-230 | The first collected answer that carries an address is the first to come in that does. |
| `AnswerRace.LookupFirstPing` | src/dns_mw_ns.rs:217-363 | For every interleaving the unreachable branch is not reached and the strategy is decided by the first decisive event; by arrival, a selected address comes from the first answer carrying it, a fallback is the first answer, else the first error, else "no connections". |
| `AnswerRace.FirstPingLosesIff` | src/dns_mw_ns.rs:319-363 | First-ping comes away without an address although some answer carries one if and only if a failed ping ends the race before any such answer. |
| `AnswerRace.StartedByEmptyAnswer` | src/dns_mw_ns.rs:325-345 | That ping was started by an answer without addresses. |
| `AnswerRace.EmptyAnswerThenPing` | src/dns_mw_ns.rs:319-363 | Whatever else comes in, an answer without addresses followed by a failed ping is the whole outcome. |
| `AnswerRace.FirstPingLosesAnswer` | src/infra/ping.rs:42-44 | An empty answer, its failed ping, then an answer with an address: the strategy falls back on the empty answer. |
| `AnswerRace.CountsExact` | src/dns_mw_ns.rs:410-426 | The counts are the numbers of occurrences modulo 256. |
| `AnswerRace.CountAddresses` | src/dns_mw_ns.rs:407-427 | Launches a ping for exactly the addresses not seen before, once each, and counts every address. |
| `AnswerRace.Gather` | src/dns_mw_ns.rs:395-435 | One event extends what was gathered: answers, errors, one ping per address, a quickest ping. |
| `AnswerRace.FastestIp` | src/dns_mw_ns.rs:390-445 | Each distinct address is pinged once and a quickest successful ping decides. |
| `AnswerRace.LookupFastestIp` | src/dns_mw_ns.rs:217-445 | For every interleaving the unreachable branch is not reached and the strategy is decided by a quickest ping; the reply is told by arrival as for first-ping. |
| `AnswerRace.LastOkIsLatest` | src/dns_mw_ns.rs:449-490 | The answer kept for the end is the latest one. |
| `AnswerRace.PreviousErrorIsLatest` | src/dns_mw_ns.rs:449-490 | The error an error is compared with is the latest one before it. |
| `AnswerRace.FastestResponse` | src/dns_mw_ns.rs:449-490 | Stops at the first usable answer or repeated real error, never on a skipped server; an error is returned only when no answer came in before. |
| `Dispatch.PassExact` | src/app.rs:400-449 | Refuses exactly the excess over the limit, newest first, or every foreground query; all others keep their place. |
| `Dispatch.NewestByPosition` | src/app.rs:400-449 | "Newest first" by position: the requests of one kind, all of them, from the end of the batch to its beginning. |
| `Dispatch.LockoutIff` | src/app.rs:400-413 | From the limit on, queries lost to the active count make every foreground query refused; below it, with nothing else active, a query on its own gets through. |
| `Dispatch.ReapTasks` | src/app.rs:479-487 | The reaped total and the kept tasks account for all tasks, permits and running queries. |
| `Dispatch.Dispatcher.constructor` | src/app.rs:370-376 | All counters zero, all permits free: 4 background, 64 foreground. |
| `Dispatch.Dispatcher.Triage` | src/app.rs:400-449 | The popping loop computes the refusal pass and gives back one active query per refusal. |
| `Dispatch.Dispatcher.SpawnBackground` | src/app.rs:451-462 | Waiting background work becomes one task when a permit is free, otherwise it waits. |
| `Dispatch.Dispatcher.SpawnForeground` | src/app.rs:464-473 | A foreground batch becomes one task, or is dropped for want of a permit and counted as lost. |
| `Dispatch.Dispatcher.Reap` | src/app.rs:475-476 | Finished tasks leave the active count, which never goes below zero. |
| `Dispatch.Dispatcher.Receive` | src/app.rs:379-449 | Counts the batch by kind and sorts out what is refused. |
| `Dispatch.Dispatcher.Settle` | src/app.rs:451-476 | Spawns, drops and reaps: the new tasks, batch and lost count are exact. |
| `Dispatch.Dispatcher.Turn` | src/app.rs:378-477 | After every turn active queries are waiting background, plus unreaped task sizes, plus dropped foreground; hits and misses never exceed the total; the new tasks and batches are exact; a turn under a limit that drops queries leaves the dropped ones at least 64 below it. |
| `Dispatch.Dispatcher.Step` | src/app.rs:378-477 | Empty batches change nothing; once dropped queries reach the limit every foreground query is refused from then on; an idle dispatcher refuses a single query exactly then; a fixed limit is never reached. |
| `Dispatch.Dispatcher.Complete` | src/app.rs:431-447 | A finished foreground query counts as one hit or one miss, a background one as neither. |
| `Dispatch.Dispatcher.Finish` | src/app.rs:456-461 | A finished task returns its permit. |
| `Dispatch.Saturate` | src/app.rs:464-473 | Sixty-four unfinished queries take all permits; the next one is dropped. |
| `Dispatch.DroppedForGood` | src/app.rs:464-476 | After everything has finished one query still counts as active, and under a limit of one the next query is refused. |
| `Listeners.FindDuplicates` | src/dns_conf.rs:1065-1081 | Exactly the positions with a later listener on the same address in the same family, in descending order. |
| `Listeners.SurvivorsByPosition` | src/dns_conf.rs:1063-1087 | What is left are the listeners at exactly the positions after which no listener competes for the address, in order; UDP, QUIC and HTTP/3 compete among themselves, TCP, TLS and HTTPS among themselves, and never across. |
| `Listeners.RemoveNext` | src/dns_conf.rs:1083-1084 | Each removal is in range of the shortened list and removes that listener. |
| `Listeners.DedupBinds` | src/dns_conf.rs:1063-1087 | Leaves the last listener of each (family, address), in the original order. |
| `Dns64.EmbeddingIsExact` | src/dns_mw_dns64.rs:73-89 | For lengths 1..96: prefix bits, then the 32 address bits, then zeros, with no carry out of 128 bits. |
| `Dns64.EmbeddingIsReversible` | src/dns_mw_dns64.rs:73-89 | Distinct IPv4 addresses stay distinct. |
| `Dns64.AgreesWithRfcIff` | src/dns_mw_dns64.rs:73-89 | For lengths 32..64 the layout is that of section 2.2 of RFC 6052 exactly when no address bit beyond bit 64 is set; always for /32. |
| `Dns64.SlashSixtyFourDiffers` | src/dns_mw_dns64.rs:73-89 | 0.0.0.1 under 64:ff9b::/64 does not get the standard's layout. |
| `Dns64.SlashNinetySix` | src/dns_mw_dns64.rs:73-89 | For /96 the address fills the last four octets. |

## Left out

- CacheFiles.SaveThenLoad: does not say which saved entries are still resident after a load; a smaller cache or budget
  evicts some.
- ScanWaits.WaitIsSafeBefore: says nothing for as many due entries as the limit when the latest due keys are tied,
  some sole and some not; `TieDecides` shows that both outcomes occur, and `WaitIsSafeIff` covers them by the keys
  popped.
- Interleavings inside one cache method: each runs to completion, so a clear between an insert's shard and counter
  updates is not covered.
- The response fields that only mark an answer as cached, the last access time, and the global hit counter.
- Reading and writing cache files as I/O, and the size limit of the encoder's buffer; message encoding is an assumed
  self-delimiting codec.
- Turning upstream errors into cacheable denials, and which responses bypass the cache.
- Where TTL bounds come from (`rr_ttl_bounds`): they are parameters here.
- Merging of several rules for one name, mixed qualified and unqualified rule names, and `DomainMap` built from an
  iterator.
- Collisions of the 64-bit pattern hash, and overflow of `usize` byte counts and 64-bit statistics.
- DNS64 prefix lengths 0 and above 96, where a shift amount is out of range: the model yields no address.
- The earlier branches of the address rule handler (forced SOA answers) before the rule walk.
- Panicking tasks: every spawned task returns its count.
- Sockets, TLS, proxies, pings, timers and task scheduling: their outcomes and order are parameters.
- AnswerRace.MostFrequentIp: does not say which address wins a tie, because that is the iteration order of a hash map.
- Upstream.NameServerGroup.LookupAll: runs the servers one after another at one instant, because each touches only its
  own state.
- Configuration parsing, HTTP interface, logging, DHCP, IP sets and the rest of the server: mostly I/O, or easy
  members.
