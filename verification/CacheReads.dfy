/** What a reader of the cache gets, exactly: names, TTLs, codes and hit counts against the write behind them. */
module CacheReads {
  import opened Dns
  import opened Lru
  import opened CacheModel
  import opened CacheRuns

  // ---------- Names and TTLs ----------

  ghost predicate OnlyAddresses(answers: seq<Record>) {
    forall i :: 0 <= i < |answers| ==> answers[i].rtype == A || answers[i].rtype == AAAA
  }

  ghost predicate Misnamed(answers: seq<Record>, q: Query) {
    exists i :: 0 <= i < |answers| && answers[i].name != q.name
  }

  /** Every record has the asked name, if all are addresses and some has another name; otherwise every name is kept. */
  ghost predicate NamesServed(r: seq<Record>, data: seq<Record>, q: Query) {
    && |r| == |data|
    && forall i :: 0 <= i < |r| ==>
         r[i].name == if OnlyAddresses(data) && Misnamed(data, q) then q.name else data[i].name
  }

  /** `ttl` is what was written or, if that does not fit before the deadline, the greatest that does. */
  ghost predicate GreatestFit(ttl: nat, written: nat, now: nat, deadline: nat) {
    && ttl <= written && now + ttl * SECOND <= deadline
    && (ttl < written ==> now + (ttl + 1) * SECOND > deadline)
  }

  lemma WholeSecondsExact(span: nat)
    requires span < U32 * SECOND
    ensures var secs := (span / SECOND) % U32; secs * SECOND <= span < (secs + 1) * SECOND
  {
    assert span / SECOND < U32;
  }

  lemma ServeNames(cfg: Config, e: Entry, q: Query, now: nat)
    ensures NamesServed(Serve(cfg, e, q, now).response.answers, e.data.answers, q)
  {
    var answers := e.data.answers;
    if OnlyAddresses(answers) && Misnamed(answers, q) {
      assert Aligned(e.data, q).answers == Rename(answers, q.name);
    } else {
      assert Aligned(e.data, q).answers == answers;
    }
  }

  lemma ServeTtls(cfg: Config, e: Entry, q: Query, now: nat, i: nat)
    requires i < |e.data.answers|
    ensures var r, written := Serve(cfg, e, q, now), e.data.answers[i].ttl;
            && |r.response.answers| == |e.data.answers|
            && (now <= e.validUntil && e.validUntil - now < U32 * SECOND ==>
                  GreatestFit(r.response.answers[i].ttl, written, now, e.validUntil))
            && (now > e.validUntil && cfg.expiredReplyTtl < U32 ==>
                  r.response.answers[i].ttl == Min(written, cfg.expiredReplyTtl))
  {
    var data := Aligned(e.data, q);
    assert |data.answers| == |e.data.answers| && data.answers[i].ttl == e.data.answers[i].ttl;
    if now <= e.validUntil && e.validUntil - now < U32 * SECOND {
      WholeSecondsExact(e.validUntil - now);
      var cap := ((e.validUntil - now) / SECOND) % U32;
      assert Serve(cfg, e, q, now).response.answers[i].ttl == Min(data.answers[i].ttl, cap);
      MulMono(Min(data.answers[i].ttl, cap), cap);
    }
  }

  lemma MulMono(a: nat, b: nat)
    requires a <= b
    ensures a * SECOND <= b * SECOND
  {
  }

  /** Over every run, a hit is exactly the last write of its query: the same response, its records renamed as a whole or
      not at all, each valid record with its written TTL or the greatest one that fits before the deadline, each stale
      one with the lesser of its written TTL and the stale-reply TTL. */
  lemma ReadIsExact(cfg: Config, ops: seq<Op>, s: State, q: Query, now: nat, served: Option<Served>, s': State)
    requires ValidConfig(cfg) && Steps(cfg, Init(cfg), ops, s) && Shaped(cfg, s)
    requires Step(cfg, s, Get(q, now, served), s') && served.Some?
    ensures q in LastWrites(ops)
    ensures var w, r := LastWrites(ops)[q], served.value.response;
            && SameAnswer(r, w.data, q) && NamesServed(r.answers, w.data.answers, q)
            && (served.value.valid <==> now <= w.validUntil)
            && (served.value.valid && w.validUntil - now < U32 * SECOND ==> forall i :: 0 <= i < |r.answers| ==>
                  GreatestFit(r.answers[i].ttl, w.data.answers[i].ttl, now, w.validUntil))
            && (!served.value.valid && cfg.expiredReplyTtl < U32 ==> forall i :: 0 <= i < |r.answers| ==>
                  r.answers[i].ttl == Min(w.data.answers[i].ttl, cfg.expiredReplyTtl))
  {
    GetSeesLastWrite(cfg, ops, s, q, now, served, s');
    RunRefines(cfg, ops, s);
    var e := Lookup(cfg, s.shards, q).value;
    assert Faithful(LastWrites(ops), s.heap, q, e);
    ServeNames(cfg, e, q, now);
    forall i | 0 <= i < |e.data.answers| {
      ServeTtls(cfg, e, q, now, i);
    }
  }

  /** The time left of an answer or a denial read after it was written fits in 32 bits of seconds. */
  lemma TimeLeftFits(ops: seq<Op>, q: Query, now: nat)
    requires q in LastWrites(ops) && !LastWrites(ops)[q].kind.Restored?
    requires LastWrites(ops)[q].at <= now <= LastWrites(ops)[q].validUntil
    ensures LastWrites(ops)[q].validUntil - now <= 3600 * SECOND
  {
    Lifetimes(ops);
  }

  // ---------- From the operation to the read ----------

  /** The operation writes `q`, or empties the cache. */
  ghost predicate Overwrites(op: Op, q: Query) {
    || ((op.Insert? || op.Negative?) && op.query == q)
    || Reloads(op, q) || op.Clear?
  }

  lemma {:induction false} LoadLeaves(last: map<Query, Write>, items: seq<Loaded>, q: Query)
    requires forall i :: 0 <= i < |items| ==> items[i].data.query != q
    ensures q in LastAfterLoad(last, items) <==> q in last
    ensures q in last ==> LastAfterLoad(last, items)[q] == last[q]
  {
    if items != [] {
      LoadLeaves(last, items[..|items| - 1], q);
    }
  }

  lemma {:induction false} WriteStands(ops: seq<Op>, i: nat, q: Query)
    requires i < |ops| && q in LastWrites(ops[..i + 1])
    requires forall j :: i < j < |ops| ==> !Overwrites(ops[j], q)
    ensures q in LastWrites(ops) && LastWrites(ops)[q] == LastWrites(ops[..i + 1])[q]
  {
    var n := |ops| - 1;
    if i == n {
      assert ops[..i + 1] == ops;
    } else {
      var init := ops[..n];
      assert init[..i + 1] == ops[..i + 1];
      forall j | i < j < n
        ensures !Overwrites(init[j], q)
      {
        assert init[j] == ops[j];
      }
      WriteStands(init, i, q);
      if ops[n].Load? {
        LoadLeaves(LastWrites(init), ops[n].items, q);
      }
    }
  }

  lemma WrittenLast(ops: seq<Op>, i: nat)
    requires i < |ops|
    ensures LastWrites(ops[..i + 1]) == LastAfter(LastWrites(ops[..i]), ops[i])
  {
    assert ops[..i + 1][..i] == ops[..i];
  }

  /** Equal up to name and TTL. */
  ghost predicate SameRecord(a: Record, b: Record) {
    a.rtype == b.rtype && a.rclass == b.rclass && a.data == b.data
  }

  lemma SameRecords(r: Response, data: Response, q: Query)
    requires SameAnswer(r, data, q)
    ensures forall k :: 0 <= k < |r.answers| ==> SameRecord(r.answers[k], data.answers[k])
  {
    forall k | 0 <= k < |r.answers|
      ensures SameRecord(r.answers[k], data.answers[k])
    {
      assert r.answers[k].(name := "", ttl := 0) == data.answers[k].(name := "", ttl := 0);
    }
  }

  /** What is served is the write: the same query, code, authorities, group and records, valid until its deadline, every
      TTL as written or the greatest that fits. */
  ghost predicate ReadsAs(r: Served, w: Write, now: nat) {
    && r.response.query == w.data.query && r.response.code == w.data.code
    && r.response.authorities == w.data.authorities && r.response.group == w.data.group
    && |r.response.answers| == |w.data.answers| && (r.valid <==> now <= w.validUntil)
    && forall k :: 0 <= k < |w.data.answers| ==>
         && SameRecord(r.response.answers[k], w.data.answers[k])
         && (r.valid && w.at <= now ==>
               GreatestFit(r.response.answers[k].ttl, w.data.answers[k].ttl, now, w.validUntil))
  }

  lemma ReadBack(cfg: Config, ops: seq<Op>, i: nat, q: Query, w: Write, s: State, now: nat, served: Option<Served>,
                 s': State)
    requires ValidConfig(cfg) && Steps(cfg, Init(cfg), ops, s) && Shaped(cfg, s)
    requires i < |ops| && forall j :: i < j < |ops| ==> !Overwrites(ops[j], q)
    requires var m := LastAfter(LastWrites(ops[..i]), ops[i]); q in m && m[q] == w && !w.kind.Restored?
    requires Step(cfg, s, Get(q, now, served), s') && served.Some?
    ensures ReadsAs(served.value, w, now)
  {
    WrittenLast(ops, i);
    WriteStands(ops, i, q);
    ReadIsExact(cfg, ops, s, q, now, served, s');
    SameRecords(served.value.response, w.data, q);
    if w.at <= now <= w.validUntil {
      TimeLeftFits(ops, q, now);
    }
  }

  /** A denial that nothing has overwritten reads back with the query, code and authorities of the upstream's response,
      under the group it was cached for, valid for its negative TTL; TTLs are capped by that and by the time left. */
  lemma DenialReadBack(cfg: Config, ops: seq<Op>, i: nat, s: State, now: nat, served: Option<Served>, s': State)
    requires ValidConfig(cfg) && Steps(cfg, Init(cfg), ops, s) && Shaped(cfg, s)
    requires i < |ops| && ops[i].Negative? && forall j :: i < j < |ops| ==> !Overwrites(ops[j], ops[i].query)
    requires Step(cfg, s, Get(ops[i].query, now, served), s') && served.Some?
    ensures var d, r := ops[i].response, served.value.response;
            var ttl := NegativeTtl(d);
            var deadline := ops[i].now + ttl * SECOND;
            && r.query == d.query && r.code == d.code && r.authorities == d.authorities
            && r.group == Some(ops[i].group) && |r.answers| == |d.answers|
            && (served.value.valid <==> now <= deadline)
            && forall k :: 0 <= k < |r.answers| ==>
                 && SameRecord(r.answers[k], d.answers[k])
                 && (served.value.valid && ops[i].now <= now ==>
                       GreatestFit(r.answers[k].ttl, Min(d.answers[k].ttl, ttl), now, deadline))
  {
    var w := LastAfter(LastWrites(ops[..i]), ops[i])[ops[i].query];
    ReadBack(cfg, ops, i, ops[i].query, w, s, now, served, s');
  }

  lemma InsertWrites(last: map<Query, Write>, q: Query, records: seq<Record>, group: string, now: nat)
    ensures LastAfter(last, Insert(q, records, group, now))[q] ==
              Write(Response(q, NoError, records, [], Some(group)),
                    now + LeastTtl(records, 600) * SECOND, Positive, now)
  {
  }

  /** An inserted answer that nothing has overwritten reads back as a positive response to its query with exactly the
      inserted records, in order, valid until the least of their TTLs or 600 s have passed. */
  lemma AnswerReadBack(cfg: Config, ops: seq<Op>, i: nat, s: State, now: nat, served: Option<Served>, s': State)
    requires ValidConfig(cfg) && Steps(cfg, Init(cfg), ops, s) && Shaped(cfg, s)
    requires i < |ops| && ops[i].Insert? && forall j :: i < j < |ops| ==> !Overwrites(ops[j], ops[i].query)
    requires Step(cfg, s, Get(ops[i].query, now, served), s') && served.Some?
    ensures var Insert(q, records, group, at) := ops[i];
            ReadsAs(served.value,
                    Write(Response(q, NoError, records, [], Some(group)), at + LeastTtl(records, 600) * SECOND,
                          Positive, at),
                    now)
  {
    var Insert(q, records, group, at) := ops[i];
    InsertWrites(LastWrites(ops[..i]), q, records, group, at);
    var w := LastAfter(LastWrites(ops[..i]), ops[i])[q];
    ReadBack(cfg, ops, i, q, w, s, now, served, s');
  }

  // ---------- Hits ----------

  /** Reading or rewriting `q`. */
  ghost predicate Uses(op: Op, q: Query) {
    (op.Get? || op.Insert? || op.Negative?) && op.query == q
  }

  lemma StoreHits(cfg: Config, s: State, q: Query, e: Entry, q': Query)
    requires Sound(cfg, s)
    ensures var before, after := Lookup(cfg, s.shards, q'), Lookup(cfg, Store(cfg, s, q, e).shards, q');
            && (before.Some? && after.Some? ==> after.value.hits == before.value.hits + if q == q' then 1 else 0)
            && (before.None? && after.Some? ==> q == q' && after.value == e)
  {
    var k := Route(cfg, q);
    var i := IndexOf(s.shards[k], q);
    assert ShardOk(cfg, k, s.shards[k]);
    if i < |s.shards[k]| {
      LookupAfterUse(cfg, s.shards, q, Refresh(s.shards[k][i].value, e), q');
    } else {
      LookupAfterAdmit(cfg, s, q, e, q');
    }
  }

  lemma WriteHits(cfg: Config, s: State, q: Query, e: Entry, s': State, q': Query)
    requires Sound(cfg, s) && e.failureTime == None && Enforced(cfg, Store(cfg, s, q, e), s')
    ensures Shaped(cfg, s')
    ensures var before, after := Lookup(cfg, s.shards, q'), Lookup(cfg, s'.shards, q');
            && (before.Some? && after.Some? ==> after.value.hits == before.value.hits + if q == q' then 1 else 0)
            && (before.None? && after.Some? ==> q == q' && after.value == e)
  {
    StoreIsSound(cfg, s, q, e);
    StoreHits(cfg, s, q, e, q');
    EnforcedIsSound(cfg, Store(cfg, s, q, e), s');
  }

  /** The hits of an entry count its uses: reading and rewriting add one each, nothing else does, and an entry that
      comes in other than from a file starts at zero and unmarked. */
  lemma HitsCountUses(cfg: Config, s: State, op: Op, s': State, q: Query)
    requires Sound(cfg, s) && Step(cfg, s, op, s') && !Reloads(op, q) && Resident(cfg, s', q)
    ensures var before, after := Lookup(cfg, s.shards, q), Lookup(cfg, s'.shards, q).value;
            if before.Some? then after.hits == before.value.hits + if Uses(op, q) then 1 else 0
            else (op.Insert? || op.Negative?) && op.query == q && after.hits == 0 && !after.inPrefetch
  {
    match op
    case Insert(q', records, group, now) =>
      WriteHits(cfg, s, q', InsertEntry(q', records, group, now), s'.(heap := s.heap), q);
    case Negative(q', r, group, now) =>
      WriteHits(cfg, s, q', NegativeEntry(r, group, now), s', q);
    case Load(items) =>
      AdmitAllKeepsMark(cfg, s, items, q);
      EnforcedIsSound(cfg, AdmitAll(cfg, s, items), s');
    case Get(q', _, _) =>
      TouchLookup(cfg, s, q', q);
    case Scan(now, ahead, base, maxCount, pops, result, wait) =>
      ScanOnlyMarks(cfg, s, Threshold(cfg, now, ahead), base, maxCount, pops, result, wait, s');
    case Clear =>
      EmptyLookup(cfg, q);
  }
}
