/** The expiry scan on the clock: what is reported and awaited, in terms of the present, the configured stale-serving
    time and the scan's look-ahead. */
module ScanTimes {
  import opened Dns
  import opened CacheModel
  import opened CacheRuns
  import opened ScanWaits

  /** An entry is past its time for a scan at `now` that looks `ahead` seconds ahead, five if not said: it will have
      expired by then, and been served stale for the configured time if there is one and it is not longer than the clock
      has run. */
  ghost predicate Past(expiredTtl: nat, validUntil: nat, now: nat, ahead: Option<nat>) {
    var a := if ahead.Some? then ahead.value else 5;
    if 0 < expiredTtl && expiredTtl * SECOND <= now then validUntil + expiredTtl * SECOND < now + a * SECOND
    else validUntil < now + a * SECOND
  }

  lemma PastIffBelow(cfg: Config, validUntil: nat, now: nat, ahead: Option<nat>)
    ensures Past(cfg.expiredTtl, validUntil, now, ahead) <==> validUntil < Threshold(cfg, now, ahead)
  {
  }

  ghost predicate IsAddressQuery(q: Query) {
    q.qtype == A || q.qtype == AAAA
  }

  /** An unmarked resident address entry that is past its time. */
  ghost predicate Overdue(cfg: Config, s: State, q: Query, now: nat, ahead: Option<nat>)
    requires Shaped(cfg, s)
  {
    var e := Lookup(cfg, s.shards, q);
    e.Some? && IsAddressQuery(q) && !e.value.inPrefetch && Past(cfg.expiredTtl, e.value.validUntil, now, ahead)
  }

  /** In every reachable state a scan reports only overdue entries, and one that stays below its limit reports an entry
      last written by an insert or a load if and only if it is overdue. */
  lemma ScanInTime(cfg: Config, ops: seq<Op>, s: State, op: Op, s': State, q: Query)
    requires ValidConfig(cfg) && Steps(cfg, Init(cfg), ops, s) && Shaped(cfg, s)
    requires op.Scan? && Step(cfg, s, op, s')
    ensures Reported(op.result, q) ==> Overdue(cfg, s, q, op.now, op.ahead)
    ensures |op.result| < op.maxCount && LastWrittenAsAnswer(LastWrites(ops), q) ==>
              (Reported(op.result, q) <==> Overdue(cfg, s, q, op.now, op.ahead))
  {
    ScanAgreesWithFullScan(cfg, ops, s, op, s');
    var threshold := Threshold(cfg, op.now, op.ahead);
    if Reported(op.result, q) {
      var i :| 0 <= i < |op.result| && op.result[i].query == q;
      assert FoundOk(cfg, s.shards, op.result[i], threshold);
    }
    if Lookup(cfg, s.shards, q).Some? {
      PastIffBelow(cfg, Lookup(cfg, s.shards, q).value.validUntil, op.now, op.ahead);
    }
  }

  /** What is not past its time at the end of the wait was not past it before. */
  lemma NotPastBefore(cfg: Config, validUntil: nat, now: nat, ahead: Option<nat>, wait: nat, t: nat)
    requires Threshold(cfg, now, ahead) + wait <= validUntil && now <= t <= now + wait
    ensures !Past(cfg.expiredTtl, validUntil, t, ahead)
  {
  }

  /** After a scan with fewer due entries than its limit and none expiring at the threshold, no refreshable entry is
      past its time at any moment until the announced wait is over. */
  lemma NothingOverdueDuringWait(cfg: Config, s: State, last: map<Query, Write>, op: Op, s': State, q: Query, t: nat)
    requires Refines(cfg, s, last) && op.Scan? && Step(cfg, s, op, s')
    requires var threshold := Threshold(cfg, op.now, op.ahead);
             |DueQueries(cfg, s, threshold)| < op.maxCount && NoneExpiring(cfg, s, threshold)
    requires Shaped(cfg, s') && LastWrittenAsAnswer(last, q) && op.now <= t <= op.now + op.wait
    ensures !Overdue(cfg, s', q, t, op.ahead)
  {
    if Lookup(cfg, s'.shards, q).Some? && IsAddressQuery(q) {
      NothingFallsDueDuringWait(cfg, s, last, op, s', q);
      var e := Lookup(cfg, s'.shards, q).value;
      if !e.inPrefetch {
        NotPastBefore(cfg, e.validUntil, op.now, op.ahead, op.wait, t);
      }
    }
  }
}
