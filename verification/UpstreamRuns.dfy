/** Runs of lookups on one server, told by their results: which results open the breaker and which never do. */
module UpstreamRuns {
  import opened Dns
  import opened Upstream

  // ---------- Results ----------

  /** An answer that shows the server at work: a response other than SERVFAIL and REFUSED, or a denial (NXDOMAIN, or
      NOERROR without records). */
  predicate Works(r: Result) {
    match r
    case Ok(response) => response.code != ServFail && response.code != Refused
    case Err(e) => e == NoRecordsFound(NoError) || e == NoRecordsFound(NXDomain)
  }

  /** Anything else but a passing overload: SERVFAIL, REFUSED, a timeout or another error. */
  predicate Fails(r: Result) {
    !Works(r) && r != Err(Busy)
  }

  /** How the sends of one lookup go, and when it starts. */
  datatype Call = Call(outcome: Outcome, now: nat)

  function LogAfter(l: Log, calls: seq<Call>): Log {
    if calls == [] then l
    else
      var c := calls[|calls| - 1];
      Looked(LogAfter(l, calls[..|calls| - 1]), c.outcome, c.now)
  }

  function ResultAt(l: Log, calls: seq<Call>, i: nat): Result
    requires i < |calls|
  {
    Answered(LogAfter(l, calls[..i]), calls[i].outcome, calls[i].now)
  }

  lemma LogNext(l: Log, calls: seq<Call>, i: nat)
    requires i < |calls|
    ensures LogAfter(l, calls[..i + 1]) == Looked(LogAfter(l, calls[..i]), calls[i].outcome, calls[i].now)
  {
    assert calls[..i + 1][..i] == calls[..i];
  }

  const FRESH: Log := Log([], 0, 0, 0)

  function CallsOf(sends: seq<(nat -> Attempt, nat)>): (calls: seq<Call>)
    ensures |calls| == |sends|
    ensures forall i :: 0 <= i < |calls| ==> calls[i] == Call(Retried(sends[i].0, sends[i].1), sends[i].1)
  {
    seq(|sends|, i requires 0 <= i < |sends| => Call(Retried(sends[i].0, sends[i].1), sends[i].1))
  }

  /** A lookup as the continuation of a run that began with log `start`. */
  method LookupNext(ns: NameServer, send: nat -> Attempt, now: nat, ghost start: Log, ghost calls: seq<Call>,
                    ghost i: nat)
    returns (r: Result)
    requires ns.Valid() && i < |calls| && calls[i] == Call(Retried(send, now), now)
    requires ns.GetLog() == LogAfter(start, calls[..i])
    modifies ns
    ensures ns.Valid() && ns.GetLog() == LogAfter(start, calls[..i + 1]) && r == ResultAt(start, calls, i)
  {
    LogNext(start, calls, i);
    r := ns.Lookup(send, now);
  }

  /** Any series of lookups on a server object is such a run. */
  method LookupSeries(ns: NameServer, sends: seq<(nat -> Attempt, nat)>) returns (results: seq<Result>)
    requires ns.Valid()
    modifies ns
    ensures ns.Valid() && ns.GetLog() == LogAfter(old(ns.GetLog()), CallsOf(sends))
    ensures |results| == |sends|
    ensures forall i :: 0 <= i < |sends| ==> results[i] == ResultAt(old(ns.GetLog()), CallsOf(sends), i)
  {
    results := [];
    ghost var start, calls := ns.GetLog(), CallsOf(sends);
    for i := 0 to |sends|
      invariant ns.Valid() && ns.GetLog() == LogAfter(start, calls[..i]) && |results| == i
      invariant forall k :: 0 <= k < i ==> results[k] == ResultAt(start, calls, k)
    {
      var r := LookupNext(ns, sends[i].0, sends[i].1, start, calls, i);
      results := results + [r];
    }
    assert calls[..|sends|] == calls;
  }

  // ---------- What a result does to the breaker ----------

  lemma FailuresNext(events: seq<Event>, e: Event)
    ensures FailuresSinceReset(events + [e]) ==
              match e
              case Failed(_) => FailuresSinceReset(events) + 1
              case Overloaded => FailuresSinceReset(events)
              case Succeeded => 0
              case Probed => 0
    ensures LatestFailure(events + [e]) == if e.Failed? then Some(e.at) else LatestFailure(events)
  {
    assert (events + [e])[..|events|] == events;
  }

  /** A lookup that is sent counts with its whole time, and as a success exactly when its result shows the server at
      work; exactly then the streak starts again from zero; a failing result makes the streak longer and dates it; an
      overload does neither. */
  lemma ResultDecides(l: Log, o: Outcome, now: nat)
    requires !InCooldown(After(l.events), now)
    ensures var l' := Looked(l, o, now);
            && l'.queries == l.queries + 1 && l'.time == l.time + (o.end - now)
            && (l'.successes == l.successes + 1 <==> Works(o.result))
            && (l'.successes == l.successes <==> !Works(o.result))
            && FailuresSinceReset(l'.events) ==
                 (if Works(o.result) then 0 else FailuresSinceReset(l.events) + if Fails(o.result) then 1 else 0)
            && LatestFailure(l'.events) == if Fails(o.result) then Some(o.end) else LatestFailure(l.events)
  {
    if o.result != Err(Busy) {
      FailuresNext(l.events, Reported(o.result, o.end));
    }
  }

  // ---------- Runs ----------

  ghost predicate NeverFails(calls: seq<Call>) {
    forall i :: 0 <= i < |calls| ==> !Fails(calls[i].outcome.result)
  }

  lemma {:induction false} NoStreak(calls: seq<Call>)
    requires NeverFails(calls)
    ensures FailuresSinceReset(LogAfter(FRESH, calls).events) == 0
  {
    if calls != [] {
      var init, c := calls[..|calls| - 1], calls[|calls| - 1];
      NoStreak(init);
      var l := LogAfter(FRESH, init);
      SkippedIffRecentFailures(l.events, c.now);
      ResultDecides(l, c.outcome, c.now);
    }
  }

  /** If no result is ever a failure, whatever mix of answers, denials and overloads they are, no lookup of the run is
      skipped. */
  lemma NeverSkippedWithoutFailures(calls: seq<Call>, i: nat)
    requires NeverFails(calls) && i < |calls|
    ensures ResultAt(FRESH, calls, i) == calls[i].outcome.result
    ensures LogAfter(FRESH, calls[..i + 1]).queries == LogAfter(FRESH, calls[..i]).queries + 1
  {
    var l := LogAfter(FRESH, calls[..i]);
    NoStreak(calls[..i]);
    SkippedIffRecentFailures(l.events, calls[i].now);
    LogNext(FRESH, calls, i);
  }

  /** Three NXDOMAIN results, a second apart, do not keep the fourth lookup from being sent. */
  lemma DenialsKeepServerOpen(last: Outcome)
    ensures var d := (t: nat) => Call(Outcome(Err(NoRecordsFound(NXDomain)), 1, 0, t), t);
            var calls := [d(0), d(1 * SECOND), d(2 * SECOND), Call(last, 3 * SECOND)];
            ResultAt(FRESH, calls, 3) == last.result
  {
    var d := (t: nat) => Call(Outcome(Err(NoRecordsFound(NXDomain)), 1, 0, t), t);
    var calls := [d(0), d(1 * SECOND), d(2 * SECOND), Call(last, 3 * SECOND)];
    var first := calls[..3];
    assert first == [d(0), d(1 * SECOND), d(2 * SECOND)];
    NoStreak(first);
    SkippedIffRecentFailures(LogAfter(FRESH, first).events, 3 * SECOND);
  }

  /** Nothing but failures since the last reset, three of them: the next lookup is skipped exactly if it starts less
      than 30 s after the third. The streak is counted in 32 bits. */
  lemma ThreeFailuresSkip(l: Log, a: Call, b: Call, c: Call, now: nat)
    requires FailuresSinceReset(l.events) + 3 < U32
    requires Fails(a.outcome.result) && Fails(b.outcome.result) && Fails(c.outcome.result)
    requires !InCooldown(After(l.events), a.now)
    requires var l1 := Looked(l, a.outcome, a.now);
             && !InCooldown(After(l1.events), b.now)
             && !InCooldown(After(Looked(l1, b.outcome, b.now).events), c.now)
    ensures var l3 := Looked(Looked(Looked(l, a.outcome, a.now), b.outcome, b.now), c.outcome, c.now);
            InCooldown(After(l3.events), now) <==> now < c.outcome.end + 30 * SECOND
  {
    var l1 := Looked(l, a.outcome, a.now);
    var l2 := Looked(l1, b.outcome, b.now);
    var l3 := Looked(l2, c.outcome, c.now);
    ResultDecides(l, a.outcome, a.now);
    ResultDecides(l1, b.outcome, b.now);
    ResultDecides(l2, c.outcome, c.now);
    SkippedIffRecentFailures(l3.events, now);
  }

  /** On a new server: three failing results in a row, whenever they come, and the fourth lookup returns "no
      connections" unsent, and leaves no trace, if it starts less than 30 s after the third ended; otherwise it is
      sent. */
  lemma FourthLookup(calls: seq<Call>)
    requires |calls| == 4 && forall i :: 0 <= i < 3 ==> Fails(calls[i].outcome.result)
    ensures ResultAt(FRESH, calls, 3) ==
              if calls[3].now < calls[2].outcome.end + 30 * SECOND then Err(NoConnections) else calls[3].outcome.result
    ensures calls[3].now < calls[2].outcome.end + 30 * SECOND ==>
              LogAfter(FRESH, calls) == LogAfter(FRESH, calls[..3])
  {
    var a, b, c := calls[0], calls[1], calls[2];
    var l1 := Looked(FRESH, a.outcome, a.now);
    var l2 := Looked(l1, b.outcome, b.now);
    FirstThree(calls);
    SkippedIffRecentFailures([], a.now);
    ResultDecides(FRESH, a.outcome, a.now);
    SkippedIffRecentFailures(l1.events, b.now);
    ResultDecides(l1, b.outcome, b.now);
    SkippedIffRecentFailures(l2.events, c.now);
    ThreeFailuresSkip(FRESH, a, b, c, calls[3].now);
  }

  lemma FirstThree(calls: seq<Call>)
    requires |calls| >= 3
    ensures var l1 := Looked(FRESH, calls[0].outcome, calls[0].now);
            var l2 := Looked(l1, calls[1].outcome, calls[1].now);
            LogAfter(FRESH, calls[..3]) == Looked(l2, calls[2].outcome, calls[2].now)
  {
    LogNext(FRESH, calls, 0);
    LogNext(FRESH, calls, 1);
    LogNext(FRESH, calls, 2);
    assert calls[..0] == [];
  }

  // ---------- Sends ----------

  /** Errors that a fresh connection may cure: a request cancelled with its connection, or no buffer space. */
  predicate Transient(r: Result) {
    r == Err(Canceled) || r == Err(Io(Some(10055))) || r == Err(Io(Some(105)))
  }

  /** How a send ends when it is cut off after three seconds. */
  function CutOff(a: Attempt): (Result, nat) {
    if a.duration > 3 * SECOND then (Err(Timeout), 3 * SECOND) else (a.result, a.duration)
  }

  /** The first send decides unless its error is transient and less than eight seconds have passed; then there is a
      second one 50 ms later, and on the same terms a third and last one 100 ms after that. */
  lemma SendsInDetail(send: nat -> Attempt, now: nat)
    ensures var (r0, d0), (r1, d1), (r2, d2) := CutOff(send(0)), CutOff(send(1)), CutOff(send(2));
            var t0 := now + send(0).permitWait + d0;
            var t1 := t0 + 50 * MS + send(1).permitWait + d1;
            var t2 := t1 + 100 * MS + send(2).permitWait + d2;
            var o := Retried(send, now);
            if !Transient(r0) || t0 >= now + 8 * SECOND then o == Outcome(r0, 1, d0, t0)
            else if !Transient(r1) || t1 >= now + 8 * SECOND then o == Outcome(r1, 2, d0 + 50 * MS + d1, t1)
            else o == Outcome(r2, 3, d0 + 50 * MS + d1 + 100 * MS + d2, t2)
  {
    var deadline := now + LOOKUP_DEADLINE;
    var t1 := now + send(0).permitWait + TimeTaken(send(0)) + 50 * MS;
    var t2 := t1 + send(1).permitWait + TimeTaken(send(1)) + 100 * MS;
    assert Attempts(send, 2, 0, 200 * MS, t2, deadline).sends == 1;
    assert Attempts(send, 1, 1, 100 * MS, t1, deadline).sends <= 2;
  }

  // ---------- Groups ----------

  /** Any group no server of which has failed in the last five seconds queries at least one server. */
  lemma FiveSecondsSuffice(logs: seq<Log>, outs: seq<Outcome>, now: nat)
    requires logs != [] && |outs| == |logs|
    requires forall i :: 0 <= i < |logs| ==>
               LatestFailure(logs[i].events) == None || LatestFailure(logs[i].events).value + 5 * SECOND <= now
    ensures exists i :: 0 <= i < |logs|
              && LookedAll(HalfOpened(logs, now), outs, now)[i].queries == logs[i].queries + 1
  {
    QuietGroupReachesAServer(logs, outs, now);
  }
}
