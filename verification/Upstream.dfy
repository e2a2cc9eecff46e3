/** One upstream server: its circuit breaker, its bounded retry loop and its statistics; and a group of servers
    racing for an answer. Times are in nanoseconds. */
module Upstream {
  import opened Dns

  const MS: nat := 1_000_000
  const QUERY_TIMEOUT: nat := 3_000 * MS
  const LOOKUP_DEADLINE: nat := 8_000 * MS
  const FAIL_THRESHOLD: nat := 3
  const COOLDOWN: nat := 30_000 * MS
  const PROBE_INTERVAL: nat := 5_000 * MS

  datatype ErrorKind =
    | Busy | NoRecordsFound(code: ResponseCode) | Canceled | Io(os: Option<int>) | Timeout | NoConnections
    | OtherError(id: nat)

  predicate IsNegativeAnswer(e: ErrorKind) {
    e.NoRecordsFound? && (e.code.NoError? || e.code.NXDomain?)
  }

  predicate IsRetryable(e: ErrorKind) {
    e.Canceled? || (e.Io? && (e.os == Some(10055) || e.os == Some(105)))
  }

  datatype Result = Ok(response: Response) | Err(error: ErrorKind)

  // ---------- The circuit breaker ----------

  datatype Breaker = Breaker(failStreak: nat, lastFailure: Option<nat>)

  /** What can happen to a breaker; a lookup that ends in `Busy` leaves it alone. */
  datatype Event = Succeeded | Failed(at: nat) | Probed | Overloaded

  function Elapsed(now: nat, t: nat): nat {
    if now >= t then now - t else 0
  }

  function React(b: Breaker, e: Event): Breaker {
    match e
    case Succeeded => b.(failStreak := 0)
    case Failed(at) => Breaker((b.failStreak + 1) % U32, Some(at))
    case Probed => b.(failStreak := 0)
    case Overloaded => b
  }

  predicate InCooldown(b: Breaker, now: nat) {
    b.failStreak >= FAIL_THRESHOLD && b.lastFailure.Some? && Elapsed(now, b.lastFailure.value) < COOLDOWN
  }

  function After(events: seq<Event>): Breaker {
    if events == [] then Breaker(0, None) else React(After(events[..|events| - 1]), events[|events| - 1])
  }

  /** Failures since the last success, negative answer or probe reset. */
  function FailuresSinceReset(events: seq<Event>): nat {
    if events == [] then 0
    else
      match events[|events| - 1]
      case Failed(_) => FailuresSinceReset(events[..|events| - 1]) + 1
      case Overloaded => FailuresSinceReset(events[..|events| - 1])
      case Succeeded => 0
      case Probed => 0
  }

  function LatestFailure(events: seq<Event>): Option<nat> {
    if events == [] then None
    else if events[|events| - 1].Failed? then Some(events[|events| - 1].at)
    else LatestFailure(events[..|events| - 1])
  }

  lemma WrapNext(n: nat)
    ensures (n % U32 + 1) % U32 == (n + 1) % U32
  {
  }

  lemma {:induction false} BreakerTracksHistory(events: seq<Event>)
    ensures After(events) == Breaker(FailuresSinceReset(events) % U32, LatestFailure(events))
    ensures FailuresSinceReset(events) > 0 ==> LatestFailure(events).Some?
  {
    if events != [] {
      var init := events[..|events| - 1];
      BreakerTracksHistory(init);
      var n := FailuresSinceReset(init);
      WrapNext(n);
    }
  }

  /** A server is skipped exactly when at least three failures (counted in 32 bits) followed its last reset and the
      latest of them is less than the cooldown ago. */
  lemma SkippedIffRecentFailures(events: seq<Event>, now: nat)
    ensures InCooldown(After(events), now) <==>
              && FailuresSinceReset(events) % U32 >= FAIL_THRESHOLD
              && LatestFailure(events).Some?
              && Elapsed(now, LatestFailure(events).value) < COOLDOWN
    ensures InCooldown(After(events), now) ==> FailuresSinceReset(events) >= FAIL_THRESHOLD
  {
    BreakerTracksHistory(events);
  }

  /** Successes, negative answers, probes and overload never open the breaker. */
  lemma {:induction false} NeverOpensWithoutFailure(events: seq<Event>, now: nat)
    requires forall i :: 0 <= i < |events| ==> !events[i].Failed?
    ensures !InCooldown(After(events), now)
  {
    NoFailures(events);
    BreakerTracksHistory(events);
  }

  lemma {:induction false} NoFailures(events: seq<Event>)
    requires forall i :: 0 <= i < |events| ==> !events[i].Failed?
    ensures FailuresSinceReset(events) == 0
  {
    if events != [] {
      NoFailures(events[..|events| - 1]);
    }
  }

  // ---------- The retry loop ----------

  /** One send: the wait for a permit, and how the send would go if it were not cut off. */
  datatype Attempt = Attempt(permitWait: nat, duration: nat, result: Result)

  function TimeTaken(a: Attempt): (t: nat)
    ensures t <= QUERY_TIMEOUT
  {
    Min(a.duration, QUERY_TIMEOUT)
  }

  function ResultOf(a: Attempt): Result {
    if a.duration > QUERY_TIMEOUT then Err(Timeout) else a.result
  }

  datatype Outcome = Outcome(result: Result, sends: nat, spent: nat, end: nat)

  predicate TryAgain(r: Result, retries: nat, now: nat, deadline: nat) {
    r.Err? && !r.error.Busy? && IsRetryable(r.error) && retries > 0 && now < deadline
  }

  /** The attempts from number `i` on; `spent` counts send and backoff time. */
  function Attempts(send: nat -> Attempt, i: nat, retries: nat, backoff: nat, now: nat, deadline: nat): (o: Outcome)
    decreases retries
  {
    var a := send(i);
    var t := now + a.permitWait + TimeTaken(a);
    if TryAgain(ResultOf(a), retries, t, deadline) then
      var rest := Attempts(send, i + 1, retries - 1, Min(backoff * 2, 1000 * MS), t + backoff, deadline);
      Outcome(rest.result, rest.sends + 1, TimeTaken(a) + backoff + rest.spent, rest.end)
    else
      Outcome(ResultOf(a), 1, TimeTaken(a), t)
  }

  lemma {:induction false} AttemptsEnd(send: nat -> Attempt, i: nat, retries: nat, backoff: nat, now: nat,
                                       deadline: nat)
    ensures var o := Attempts(send, i, retries, backoff, now, deadline);
            && 1 <= o.sends <= retries + 1
            && o.result == ResultOf(send(i + o.sends - 1))
            && (forall k :: i <= k < i + o.sends - 1 ==> ResultOf(send(k)).Err? && IsRetryable(ResultOf(send(k)).error))
            && (o.result.Err? && IsRetryable(o.result.error) ==> o.sends == retries + 1 || o.end >= deadline)
    decreases retries
  {
    var a := send(i);
    var t := now + a.permitWait + TimeTaken(a);
    if TryAgain(ResultOf(a), retries, t, deadline) {
      AttemptsEnd(send, i + 1, retries - 1, Min(backoff * 2, 1000 * MS), t + backoff, deadline);
    }
  }

  function Retried(send: nat -> Attempt, now: nat): Outcome {
    Attempts(send, 0, 2, 50 * MS, now, now + LOOKUP_DEADLINE)
  }

  /** Whatever the sends do: at most three of them, at most 9150 ms in sends and backoff, every send but the last met a
      retryable error, and a retryable error is the final word only after three sends or past the deadline. */
  lemma RetryIsBounded(send: nat -> Attempt, now: nat)
    ensures var o := Retried(send, now);
            && 1 <= o.sends <= 3
            && o.spent <= 9150 * MS
            && o.result == ResultOf(send(o.sends - 1))
            && (forall k :: 0 <= k < o.sends - 1 ==> ResultOf(send(k)).Err? && IsRetryable(ResultOf(send(k)).error))
            && (o.result.Err? && IsRetryable(o.result.error) ==> o.sends == 3 || o.end >= now + LOOKUP_DEADLINE)
  {
    AttemptsEnd(send, 0, 2, 50 * MS, now, now + LOOKUP_DEADLINE);
    SpentBound(send, now);
  }

  lemma SpentBound(send: nat -> Attempt, now: nat)
    ensures Retried(send, now).spent <= 9150 * MS
  {
    var deadline := now + LOOKUP_DEADLINE;
    var t1 := now + send(0).permitWait + TimeTaken(send(0)) + 50 * MS;
    var t2 := t1 + send(1).permitWait + TimeTaken(send(1)) + 100 * MS;
    assert Attempts(send, 2, 0, 200 * MS, t2, deadline).spent <= QUERY_TIMEOUT;
    assert Attempts(send, 1, 1, 100 * MS, t1, deadline).spent <= 2 * QUERY_TIMEOUT + 100 * MS;
  }

  // ---------- One server ----------

  /** What a finished lookup tells the breaker. */
  function Reported(r: Result, at: nat): Event {
    match r
    case Ok(response) => if response.code.ServFail? || response.code.Refused? then Failed(at) else Succeeded
    case Err(e) => if e.Busy? then Overloaded else if IsNegativeAnswer(e) then Succeeded else Failed(at)
  }

  predicate CountsAsSuccess(r: Result) {
    match r
    case Ok(response) => !response.code.ServFail? && !response.code.Refused?
    case Err(e) => IsNegativeAnswer(e)
  }

  /** A server's breaker history and statistics. */
  datatype Log = Log(events: seq<Event>, queries: nat, successes: nat, time: int)

  /** What a lookup at `now` returns, `o` being how its sends go. */
  function Answered(l: Log, o: Outcome, now: nat): Result {
    if InCooldown(After(l.events), now) then Err(NoConnections) else o.result
  }

  /** What it leaves in the log: nothing if the server is skipped, otherwise one query, its outcome, its time, and what
      the breaker has to know. */
  function Looked(l: Log, o: Outcome, now: nat): Log {
    if InCooldown(After(l.events), now) then l
    else
      Log(if o.result == Err(Busy) then l.events else l.events + [Reported(o.result, o.end)], l.queries + 1,
          l.successes + (if CountsAsSuccess(o.result) then 1 else 0), l.time + (o.end - now))
  }

  class NameServer {
    var failStreak: nat
    var lastFailure: Option<nat>
    var queryCount: nat
    var successCount: nat
    var failureCount: nat
    var totalTime: nat
    /** Everything the breaker has seen. */
    ghost var events: seq<Event>

    ghost predicate Valid()
      reads this
    {
      && Breaker(failStreak, lastFailure) == After(events)
      && queryCount == successCount + failureCount
    }

    ghost function GetLog(): Log
      reads this
    {
      Log(events, queryCount, successCount, totalTime)
    }

    ghost predicate Cooling(now: nat)
      reads this
    {
      InCooldown(After(events), now)
    }

    constructor ()
      ensures Valid() && GetLog() == Log([], 0, 0, 0)
    {
      failStreak, lastFailure := 0, None;
      queryCount, successCount, failureCount, totalTime := 0, 0, 0, 0;
      events := [];
    }

    method IsFailing(now: nat) returns (r: bool)
      requires Valid()
      ensures r <==> Cooling(now)
    {
      if failStreak < FAIL_THRESHOLD {
        return false;
      }
      r := lastFailure.Some? && Elapsed(now, lastFailure.value) < COOLDOWN;
    }

    method RecordSuccess()
      requires Valid()
      modifies `failStreak, `events
      ensures Valid() && events == old(events) + [Succeeded]
    {
      ghost var was := After(events);
      ExtendHistory(events, Succeeded);
      failStreak := 0;
      events := events + [Succeeded];
      assert React(was, Succeeded) == Breaker(failStreak, lastFailure);
    }

    method RecordFailure(now: nat)
      requires Valid()
      modifies `failStreak, `lastFailure, `events
      ensures Valid() && events == old(events) + [Failed(now)]
    {
      failStreak := (failStreak + 1) % U32;
      lastFailure := Some(now);
      ExtendHistory(events, Failed(now));
      events := events + [Failed(now)];
    }

    method AllowProbe()
      requires Valid()
      modifies `failStreak, `events
      ensures Valid() && events == old(events) + [Probed]
    {
      ghost var was := After(events);
      ExtendHistory(events, Probed);
      failStreak := 0;
      events := events + [Probed];
      assert React(was, Probed) == Breaker(failStreak, lastFailure);
    }

    method RecordTime(success: bool, took: nat)
      requires Valid()
      modifies `queryCount, `successCount, `failureCount, `totalTime
      ensures Valid() && queryCount == old(queryCount) + 1 && totalTime == old(totalTime) + took
      ensures successCount == old(successCount) + if success then 1 else 0
    {
      queryCount := queryCount + 1;
      if success {
        successCount := successCount + 1;
      } else {
        failureCount := failureCount + 1;
      }
      totalTime := totalTime + took;
    }

    /** The loop of sends, without the bookkeeping. */
    method SendWithRetries(send: nat -> Attempt, now: nat) returns (res: Result, end: nat)
      ensures res == Retried(send, now).result && end == Retried(send, now).end
    {
      var retries: nat, backoff: nat := 2, 50 * MS;
      var deadline := now + LOOKUP_DEADLINE;
      var i: nat, clock: nat := 0, now;
      ghost var o := Retried(send, now);
      while true
        invariant Attempts(send, i, retries, backoff, clock, deadline).result == o.result
        invariant Attempts(send, i, retries, backoff, clock, deadline).end == o.end
        decreases retries
      {
        var a := send(i);
        clock := clock + a.permitWait + TimeTaken(a);
        res := ResultOf(a);
        if !TryAgain(res, retries, clock, deadline) {
          return res, clock;
        }
        retries := retries - 1;
        clock := clock + backoff;
        backoff := Min(backoff * 2, 1000 * MS);
        i := i + 1;
      }
    }

    /** Tells the breaker what a final result means. */
    method Tell(res: Result, end: nat)
      requires Valid()
      modifies `failStreak, `lastFailure, `events
      ensures Valid() && events == if res == Err(Busy) then old(events) else old(events) + [Reported(res, end)]
    {
      match Reported(res, end) {
        case Failed(_) => RecordFailure(end);
        case Succeeded => RecordSuccess();
        case Overloaded =>
      }
    }

    /** The bookkeeping of a lookup that was not skipped. */
    method Conclude(res: Result, end: nat, now: nat, ghost o: Outcome)
      requires Valid() && !Cooling(now) && now <= end && res == o.result && end == o.end
      modifies this
      ensures Valid() && GetLog() == Looked(old(GetLog()), o, now)
    {
      Tell(res, end);
      RecordTime(CountsAsSuccess(res), end - now);
    }

    /** A lookup is skipped and leaves no trace, or records exactly one success or failure. */
    method Lookup(send: nat -> Attempt, now: nat) returns (r: Result)
      requires Valid()
      modifies this
      ensures Valid() && GetLog() == Looked(old(GetLog()), Retried(send, now), now)
      ensures r == Answered(old(GetLog()), Retried(send, now), now)
    {
      var skip := IsFailing(now);
      if skip {
        return Err(NoConnections);
      }
      var end;
      r, end := SendWithRetries(send, now);
      EndIsLater(send, 0, 2, 50 * MS, now, now + LOOKUP_DEADLINE);
      Conclude(r, end, now, Retried(send, now));
    }
  }

  lemma ExtendHistory(events: seq<Event>, e: Event)
    ensures After(events + [e]) == React(After(events), e)
  {
    assert (events + [e])[..|events|] == events;
  }

  lemma {:induction false} EndIsLater(send: nat -> Attempt, i: nat, retries: nat, backoff: nat, now: nat, deadline: nat)
    ensures Attempts(send, i, retries, backoff, now, deadline).end >= now
    decreases retries
  {
    var a := send(i);
    var t := now + a.permitWait + TimeTaken(a);
    if TryAgain(ResultOf(a), retries, t, deadline) {
      EndIsLater(send, i + 1, retries - 1, Min(backoff * 2, 1000 * MS), t + backoff, deadline);
    }
  }

  // ---------- A group of servers ----------

  predicate HasRecords(r: Result) {
    r.Ok? && r.response.answers != []
  }

  /** The race: the first arrival with records wins; failing that, the last arrival. */
  method Race(arrivals: seq<Result>) returns (r: Result)
    ensures arrivals == [] ==> r == Err(NoConnections)
    ensures arrivals != [] ==> r in arrivals
    ensures HasRecords(r) <==> exists i :: 0 <= i < |arrivals| && HasRecords(arrivals[i])
    ensures HasRecords(r) ==> exists i :: 0 <= i < |arrivals| && r == arrivals[i]
                                          && forall j :: 0 <= j < i ==> !HasRecords(arrivals[j])
    ensures !HasRecords(r) && arrivals != [] ==> r == arrivals[|arrivals| - 1]
  {
    var received := 0;
    while received < |arrivals|
      invariant 0 <= received <= |arrivals|
      invariant arrivals != [] ==> received < |arrivals|
      invariant forall j :: 0 <= j < received ==> !HasRecords(arrivals[j])
      decreases |arrivals| - received
    {
      var res := arrivals[received];
      received := received + 1;
      if HasRecords(res) || received == |arrivals| {
        return res;
      }
    }
    r := Err(NoConnections);
  }

  /** `order` says in which order the servers' results come in. */
  ghost predicate ArrivalOrder(order: seq<nat>, n: nat) {
    && |order| == n
    && (forall i :: 0 <= i < n ==> order[i] < n)
    && (forall i :: 0 <= i < n ==> i in order)
  }

  /** The results in order of arrival: the same results, so the same question whether any has records. */
  lemma ArrivalsHaveSameRecords(results: seq<Result>, order: seq<nat>, arrivals: seq<Result>)
    requires ArrivalOrder(order, |results|) && |arrivals| == |results|
    requires forall k :: 0 <= k < |arrivals| ==> arrivals[k] == results[order[k]]
    ensures (exists k :: 0 <= k < |arrivals| && HasRecords(arrivals[k])) <==>
              exists i :: 0 <= i < |results| && HasRecords(results[i])
  {
    if i :| 0 <= i < |results| && HasRecords(results[i]) {
      assert i in order;
      var k :| 0 <= k < |order| && order[k] == i;
      assert HasRecords(arrivals[k]);
    }
  }

  function MaybeProbed(l: Log, due: bool): Log {
    if due then l.(events := l.events + [Probed]) else l
  }

  function ProbedAll(logs: seq<Log>, due: bool): (r: seq<Log>)
    ensures |r| == |logs| && forall i :: 0 <= i < |r| ==> r[i] == MaybeProbed(logs[i], due)
  {
    seq(|logs|, i requires 0 <= i < |logs| => MaybeProbed(logs[i], due))
  }

  function RetriedAll(sends: seq<nat -> Attempt>, now: nat): (outs: seq<Outcome>)
    ensures |outs| == |sends| && forall i :: 0 <= i < |outs| ==> outs[i] == Retried(sends[i], now)
  {
    seq(|sends|, i requires 0 <= i < |sends| => Retried(sends[i], now))
  }

  function AnsweredAll(logs: seq<Log>, outs: seq<Outcome>, now: nat): (r: seq<Result>)
    requires |logs| == |outs|
    ensures |r| == |logs| && forall i :: 0 <= i < |r| ==> r[i] == Answered(logs[i], outs[i], now)
  {
    seq(|logs|, i requires 0 <= i < |logs| => Answered(logs[i], outs[i], now))
  }

  function LookedAll(logs: seq<Log>, outs: seq<Outcome>, now: nat): (r: seq<Log>)
    requires |logs| == |outs|
    ensures |r| == |logs| && forall i :: 0 <= i < |r| ==> r[i] == Looked(logs[i], outs[i], now)
  {
    seq(|logs|, i requires 0 <= i < |logs| => Looked(logs[i], outs[i], now))
  }

  ghost predicate AllCooling(logs: seq<Log>, now: nat) {
    forall i :: 0 <= i < |logs| ==> InCooldown(After(logs[i].events), now)
  }

  /** No server of the group has failed within the probe interval. */
  ghost predicate Quiet(logs: seq<Log>, now: nat) {
    forall i :: 0 <= i < |logs| ==>
      var t := LatestFailure(logs[i].events); t.Some? ==> Elapsed(now, t.value) >= PROBE_INTERVAL
  }

  ghost predicate ProbeDue(logs: seq<Log>, now: nat) {
    logs != [] && AllCooling(logs, now) && Quiet(logs, now)
  }

  /** The state of a group once its half-open rule has been applied. */
  ghost function HalfOpened(logs: seq<Log>, now: nat): seq<Log> {
    ProbedAll(logs, ProbeDue(logs, now))
  }

  /** Half-open: after the rule, the whole group is skipped exactly when all servers were cooling and one of them failed
      within the last five seconds. */
  lemma SkippedAsAWholeIff(logs: seq<Log>, now: nat)
    requires logs != []
    ensures AllCooling(HalfOpened(logs, now), now) <==> AllCooling(logs, now) && !Quiet(logs, now)
  {
    var due := ProbeDue(logs, now);
    ExtendHistory(logs[0].events, Probed);
    if !due {
      assert HalfOpened(logs, now) == logs;
    }
  }

  /** Any group quiet for five seconds queries at least one server, which then has one more query on record. */
  lemma QuietGroupReachesAServer(logs: seq<Log>, outs: seq<Outcome>, now: nat)
    requires logs != [] && |outs| == |logs| && Quiet(logs, now)
    ensures exists i :: 0 <= i < |logs|
              && LookedAll(HalfOpened(logs, now), outs, now)[i].queries == logs[i].queries + 1
  {
    SkippedAsAWholeIff(logs, now);
    var half := HalfOpened(logs, now);
    var i :| 0 <= i < |half| && !InCooldown(After(half[i].events), now);
    assert LookedAll(half, outs, now)[i] == Looked(half[i], outs[i], now);
  }

  class NameServerGroup {
    const servers: seq<NameServer>

    constructor (servers: seq<NameServer>)
      ensures this.servers == servers
    {
      this.servers := servers;
    }

    /** The servers are distinct and consistent, and `logs` is what they have on record. */
    ghost predicate Holds(logs: seq<Log>)
      reads servers
    {
      && |logs| == |servers|
      && (forall i, j :: 0 <= i < j < |servers| ==> servers[i] != servers[j])
      && (forall i :: 0 <= i < |servers| ==> servers[i].Valid() && servers[i].GetLog() == logs[i])
    }

    method CheckProbe(now: nat, ghost logs: seq<Log>) returns (due: bool)
      requires Holds(logs)
      ensures due <==> ProbeDue(logs, now)
    {
      if servers == [] {
        return false;
      }
      for i := 0 to |servers|
        invariant forall k :: 0 <= k < i ==> InCooldown(After(logs[k].events), now)
      {
        var failing := servers[i].IsFailing(now);
        if !failing {
          return false;
        }
      }
      for i := 0 to |servers|
        invariant forall k :: 0 <= k < i ==>
          var t := LatestFailure(logs[k].events); t.Some? ==> Elapsed(now, t.value) >= PROBE_INTERVAL
      {
        BreakerTracksHistory(logs[i].events);
        var t := servers[i].lastFailure;
        if t.Some? && Elapsed(now, t.value) < PROBE_INTERVAL {
          return false;
        }
      }
      due := true;
    }

    /** When every server is cooling and none failed in the last five seconds, all are let through once. */
    method AllowProbeIfAllCooling(now: nat, ghost logs: seq<Log>)
      requires Holds(logs)
      modifies servers
      ensures Holds(HalfOpened(logs, now))
    {
      var due := CheckProbe(now, logs);
      ghost var cur := logs;
      if due {
        for i := 0 to |servers|
          invariant |cur| == |logs| && Holds(cur)
          invariant forall k :: 0 <= k < |cur| ==> cur[k] == MaybeProbed(logs[k], k < i)
        {
          servers[i].AllowProbe();
          cur := cur[i := MaybeProbed(cur[i], true)];
        }
      }
      assert cur == HalfOpened(logs, now);
    }

    /** Runs every server's lookup; one server's lookup does not touch another. */
    method LookupAll(sends: seq<nat -> Attempt>, now: nat, ghost logs: seq<Log>) returns (results: seq<Result>)
      requires Holds(logs) && |sends| == |servers|
      modifies servers
      ensures Holds(LookedAll(logs, RetriedAll(sends, now), now))
      ensures results == AnsweredAll(logs, RetriedAll(sends, now), now)
    {
      results := [];
      ghost var cur := logs;
      ghost var outs := RetriedAll(sends, now);
      for i := 0 to |servers|
        invariant |cur| == |logs| && Holds(cur) && |results| == i
        invariant forall k :: 0 <= k < |cur| ==> cur[k] == if k < i then Looked(logs[k], outs[k], now) else logs[k]
        invariant forall k :: 0 <= k < i ==> results[k] == Answered(logs[k], outs[k], now)
      {
        var r := servers[i].Lookup(sends[i], now);
        results := results + [r];
        cur := cur[i := Looked(cur[i], outs[i], now)];
      }
      assert cur == LookedAll(logs, outs, now);
    }

    /** The group answers with records exactly when some server that was let through got an answer with records, in
        whatever order the results arrive. */
    method Lookup(sends: seq<nat -> Attempt>, order: seq<nat>, now: nat, ghost logs: seq<Log>) returns (r: Result)
      requires Holds(logs) && |sends| == |servers| && ArrivalOrder(order, |servers|)
      modifies servers
      ensures var half, outs := HalfOpened(logs, now), RetriedAll(sends, now);
              && Holds(LookedAll(half, outs, now))
              && (r.Ok? && r.response.answers != [] <==>
                    exists i :: 0 <= i < |servers| && AnsweredAll(half, outs, now)[i].Ok?
                                && AnsweredAll(half, outs, now)[i].response.answers != [])
              && (if servers == [] then r == Err(NoConnections) else r in AnsweredAll(half, outs, now))
    {
      if servers == [] {
        return Err(NoConnections);
      }
      AllowProbeIfAllCooling(now, logs);
      var results := LookupAll(sends, now, HalfOpened(logs, now));
      r := RaceInOrder(results, order);
    }
  }

  /** The race over results that come in in the given order. */
  method RaceInOrder(results: seq<Result>, order: seq<nat>) returns (r: Result)
    requires ArrivalOrder(order, |results|) && results != []
    ensures r in results
    ensures HasRecords(r) <==> exists i :: 0 <= i < |results| && HasRecords(results[i])
  {
    var arrivals := seq(|results|, k requires 0 <= k < |results| => results[order[k]]);
    r := Race(arrivals);
    ArrivalsHaveSameRecords(results, order, arrivals);
  }
}
