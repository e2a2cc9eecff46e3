/** The three ways of picking one address answer from several upstreams, for every order in which queries and pings
    come back. */
module AnswerRace {
  import opened Dns
  import opened Positions

  /** `NoConnections` means only that a server was skipped; every other error is a verdict on the query. */
  datatype LookupError = NoConnections | Real(id: nat)

  datatype Lookup = Ok(response: Response) | Err(error: LookupError)

  function IpAddrs(answers: seq<Record>): (ips: seq<nat>)
    ensures forall ip :: ip in ips <==> exists i :: 0 <= i < |answers| && answers[i].data == Address(ip)
  {
    if answers == [] then []
    else
      var rest, d := IpAddrs(answers[1..]), answers[0].data;
      assert forall i :: 1 <= i < |answers| ==> answers[i] == answers[1..][i - 1];
      if d.Address? then [d.ip] + rest else rest
  }

  ghost predicate AddressesAt(answers: seq<Record>, idx: seq<nat>, ips: seq<nat>) {
    |ips| == |idx| && forall j :: 0 <= j < |idx| ==> idx[j] < |answers| && answers[idx[j]].data == Address(ips[j])
  }

  lemma {:induction false} IpAddrsStandAt(answers: seq<Record>, lo: nat, keep: nat -> bool)
    requires lo <= |answers| && forall i :: 0 <= i < |answers| ==> (keep(i) <==> answers[i].data.Address?)
    ensures AddressesAt(answers, PositionsFrom(lo, |answers|, keep), IpAddrs(answers[lo..]))
    decreases |answers| - lo
  {
    if lo < |answers| {
      IpAddrsStandAt(answers, lo + 1, keep);
      assert answers[lo..][1..] == answers[lo + 1..] && answers[lo..][0] == answers[lo];
      var idx, rest := PositionsFrom(lo + 1, |answers|, keep), IpAddrs(answers[lo + 1..]);
      if answers[lo].data.Address? {
        AddressFront(answers, lo, idx, rest);
      }
    }
  }

  lemma AddressFront(answers: seq<Record>, lo: nat, idx: seq<nat>, ips: seq<nat>)
    requires lo < |answers| && answers[lo].data.Address? && AddressesAt(answers, idx, ips)
    ensures AddressesAt(answers, [lo] + idx, [answers[lo].data.ip] + ips)
  {
  }

  /** The addresses are those of the address records, one for each, in order. */
  lemma IpAddrsByPosition(answers: seq<Record>) returns (idx: seq<nat>)
    ensures AddressesAt(answers, idx, IpAddrs(answers)) && Increasing(idx)
    ensures forall i :: 0 <= i < |answers| && answers[i].data.Address? ==> i in idx
    ensures |idx| == 1 <==>
              exists i :: 0 <= i < |answers| && answers[i].data.Address?
                          && forall j :: 0 <= j < |answers| && answers[j].data.Address? ==> j == i
  {
    var keep := (i: nat) => i < |answers| && answers[i].data.Address?;
    idx := PositionsFrom(0, |answers|, keep);
    IpAddrsStandAt(answers, 0, keep);
    assert answers[0..] == answers;
    PositionsExact(0, |answers|, keep);
    OneListedIff(idx, 0, |answers|, keep);
  }

  /** A query event ends the race exactly if it is an answer in which one record, and no other, carries an address. */
  lemma DecisiveAnswerIff(e: Event)
    requires e.Query?
    ensures Decisive(e) <==>
              && e.result.Ok?
              && var answers := e.result.response.answers;
                 exists i :: 0 <= i < |answers| && answers[i].data.Address?
                             && forall j :: 0 <= j < |answers| && answers[j].data.Address? ==> j == i
  {
    if e.result.Ok? {
      var idx := IpAddrsByPosition(e.result.response.answers);
    }
  }

  predicate Carries(r: Response, ip: nat) {
    ip in IpAddrs(r.answers)
  }

  datatype Strategy =
    | Direct(response: Response)
    | Selected(ip: nat, oks: seq<Response>, errs: seq<LookupError>)
    | Fallback(oks: seq<Response>, errs: seq<LookupError>)
    | Failure(error: LookupError)

  ghost predicate SomeCarries(oks: seq<Response>, ip: nat) {
    exists k :: 0 <= k < |oks| && Carries(oks[k], ip)
  }

  /** The final reply; `Panic` is the branch the code declares unreachable. */
  datatype Final = Reply(response: Response) | Fail(error: LookupError) | Panic

  /** `r` is the first record that carries the address. */
  ghost predicate FirstRecord(answers: seq<Record>, ip: nat, r: Record) {
    exists i :: 0 <= i < |answers| && answers[i] == r && r.data == Address(ip)
                && forall j :: 0 <= j < i ==> answers[j].data != Address(ip)
  }

  /** The reply is `r` with its first record for the address alone. */
  ghost predicate RepliesFrom(f: Final, r: Response, ip: nat) {
    && f.Reply? && f.response.(answers := []) == r.(answers := [])
    && |f.response.answers| == 1 && FirstRecord(r.answers, ip, f.response.answers[0])
  }

  method FindRecord(answers: seq<Record>, ip: nat) returns (r: Option<Record>)
    ensures r.Some? <==> ip in IpAddrs(answers)
    ensures r.Some? ==> FirstRecord(answers, ip, r.value)
  {
    for i := 0 to |answers|
      invariant forall j :: 0 <= j < i ==> answers[j].data != Address(ip)
    {
      if answers[i].data == Address(ip) {
        return Some(answers[i]);
      }
    }
    r := None;
  }

  method HandleStrategy(s: Strategy) returns (f: Final)
    ensures s.Direct? ==> f == Reply(s.response)
    ensures s.Failure? ==> f == Fail(s.error)
    ensures s.Fallback? ==> f == if s.oks != [] then Reply(s.oks[0])
                                 else if s.errs != [] then Fail(s.errs[0]) else Fail(NoConnections)
    ensures s.Selected? ==> (f.Panic? <==> !SomeCarries(s.oks, s.ip)) && !f.Fail?
    ensures s.Selected? && f.Reply? ==>
              exists k :: 0 <= k < |s.oks| && Carries(s.oks[k], s.ip)
                          && (forall j :: 0 <= j < k ==> !Carries(s.oks[j], s.ip))
                          && RepliesFrom(f, s.oks[k], s.ip)
  {
    match s {
      case Direct(response) => f := Reply(response);
      case Failure(error) => f := Fail(error);
      case Fallback(oks, errs) =>
        f := if oks != [] then Reply(oks[0]) else if errs != [] then Fail(errs[0]) else Fail(NoConnections);
      case Selected(ip, oks, _) =>
        for k := 0 to |oks|
          invariant forall j :: 0 <= j < k ==> !Carries(oks[j], ip)
        {
          var record := FindRecord(oks[k].answers, ip);
          if record.Some? {
            return Reply(oks[k].(answers := [record.value]));
          }
        }
        f := Panic;
    }
  }

  // ---------- The most frequent address ----------

  function AllIps(oks: seq<Response>): seq<nat> {
    if oks == [] then [] else AllIps(oks[..|oks| - 1]) + IpAddrs(oks[|oks| - 1].answers)
  }

  lemma {:induction false} AllIpsCarried(oks: seq<Response>, ip: nat)
    ensures ip in AllIps(oks) <==> SomeCarries(oks, ip)
  {
    if oks != [] {
      var k := |oks| - 1;
      AllIpsCarried(oks[..k], ip);
      if SomeCarries(oks[..k], ip) {
        var i :| 0 <= i < k && Carries(oks[..k][i], ip);
        assert Carries(oks[i], ip);
      }
      if SomeCarries(oks, ip) && !Carries(oks[k], ip) {
        var i :| 0 <= i < |oks| && Carries(oks[i], ip);
        assert Carries(oks[..k][i], ip);
      }
    }
  }

  ghost predicate MostFrequent(oks: seq<Response>, ip: nat) {
    var ips := AllIps(oks);
    ip in ips && forall x :: x in ips ==> multiset(ips)[x] <= multiset(ips)[ip]
  }

  ghost predicate Tallied(ips: seq<nat>, counts: map<nat, nat>) {
    forall ip :: (ip in counts <==> ip in ips) && (ip in counts ==> counts[ip] == multiset(ips)[ip])
  }

  lemma TalliedNext(ips: seq<nat>, counts: map<nat, nat>, ip: nat)
    requires Tallied(ips, counts)
    ensures Tallied(ips + [ip], counts[ip := if ip in counts then counts[ip] + 1 else 1])
  {
    assert multiset(ips + [ip]) == multiset(ips) + multiset{ip};
    assert ip !in ips ==> multiset(ips)[ip] == 0;
  }

  /** The counting fold. */
  method Tally(ips: seq<nat>) returns (counts: map<nat, nat>)
    ensures Tallied(ips, counts)
  {
    counts := map[];
    for i := 0 to |ips|
      invariant Tallied(ips[..i], counts)
    {
      TalliedNext(ips[..i], counts, ips[i]);
      assert ips[..i + 1] == ips[..i] + [ips[i]];
      counts := counts[ips[i] := if ips[i] in counts then counts[ips[i]] + 1 else 1];
    }
    assert ips[..|ips|] == ips;
  }

  /** The scan for a greatest count. Entries come in the iteration order of a hash map, hence in any order; of equal
      ones the last is kept. */
  method GreatestCount(counts: map<nat, nat>) returns (best: Option<nat>)
    ensures best.None? <==> counts == map[]
    ensures best.Some? ==> best.value in counts && forall ip :: ip in counts ==> counts[ip] <= counts[best.value]
  {
    best := None;
    var rest := counts.Keys;
    while rest != {}
      invariant rest <= counts.Keys
      invariant best.None? ==> rest == counts.Keys
      invariant best.Some? ==> best.value in counts
      invariant best.Some? ==> forall ip :: ip in counts && ip !in rest ==> counts[ip] <= counts[best.value]
      decreases |rest|
    {
      var ip :| ip in rest;
      if best.None? || counts[ip] >= counts[best.value] {
        best := Some(ip);
      }
      rest := rest - {ip};
    }
    assert counts.Keys == {} ==> counts == map[];
  }

  method MostFrequentIp(oks: seq<Response>) returns (r: Option<nat>)
    ensures r.None? <==> AllIps(oks) == []
    ensures r.Some? ==> SomeCarries(oks, r.value) && MostFrequent(oks, r.value)
  {
    var ips := AllIps(oks);
    var counts := Tally(ips);
    r := GreatestCount(counts);
    if r.Some? {
      AllIpsCarried(oks, r.value);
    }
    assert ips != [] ==> ips[0] in counts;
  }

  /** How both ping strategies end: the pinged address if there is one, else a most frequent one, else a fallback. */
  ghost predicate Concluded(s: Strategy, fastest: Option<nat>, oks: seq<Response>, errs: seq<LookupError>) {
    && (s.Selected? || s.Fallback?) && s.oks == oks && s.errs == errs
    && (fastest.Some? ==> s == Selected(fastest.value, oks, errs))
    && (fastest.None? && s.Selected? ==> MostFrequent(oks, s.ip))
    && (s.Fallback? <==> AllIps(oks) == [])
    && (s.Selected? ==> SomeCarries(oks, s.ip))
  }

  method Conclude(fastest: Option<nat>, oks: seq<Response>, errs: seq<LookupError>) returns (s: Strategy)
    requires fastest.Some? ==> SomeCarries(oks, fastest.value)
    ensures Concluded(s, fastest, oks, errs)
  {
    if fastest.Some? {
      AllIpsCarried(oks, fastest.value);
      return Selected(fastest.value, oks, errs);
    }
    var ip := MostFrequentIp(oks);
    s := if ip.Some? then Selected(ip.value, oks, errs) else Fallback(oks, errs);
  }

  // ---------- First ping ----------

  datatype Event = Ping(ip: Option<nat>) | Query(result: Lookup)

  /** A ping that succeeds names an address it was given: one from an earlier answer with other than one address. */
  ghost predicate PingsAreHonest(events: seq<Event>) {
    forall i :: 0 <= i < |events| && events[i].Ping? && events[i].ip.Some? ==>
      exists j :: 0 <= j < i && events[j].Query? && events[j].result.Ok?
                  && |IpAddrs(events[j].result.response.answers)| != 1
                  && Carries(events[j].result.response, events[i].ip.value)
  }

  function Oks(events: seq<Event>): seq<Response> {
    if events == [] then []
    else
      var rest, e := Oks(events[..|events| - 1]), events[|events| - 1];
      if e.Query? && e.result.Ok? then rest + [e.result.response] else rest
  }

  lemma {:induction false} OksCollect(events: seq<Event>, i: nat, j: nat)
    requires i < j <= |events| && events[i].Query? && events[i].result.Ok?
    ensures events[i].result.response in Oks(events[..j])
  {
    assert events[..j][..j - 1] == events[..j - 1];
    if i < j - 1 {
      OksCollect(events, i, j - 1);
    }
  }

  function Errs(events: seq<Event>): seq<LookupError> {
    if events == [] then []
    else
      var rest, e := Errs(events[..|events| - 1]), events[|events| - 1];
      if e.Query? && e.result.Err? then rest + [e.result.error] else rest
  }

  /** Events that end the race: any ping result, or an answer with a single address. */
  predicate Decisive(e: Event) {
    e.Ping? || (e.result.Ok? && |IpAddrs(e.result.response.answers)| == 1)
  }

  /** Where the race ends: the first decisive event, or the end of the events. */
  function FirstDecisive(events: seq<Event>): (stop: nat)
    ensures stop <= |events|
    ensures forall i :: 0 <= i < stop ==> !Decisive(events[i])
    ensures stop < |events| ==> Decisive(events[stop])
  {
    if events == [] || Decisive(events[0]) then 0 else 1 + FirstDecisive(events[1..])
  }

  lemma PingedWasAnswered(events: seq<Event>, i: nat)
    requires PingsAreHonest(events) && i < |events| && events[i].Ping? && events[i].ip.Some?
    ensures SomeCarries(Oks(events[..i]), events[i].ip.value)
  {
    var ip := events[i].ip.value;
    var j :| 0 <= j < i && events[j].Query? && events[j].result.Ok?
             && |IpAddrs(events[j].result.response.answers)| != 1
             && Carries(events[j].result.response, ip);
    OksCollect(events, j, i);
    var oks := Oks(events[..i]);
    var k :| 0 <= k < |oks| && oks[k] == events[j].result.response;
    assert Carries(oks[k], ip);
  }

  ghost predicate FirstPingOutcome(events: seq<Event>, s: Strategy) {
    var stop := FirstDecisive(events);
    if stop < |events| && events[stop].Query? then s == Direct(events[stop].result.response)
    else Concluded(s, if stop < |events| then events[stop].ip else None, Oks(events[..stop]), Errs(events[..stop]))
  }

  /** The first decisive event decides: a single-address answer is returned as it is, a ping result or the end of the
      events concludes over the answers collected until then. */
  method FirstPing(events: seq<Event>) returns (s: Strategy)
    requires PingsAreHonest(events)
    ensures FirstPingOutcome(events, s)
  {
    var oks: seq<Response> := [];
    var errs: seq<LookupError> := [];
    for i := 0 to |events|
      invariant oks == Oks(events[..i]) && errs == Errs(events[..i])
      invariant i <= FirstDecisive(events)
    {
      assert events[..i + 1][..i] == events[..i];
      match events[i] {
        case Ping(ip) =>
          if ip.Some? {
            PingedWasAnswered(events, i);
          }
          s := Conclude(ip, oks, errs);
          return;
        case Query(Ok(lookup)) =>
          if |IpAddrs(lookup.answers)| == 1 {
            return Direct(lookup);
          }
          oks := oks + [lookup];
        case Query(Err(err)) =>
          errs := errs + [err];
      }
    }
    assert events[..|events|] == events;
    s := Conclude(None, oks, errs);
  }

  // ---------- Replies by arrival ----------

  predicate IsOk(e: Event) {
    e.Query? && e.result.Ok?
  }

  predicate IsErr(e: Event) {
    e.Query? && e.result.Err?
  }

  /** Event `i` is the first of the first `n` that is an answer. */
  ghost predicate EarliestOk(events: seq<Event>, n: nat, i: nat) {
    i < n <= |events| && IsOk(events[i]) && forall j :: 0 <= j < i ==> !IsOk(events[j])
  }

  ghost predicate EarliestErr(events: seq<Event>, n: nat, i: nat) {
    i < n <= |events| && IsErr(events[i]) && forall j :: 0 <= j < i ==> !IsErr(events[j])
  }

  /** Event `i` is the first of the first `n` that is an answer carrying the address. */
  ghost predicate EarliestWith(events: seq<Event>, n: nat, ip: nat, i: nat) {
    && i < n <= |events| && IsOk(events[i]) && Carries(events[i].result.response, ip)
    && forall j :: 0 <= j < i && IsOk(events[j]) ==> !Carries(events[j].result.response, ip)
  }

  ghost predicate OkHead(events: seq<Event>, n: nat, oks: seq<Response>)
    requires n <= |events|
  {
    if oks == [] then forall j :: 0 <= j < n ==> !IsOk(events[j])
    else exists i: nat :: EarliestOk(events, n, i) && oks[0] == events[i].result.response
  }

  ghost predicate ErrHead(events: seq<Event>, n: nat, errs: seq<LookupError>)
    requires n <= |events|
  {
    if errs == [] then forall j :: 0 <= j < n ==> !IsErr(events[j])
    else exists i: nat :: EarliestErr(events, n, i) && errs[0] == events[i].result.error
  }

  lemma {:induction false} FirstOkIsEarliest(events: seq<Event>, n: nat)
    requires n <= |events|
    ensures OkHead(events, n, Oks(events[..n]))
  {
    if n > 0 {
      FirstOkIsEarliest(events, n - 1);
      assert events[..n][..n - 1] == events[..n - 1];
      var before := Oks(events[..n - 1]);
      if before != [] {
        var i: nat :| EarliestOk(events, n - 1, i) && before[0] == events[i].result.response;
        assert EarliestOk(events, n, i);
      } else if IsOk(events[n - 1]) {
        assert EarliestOk(events, n, n - 1);
      }
    }
  }

  lemma {:induction false} FirstErrIsEarliest(events: seq<Event>, n: nat)
    requires n <= |events|
    ensures ErrHead(events, n, Errs(events[..n]))
  {
    if n > 0 {
      FirstErrIsEarliest(events, n - 1);
      assert events[..n][..n - 1] == events[..n - 1];
      var before := Errs(events[..n - 1]);
      if before != [] {
        var i: nat :| EarliestErr(events, n - 1, i) && before[0] == events[i].result.error;
        assert EarliestErr(events, n, i);
      } else if IsErr(events[n - 1]) {
        assert EarliestErr(events, n, n - 1);
      }
    }
  }

  /** The first collected answer that carries the address is the first to come in that does. */
  lemma {:induction false} FirstCarrierIsEarliest(events: seq<Event>, n: nat, ip: nat, k: nat) returns (i: nat)
    requires n <= |events| && k < |Oks(events[..n])| && Carries(Oks(events[..n])[k], ip)
    requires forall j :: 0 <= j < k ==> !Carries(Oks(events[..n])[j], ip)
    ensures EarliestWith(events, n, ip, i) && events[i].result.response == Oks(events[..n])[k]
  {
    i := n - 1;
    assert events[..n][..i] == events[..i];
    var before, oks := Oks(events[..i]), Oks(events[..n]);
    assert forall j :: 0 <= j < |before| ==> before[j] == oks[j];
    if k < |before| {
      i := FirstCarrierIsEarliest(events, i, ip, k);
    } else {
      forall j | 0 <= j < i && IsOk(events[j])
        ensures !Carries(events[j].result.response, ip)
      {
        OksCollect(events, j, i);
        var m :| 0 <= m < |before| && before[m] == events[j].result.response;
        assert !Carries(oks[m], ip);
      }
    }
  }

  /** The reply to the client, by arrival. A fallback is the first answer of all, else the first error, else "no
      connections"; a selected address comes from the first answer that carries it. */
  ghost predicate ReplyByArrival(events: seq<Event>, n: nat, s: Strategy, f: Final)
    requires n <= |events|
  {
    && (s.Fallback? ==>
          || (exists i: nat :: EarliestOk(events, n, i) && f == Reply(events[i].result.response))
          || ((forall j :: 0 <= j < n ==> !IsOk(events[j]))
              && exists i: nat :: EarliestErr(events, n, i) && f == Fail(events[i].result.error))
          || ((forall j :: 0 <= j < n ==> !IsOk(events[j]) && !IsErr(events[j])) && f == Fail(NoConnections)))
    && (s.Selected? ==> exists i: nat :: EarliestWith(events, n, s.ip, i)
                                         && RepliesFrom(f, events[i].result.response, s.ip))
  }

  lemma FallbackByArrival(events: seq<Event>, n: nat, s: Strategy, f: Final)
    requires n <= |events| && s.Fallback? && s.oks == Oks(events[..n]) && s.errs == Errs(events[..n])
    requires f == if s.oks != [] then Reply(s.oks[0]) else if s.errs != [] then Fail(s.errs[0]) else Fail(NoConnections)
    ensures ReplyByArrival(events, n, s, f)
  {
    FirstOkIsEarliest(events, n);
    FirstErrIsEarliest(events, n);
  }

  lemma SelectedByArrival(events: seq<Event>, n: nat, s: Strategy, f: Final, k: nat)
    requires n <= |events| && s.Selected? && s.oks == Oks(events[..n])
    requires k < |s.oks| && Carries(s.oks[k], s.ip) && RepliesFrom(f, s.oks[k], s.ip)
    requires forall j :: 0 <= j < k ==> !Carries(s.oks[j], s.ip)
    ensures ReplyByArrival(events, n, s, f)
  {
    var i := FirstCarrierIsEarliest(events, n, s.ip, k);
  }

  /** Turning a strategy over collected results into a reply. */
  method ReplyTo(s: Strategy, ghost events: seq<Event>, ghost n: nat) returns (f: Final)
    requires n <= |events| && (s.Selected? ==> SomeCarries(s.oks, s.ip))
    requires s.Selected? || s.Fallback? ==> s.oks == Oks(events[..n]) && s.errs == Errs(events[..n])
    ensures s.Direct? ==> f == Reply(s.response)
    ensures s.Failure? ==> f == Fail(s.error)
    ensures !f.Panic? && ReplyByArrival(events, n, s, f)
  {
    f := HandleStrategy(s);
    if s.Fallback? {
      FallbackByArrival(events, n, s, f);
    } else if s.Selected? {
      ghost var k :| 0 <= k < |s.oks| && Carries(s.oks[k], s.ip)
                     && (forall j :: 0 <= j < k ==> !Carries(s.oks[j], s.ip)) && RepliesFrom(f, s.oks[k], s.ip);
      SelectedByArrival(events, n, s, f, k);
    }
  }

  /** First-ping end to end: the branch declared unreachable is not reached, and what is replied is told by the order
      of arrival. */
  method LookupFirstPing(events: seq<Event>) returns (f: Final, ghost s: Strategy)
    requires PingsAreHonest(events)
    ensures FirstPingOutcome(events, s) && !f.Panic?
    ensures s.Direct? ==> f == Reply(s.response)
    ensures ReplyByArrival(events, FirstDecisive(events), s, f)
  {
    var chosen := FirstPing(events);
    s := chosen;
    f := ReplyTo(chosen, events, FirstDecisive(events));
  }

  /** An answer that carries an address. */
  ghost predicate Useful(e: Event) {
    e.Query? && e.result.Ok? && IpAddrs(e.result.response.answers) != []
  }

  /** Pings are started only by answers with other than one address. */
  ghost predicate PingsWereStarted(events: seq<Event>) {
    forall i :: 0 <= i < |events| && events[i].Ping? ==>
      exists j :: 0 <= j < i && events[j].Query? && events[j].result.Ok?
                  && |IpAddrs(events[j].result.response.answers)| != 1
  }

  /** No answer among the first `n` events carries an address. */
  ghost predicate NoneUseful(events: seq<Event>, n: nat)
    requires n <= |events|
  {
    forall i :: 0 <= i < n ==> !Useful(events[i])
  }

  lemma NoneUsefulNext(events: seq<Event>, n: nat)
    requires n < |events|
    ensures NoneUseful(events, n + 1) <==> NoneUseful(events, n) && !Useful(events[n])
  {
  }

  ghost predicate NoAddresses(events: seq<Event>, n: nat)
    requires n <= |events|
  {
    |AllIps(Oks(events[..n]))| == 0
  }

  lemma NoAddressesNext(events: seq<Event>, n: nat)
    requires n < |events|
    ensures NoAddresses(events, n + 1) <==> NoAddresses(events, n) && !Useful(events[n])
  {
    OksNext(events, n);
    var e := events[n];
    if e.Query? && e.result.Ok? {
      AddressesNext(Oks(events[..n]), e.result.response);
    }
  }

  lemma {:induction false} NoAddressesIff(events: seq<Event>, n: nat)
    requires n <= |events|
    ensures NoAddresses(events, n) <==> NoneUseful(events, n)
  {
    if n > 0 {
      NoAddressesIff(events, n - 1);
      NoAddressesNext(events, n - 1);
      NoneUsefulNext(events, n - 1);
    } else {
      assert events[..0] == [];
    }
  }

  lemma AddressesNext(oks: seq<Response>, r: Response)
    ensures |AllIps(oks + [r])| == |AllIps(oks)| + |IpAddrs(r.answers)|
  {
    assert (oks + [r])[..|oks|] == oks;
  }

  lemma OksNext(events: seq<Event>, n: nat)
    requires n < |events|
    ensures var e := events[n];
            Oks(events[..n + 1]) ==
              if e.Query? && e.result.Ok? then Oks(events[..n]) + [e.result.response] else Oks(events[..n])
  {
    assert events[..n + 1][..n] == events[..n];
  }

  /** First-ping falls back exactly when the race ends other than by an answer and nothing before carries an address. */
  lemma FallbackIff(events: seq<Event>, s: Strategy)
    requires FirstPingOutcome(events, s)
    ensures var stop := FirstDecisive(events);
            && (s.Fallback? <==> NoneUseful(events, stop) && !(stop < |events| && events[stop].Query?))
            && (s.Fallback? && stop < |events| ==> events[stop] == Ping(None))
  {
    NoAddressesIff(events, FirstDecisive(events));
  }

  /** First-ping comes away without an address although some answer carries one, if and only if a failed ping ends the
      race before any such answer has come in. */
  lemma FirstPingLosesIff(events: seq<Event>, s: Strategy)
    requires FirstPingOutcome(events, s)
    ensures s.Fallback? && !NoneUseful(events, |events|) <==>
              var stop := FirstDecisive(events);
              && stop < |events| && events[stop] == Ping(None)
              && NoneUseful(events, stop) && !NoneUseful(events, |events|)
  {
    FallbackIff(events, s);
  }

  /** The ping that does this was started by an answer without addresses. */
  lemma StartedByEmptyAnswer(events: seq<Event>, stop: nat)
    requires PingsWereStarted(events) && stop < |events| && events[stop].Ping? && NoneUseful(events, stop)
    ensures exists j :: 0 <= j < stop && events[j].Query? && events[j].result.Ok?
                        && IpAddrs(events[j].result.response.answers) == []
  {
    var j :| 0 <= j < stop && events[j].Query? && events[j].result.Ok?
             && |IpAddrs(events[j].result.response.answers)| != 1;
    assert !Useful(events[j]);
  }

  /** Whatever else comes in, an answer without addresses followed by a failed ping is the whole outcome. */
  lemma EmptyAnswerThenPing(events: seq<Event>, s: Strategy)
    requires |events| >= 2 && events[0].Query? && events[0].result.Ok? && events[1] == Ping(None)
    requires |IpAddrs(events[0].result.response.answers)| == 0 && FirstPingOutcome(events, s)
    ensures s == Fallback([events[0].result.response], [])
  {
    StopsAtOne(events);
    PingConcludes(events, s, 1);
    FirstCollected(events);
    FallsBack(s, events[0].result.response, Oks(events[..1]), Errs(events[..1]));
  }

  lemma FirstCollected(events: seq<Event>)
    requires |events| >= 1 && events[0].Query? && events[0].result.Ok?
    ensures Oks(events[..1]) == [events[0].result.response] && Errs(events[..1]) == []
  {
    assert events[..1] == [events[0]];
    OneAnswer(events[0]);
  }

  lemma StopsAtOne(events: seq<Event>)
    requires |events| >= 2 && !Decisive(events[0]) && Decisive(events[1])
    ensures FirstDecisive(events) == 1
  {
  }

  lemma PingConcludes(events: seq<Event>, s: Strategy, stop: nat)
    requires FirstPingOutcome(events, s) && stop == FirstDecisive(events) < |events| && events[stop].Ping?
    ensures Concluded(s, events[stop].ip, Oks(events[..stop]), Errs(events[..stop]))
  {
  }

  lemma FallsBack(s: Strategy, r: Response, oks: seq<Response>, errs: seq<LookupError>)
    requires Concluded(s, None, oks, errs) && oks == [r] && errs == [] && |IpAddrs(r.answers)| == 0
    ensures s == Fallback([r], [])
  {
    NoIpsOfOne(r);
  }

  lemma NoIpsOfOne(r: Response)
    requires |IpAddrs(r.answers)| == 0
    ensures AllIps([r]) == []
  {
    var none: seq<Response> := [];
    AddressesNext(none, r);
    assert none + [r] == [r];
  }

  /** An empty answer, its failed ping, then an answer with an address: the reply is the empty answer. */
  lemma FirstPingLosesAnswer(q: Dns.Query, r: Record, s: Strategy)
    requires r.data == Address(7)
    requires var empty := Response(q, NoError, [], [], None);
             var full := Response(q, NoError, [r], [], None);
             FirstPingOutcome([Event.Query(Ok(empty)), Ping(None), Event.Query(Ok(full))], s)
    ensures s == Fallback([Response(q, NoError, [], [], None)], [])
  {
    var empty, full := Response(q, NoError, [], [], None), Response(q, NoError, [r], [], None);
    EmptyAnswerThenPing([Event.Query(Ok(empty)), Ping(None), Event.Query(Ok(full))], s);
  }

  lemma OneAnswer(e: Event)
    requires e.Query? && e.result.Ok?
    ensures Oks([e]) == [e.result.response] && Errs([e]) == []
  {
    assert [e][..0] == [];
  }

  // ---------- Fastest address ----------

  datatype PingOutput = PingOutput(ip: nat, elapsed: nat)

  datatype IpEvent = Pinged(out: Option<PingOutput>) | Answered(result: Lookup)

  function Answers(events: seq<IpEvent>): seq<Response> {
    if events == [] then []
    else
      var rest, e := Answers(events[..|events| - 1]), events[|events| - 1];
      if e.Answered? && e.result.Ok? then rest + [e.result.response] else rest
  }

  function Failures(events: seq<IpEvent>): seq<LookupError> {
    if events == [] then []
    else
      var rest, e := Failures(events[..|events| - 1]), events[|events| - 1];
      if e.Answered? && e.result.Err? then rest + [e.result.error] else rest
  }

  ghost predicate Measured(events: seq<IpEvent>, o: PingOutput) {
    Pinged(Some(o)) in events
  }

  /** A successful ping names an address of an earlier answer. */
  ghost predicate MeasuresAreHonest(events: seq<IpEvent>) {
    forall i :: 0 <= i < |events| && events[i].Pinged? && events[i].out.Some? ==>
      SomeCarries(Answers(events[..i]), events[i].out.value.ip)
  }

  ghost predicate NoRepeats(s: seq<nat>) {
    forall i, j :: 0 <= i < j < |s| ==> s[i] != s[j]
  }

  function CountOf(stats: map<nat, nat>, ip: nat): nat {
    if ip in stats then stats[ip] else 0
  }

  /** Adding one in eight bits. */
  function Bump(n: nat): nat {
    (n + 1) % 256
  }

  lemma BumpWraps(n: nat)
    ensures Bump(n % 256) == (n + 1) % 256
  {
  }

  function Counts(stats: map<nat, nat>, ips: seq<nat>): map<nat, nat> {
    if ips == [] then stats
    else
      var m, ip := Counts(stats, ips[..|ips| - 1]), ips[|ips| - 1];
      m[ip := Bump(CountOf(m, ip))]
  }

  /** The counts are the numbers of occurrences, modulo 256. */
  lemma {:induction false} CountsExact(stats: map<nat, nat>, ips: seq<nat>, ip: nat)
    requires CountOf(stats, ip) < 256
    ensures CountOf(Counts(stats, ips), ip) == (CountOf(stats, ip) + multiset(ips)[ip]) % 256
  {
    if ips != [] {
      var init, last := ips[..|ips| - 1], ips[|ips| - 1];
      CountsExact(stats, init, ip);
      assert ips == init + [last];
      var seen: multiset<nat> := multiset(init);
      BumpWraps(CountOf(stats, ip) + seen[ip]);
    }
  }

  lemma CountsNext(stats: map<nat, nat>, ips: seq<nat>, i: nat)
    requires i < |ips|
    ensures Counts(stats, ips[..i + 1]) ==
              var m := Counts(stats, ips[..i]); m[ips[i] := Bump(CountOf(m, ips[i]))]
  {
    assert ips[..i + 1][..i] == ips[..i];
  }

  /** Counts each address (in eight bits) and launches a ping for those not seen before. */
  method CountAddresses(ips: seq<nat>, stats: map<nat, nat>, pinged: seq<nat>)
    returns (stats': map<nat, nat>, pinged': seq<nat>)
    requires NoRepeats(pinged) && forall ip :: ip in stats <==> ip in pinged
    ensures NoRepeats(pinged') && forall ip :: ip in stats' <==> ip in pinged'
    ensures forall ip :: ip in pinged' <==> ip in pinged || ip in ips
    ensures stats' == Counts(stats, ips)
  {
    stats', pinged' := stats, pinged;
    for i := 0 to |ips|
      invariant NoRepeats(pinged') && forall ip :: ip in stats' <==> ip in pinged'
      invariant forall ip :: ip in pinged' <==> ip in pinged || ip in ips[..i]
      invariant stats' == Counts(stats, ips[..i])
    {
      assert ips[..i + 1] == ips[..i] + [ips[i]];
      CountsNext(stats, ips, i);
      if ips[i] !in stats' {
        pinged' := pinged' + [ips[i]];
      }
      stats' := stats'[ips[i] := Bump(CountOf(stats', ips[i]))];
    }
    assert ips[..|ips|] == ips;
  }

  lemma SomeCarriesAppend(oks: seq<Response>, r: Response, ip: nat)
    ensures SomeCarries(oks + [r], ip) <==> SomeCarries(oks, ip) || Carries(r, ip)
  {
    var all := oks + [r];
    if SomeCarries(oks, ip) {
      var k :| 0 <= k < |oks| && Carries(oks[k], ip);
      assert Carries(all[k], ip);
    }
    if Carries(r, ip) {
      assert Carries(all[|oks|], ip);
    }
  }

  /** `best` is a quickest ping among those that succeeded, if any did. */
  ghost predicate Quickest(events: seq<IpEvent>, best: Option<PingOutput>) {
    && (best.None? ==> forall o :: !Measured(events, o))
    && (best.Some? ==>
          Measured(events, best.value) && forall o :: Measured(events, o) ==> best.value.elapsed <= o.elapsed)
  }

  lemma QuickestStep(events: seq<IpEvent>, e: IpEvent, best: Option<PingOutput>)
    requires Quickest(events, best)
    ensures e.Pinged? && e.out.Some? ==>
              Quickest(events + [e], if best.None? || e.out.value.elapsed < best.value.elapsed then e.out else best)
    ensures !(e.Pinged? && e.out.Some?) ==> Quickest(events + [e], best)
  {
    assert forall o :: Measured(events + [e], o) <==> Measured(events, o) || e == Pinged(Some(o));
  }

  /** The launched pings are, once each, the addresses of the answers so far. */
  ghost predicate PingedOnce(oks: seq<Response>, stats: map<nat, nat>, pinged: seq<nat>) {
    && NoRepeats(pinged)
    && (forall ip :: ip in stats <==> ip in pinged)
    && (forall ip :: ip in pinged <==> SomeCarries(oks, ip))
  }

  method TakeAnswer(lookup: Response, oks: seq<Response>, stats: map<nat, nat>, pinged: seq<nat>)
    returns (stats': map<nat, nat>, pinged': seq<nat>)
    requires PingedOnce(oks, stats, pinged)
    ensures PingedOnce(oks + [lookup], stats', pinged')
  {
    stats', pinged' := CountAddresses(IpAddrs(lookup.answers), stats, pinged);
    forall ip {
      SomeCarriesAppend(oks, lookup, ip);
    }
  }

  /** Everything the loop has gathered from the events so far. */
  datatype Gathered = Gathered(oks: seq<Response>, errs: seq<LookupError>, stats: map<nat, nat>, pinged: seq<nat>,
                               fastest: Option<PingOutput>)

  ghost predicate GatheredFrom(events: seq<IpEvent>, g: Gathered) {
    && g.oks == Answers(events) && g.errs == Failures(events)
    && PingedOnce(g.oks, g.stats, g.pinged)
    && Quickest(events, g.fastest)
    && (g.fastest.Some? ==> SomeCarries(g.oks, g.fastest.value.ip))
  }

  /** One turn of the event loop. */
  method Gather(g: Gathered, e: IpEvent, ghost events: seq<IpEvent>) returns (g': Gathered)
    requires GatheredFrom(events, g)
    requires e.Pinged? && e.out.Some? ==> SomeCarries(Answers(events), e.out.value.ip)
    ensures GatheredFrom(events + [e], g')
  {
    assert (events + [e])[..|events|] == events;
    QuickestStep(events, e, g.fastest);
    match e {
      case Pinged(out) =>
        g' := if out.Some? && (g.fastest.None? || out.value.elapsed < g.fastest.value.elapsed)
              then g.(fastest := out) else g;
      case Answered(Ok(lookup)) =>
        var stats, pinged := TakeAnswer(lookup, g.oks, g.stats, g.pinged);
        if g.fastest.Some? {
          SomeCarriesAppend(g.oks, lookup, g.fastest.value.ip);
        }
        g' := Gathered(g.oks + [lookup], g.errs, stats, pinged, g.fastest);
      case Answered(Err(err)) =>
        g' := g.(errs := g.errs + [err]);
    }
  }

  /** Each distinct address is pinged once, and among the pings that succeed a quickest one decides. */
  method FastestIp(events: seq<IpEvent>) returns (s: Strategy, pinged: seq<nat>, ghost best: Option<PingOutput>)
    requires MeasuresAreHonest(events)
    ensures NoRepeats(pinged) && forall ip :: ip in pinged <==> SomeCarries(Answers(events), ip)
    ensures Quickest(events, best)
    ensures Concluded(s, if best.Some? then Some(best.value.ip) else None, Answers(events), Failures(events))
  {
    var g := Gathered([], [], map[], [], None);
    for i := 0 to |events|
      invariant GatheredFrom(events[..i], g)
    {
      assert events[..i + 1] == events[..i] + [events[i]];
      g := Gather(g, events[i], events[..i]);
    }
    assert events[..|events|] == events;
    pinged, best := g.pinged, g.fastest;
    s := Conclude(if g.fastest.Some? then Some(g.fastest.value.ip) else None, g.oks, g.errs);
  }

  ghost predicate FastestIpOutcome(events: seq<IpEvent>, s: Strategy) {
    exists best :: Quickest(events, best)
                   && Concluded(s, if best.Some? then Some(best.value.ip) else None, Answers(events), Failures(events))
  }

  /** The same events without the times. */
  function AsEvent(e: IpEvent): Event {
    match e
    case Pinged(out) => Ping(if out.Some? then Some(out.value.ip) else None)
    case Answered(result) => Event.Query(result)
  }

  function AsEvents(events: seq<IpEvent>): (r: seq<Event>)
    ensures |r| == |events|
  {
    seq(|events|, i requires 0 <= i < |events| => AsEvent(events[i]))
  }

  lemma {:induction false} SameResults(events: seq<IpEvent>)
    ensures Answers(events) == Oks(AsEvents(events)) && Failures(events) == Errs(AsEvents(events))
  {
    if events != [] {
      var n := |events| - 1;
      SameResults(events[..n]);
      assert AsEvents(events)[..n] == AsEvents(events[..n]);
    }
  }

  /** Fastest-address end to end: nothing unreachable is reached, and what is replied is told by the order of
      arrival. */
  method LookupFastestIp(events: seq<IpEvent>) returns (f: Final, ghost s: Strategy)
    requires MeasuresAreHonest(events)
    ensures FastestIpOutcome(events, s) && !f.Panic?
    ensures ReplyByArrival(AsEvents(events), |events|, s, f)
  {
    var chosen, _, best := FastestIp(events);
    s := chosen;
    assert Quickest(events, best);
    SameResults(events);
    assert AsEvents(events)[..|events|] == AsEvents(events);
    f := ReplyTo(chosen, AsEvents(events), |events|);
  }

  // ---------- Fastest response ----------

  /** The latest error among the results. */
  function PreviousError(results: seq<Lookup>): (r: Option<LookupError>)
    ensures r.None? <==> forall i :: 0 <= i < |results| ==> results[i].Ok?
  {
    if results == [] then None
    else if results[|results| - 1].Err? then Some(results[|results| - 1].error)
    else PreviousError(results[..|results| - 1])
  }

  lemma {:induction false} PreviousErrorIsLatest(results: seq<Lookup>) returns (i: nat)
    requires PreviousError(results).Some?
    ensures i < |results| && results[i] == Err(PreviousError(results).value)
    ensures forall j :: i < j < |results| ==> results[j].Ok?
  {
    i := |results| - 1;
    if results[i].Ok? {
      i := PreviousErrorIsLatest(results[..i]);
    }
  }

  /** Result `i` repeats the error before it, and that error is a verdict. */
  ghost predicate RepeatedError(results: seq<Lookup>, i: nat)
    requires i < |results|
  {
    results[i].Err? && !results[i].error.NoConnections? && PreviousError(results[..i]) == Some(results[i].error)
  }

  ghost predicate Usable(r: Lookup) {
    r.Ok? && r.response.code.NoError?
  }

  /** The latest answer among the results. */
  function LastOk(results: seq<Lookup>): (r: Option<Response>)
    ensures r.None? <==> forall i :: 0 <= i < |results| ==> results[i].Err?
  {
    if results == [] then None
    else if results[|results| - 1].Ok? then Some(results[|results| - 1].response)
    else LastOk(results[..|results| - 1])
  }

  lemma {:induction false} LastOkIsLatest(results: seq<Lookup>) returns (i: nat)
    requires LastOk(results).Some?
    ensures i < |results| && results[i] == Ok(LastOk(results).value)
    ensures forall j :: i < j < |results| ==> results[j].Err?
  {
    i := |results| - 1;
    if results[i].Err? {
      i := LastOkIsLatest(results[..i]);
    }
  }

  /** The race stops at `stop`: the first usable answer or repeated error, or the end. */
  ghost predicate StopsAt(results: seq<Lookup>, stop: nat) {
    && stop <= |results|
    && (forall i :: 0 <= i < stop ==> !Usable(results[i]) && !RepeatedError(results, i))
    && (stop < |results| ==> Usable(results[stop]) || RepeatedError(results, stop))
  }

  /** A usable answer ends the race at once; otherwise the latest other answer wins over any error, and an error is
      returned only when no answer of any kind came in before the race stopped. */
  method FastestResponse(results: seq<Lookup>) returns (s: Strategy, ghost stop: nat)
    ensures StopsAt(results, stop)
    ensures (exists i :: 0 <= i < |results| && Usable(results[i])
                         && forall j :: 0 <= j < i ==> !RepeatedError(results, j))
              ==> s.Direct? && s.response.code.NoError?
    ensures stop < |results| && Usable(results[stop]) ==> s == Direct(results[stop].response)
    ensures !(stop < |results| && Usable(results[stop])) ==>
              var ok := LastOk(results[..stop]);
              if ok.Some? then s == Direct(ok.value)
              else
                && s.Failure?
                && (forall i :: 0 <= i < stop ==> results[i].Err?)
                && (stop < |results| ==> s.error == results[stop].error)
                && (stop == |results| ==>
                      s.error == if results == [] then NoConnections else results[|results| - 1].error)
  {
    var lastOk: Option<Response> := None;
    var lastError: Option<LookupError> := None;
    for i := 0 to |results|
      invariant lastOk == LastOk(results[..i]) && lastError == PreviousError(results[..i])
      invariant forall j :: 0 <= j < i ==> !Usable(results[j]) && !RepeatedError(results, j)
    {
      assert results[..i + 1][..i] == results[..i];
      match results[i] {
        case Ok(response) =>
          if response.code.NoError? {
            return Direct(response), i;
          }
          lastOk := Some(response);
        case Err(err) =>
          if !err.NoConnections? && lastError == Some(err) {
            s := if lastOk.Some? then Direct(lastOk.value) else Failure(err);
            return s, i;
          }
          lastError := Some(err);
      }
    }
    assert results[..|results|] == results;
    stop := |results|;
    s := if lastOk.Some? then Direct(lastOk.value)
         else if lastError.Some? then Failure(lastError.value) else Failure(NoConnections);
  }
}
