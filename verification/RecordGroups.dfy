/** How a record list is split before it is cached: one group per (name, type, class). */
module RecordGroups {
  import opened Dns
  import opened CacheModel
  import opened CacheRuns

  datatype Group = Group(query: Query, records: seq<Record>)

  function QueryOf(r: Record): Query {
    Query(r.name, r.rtype, r.rclass)
  }

  /** The records of one group, in their original order. */
  function Members(records: seq<Record>, q: Query): seq<Record> {
    if records == [] then []
    else
      var rest, r := Members(records[..|records| - 1], q), records[|records| - 1];
      if QueryOf(r) == q then rest + [r] else rest
  }

  /** The group keys in order of first appearance. */
  function FirstQueries(records: seq<Record>): seq<Query> {
    if records == [] then []
    else
      var rest, q := FirstQueries(records[..|records| - 1]), QueryOf(records[|records| - 1]);
      if q in rest then rest else rest + [q]
  }

  ghost predicate NoRepeats(qs: seq<Query>) {
    forall i, j :: 0 <= i < j < |qs| ==> qs[i] != qs[j]
  }

  lemma {:induction false} FirstQueriesExact(records: seq<Record>)
    ensures NoRepeats(FirstQueries(records))
    ensures forall q :: q in FirstQueries(records) <==> exists i :: 0 <= i < |records| && QueryOf(records[i]) == q
  {
    if records != [] {
      var init := records[..|records| - 1];
      FirstQueriesExact(init);
      forall q
        ensures q in FirstQueries(records) <==> exists i :: 0 <= i < |records| && QueryOf(records[i]) == q
      {
        if q in FirstQueries(init) {
          var i :| 0 <= i < |init| && QueryOf(init[i]) == q;
          assert QueryOf(records[i]) == q;
        } else if exists i :: 0 <= i < |records| && QueryOf(records[i]) == q {
          var i :| 0 <= i < |records| && QueryOf(records[i]) == q;
          assert i < |init| ==> QueryOf(init[i]) == q;
        }
      }
    }
  }

  function Grouped(records: seq<Record>): (g: seq<Group>)
    ensures |g| == |FirstQueries(records)|
    ensures forall i :: 0 <= i < |g| ==>
              g[i] == Group(FirstQueries(records)[i], Members(records, FirstQueries(records)[i]))
  {
    var qs := FirstQueries(records);
    seq(|qs|, i requires 0 <= i < |qs| => Group(qs[i], Members(records, qs[i])))
  }

  function Place(groups: seq<Group>, q: Query): (i: nat)
    ensures i <= |groups|
    ensures i < |groups| ==> groups[i].query == q
    ensures forall j :: 0 <= j < i ==> groups[j].query != q
  {
    if groups == [] then 0 else if groups[0].query == q then 0 else 1 + Place(groups[1..], q)
  }

  /** One turn of the grouping fold: append to the matching group, or open a new one at the end. */
  function AddRecord(groups: seq<Group>, r: Record): seq<Group> {
    var i := Place(groups, QueryOf(r));
    if i < |groups| then groups[i := groups[i].(records := groups[i].records + [r])]
    else groups + [Group(QueryOf(r), [r])]
  }

  lemma {:induction false} NoMembers(records: seq<Record>, q: Query)
    requires q !in FirstQueries(records)
    ensures Members(records, q) == []
  {
    if records != [] {
      NoMembers(records[..|records| - 1], q);
    }
  }

  lemma PlaceOfKey(records: seq<Record>, q: Query)
    ensures var i := Place(Grouped(records), q);
            if q in FirstQueries(records) then i < |Grouped(records)| && FirstQueries(records)[i] == q
            else i == |Grouped(records)|
  {
    var g := Grouped(records);
    if q in FirstQueries(records) {
      var k :| 0 <= k < |FirstQueries(records)| && FirstQueries(records)[k] == q;
      assert g[k].query == q;
    } else {
      assert forall k :: 0 <= k < |g| ==> g[k].query in FirstQueries(records);
    }
  }

  lemma AddRecordGroups(records: seq<Record>, r: Record)
    ensures AddRecord(Grouped(records), r) == Grouped(records + [r])
  {
    var all := records + [r];
    assert all[..|all| - 1] == records;
    FirstQueriesExact(records);
    var q := QueryOf(r);
    PlaceOfKey(records, q);
    var a, b := AddRecord(Grouped(records), r), Grouped(all);
    if q !in FirstQueries(records) {
      NoMembers(records, q);
    }
    assert |a| == |b|;
    forall k | 0 <= k < |a|
      ensures a[k] == b[k]
    {
      var q' := FirstQueries(all)[k];
      assert Members(all, q') == if q == q' then Members(records, q') + [r] else Members(records, q');
    }
  }

  function Flatten(groups: seq<Group>): seq<Record> {
    if groups == [] then [] else Flatten(groups[..|groups| - 1]) + groups[|groups| - 1].records
  }

  lemma {:induction false} FlattenAdd(groups: seq<Group>, i: nat, r: Record)
    requires i < |groups|
    ensures multiset(Flatten(groups[i := groups[i].(records := groups[i].records + [r])])) ==
              multiset(Flatten(groups)) + multiset{r}
  {
    var last := |groups| - 1;
    var g' := groups[i := groups[i].(records := groups[i].records + [r])];
    if i == last {
      assert g'[..last] == groups[..last];
    } else {
      FlattenAdd(groups[..last], i, r);
      assert g'[..last] == groups[..last][i := groups[i].(records := groups[i].records + [r])];
    }
  }

  /** Grouping loses and invents nothing: the groups, end to end, are a rearrangement of the record list. */
  lemma {:induction false} GroupsArePartition(records: seq<Record>)
    ensures multiset(Flatten(Grouped(records))) == multiset(records)
  {
    if records != [] {
      var init, r := records[..|records| - 1], records[|records| - 1];
      GroupsArePartition(init);
      AddRecordGroups(init, r);
      assert records == init + [r];
      var g := Grouped(init);
      var i := Place(g, QueryOf(r));
      if i < |g| {
        FlattenAdd(g, i, r);
      } else {
        FlattenOpen(g, r);
      }
    }
  }

  lemma FlattenOpen(groups: seq<Group>, r: Record)
    ensures Flatten(groups + [Group(QueryOf(r), [r])]) == Flatten(groups) + [r]
  {
    assert (groups + [Group(QueryOf(r), [r])])[..|groups|] == groups;
  }

  predicate Strays(original: Query, records: seq<Record>) {
    exists i :: 0 <= i < |records| && QueryOf(records[i]) != original
  }

  /** The response handed back for a record list. */
  function Returned(original: Query, records: seq<Record>, group: string): Option<Response> {
    if records == [] then None
    else if original in FirstQueries(records) then Some(Answer(original, Members(records, original), group))
    else Some(Answer(original, Flatten(Grouped(records)), group))
  }

  function GroupWrites(groups: seq<Group>, group: string, now: nat): (ops: seq<Op>)
    ensures |ops| == |groups|
    ensures forall i :: 0 <= i < |ops| ==> ops[i] == Insert(groups[i].query, groups[i].records, group, now)
  {
    seq(|groups|, i requires 0 <= i < |groups| => Insert(groups[i].query, groups[i].records, group, now))
  }

  /** The cache writes, in order: the whole answer under the original query when some record strays, then each group. */
  function Writes(original: Query, records: seq<Record>, group: string, now: nat): seq<Op> {
    (if Strays(original, records) then [Insert(original, Flatten(Grouped(records)), group, now)] else [])
    + GroupWrites(Grouped(records), group, now)
  }

  function LastAfterAll(last: map<Query, Write>, ops: seq<Op>): map<Query, Write> {
    if ops == [] then last else LastAfter(LastAfterAll(last, ops[..|ops| - 1]), ops[|ops| - 1])
  }

  lemma LastAfterAppend(last: map<Query, Write>, ops: seq<Op>, op: Op)
    ensures LastAfterAll(last, ops + [op]) == LastAfter(LastAfterAll(last, ops), op)
  {
    assert (ops + [op])[..|ops|] == ops;
  }

  lemma PlaceInit(groups: seq<Group>, n: nat, q: Query)
    requires n <= |groups|
    ensures Place(groups[..n], q) == Min(Place(groups, q), n)
  {
    var i, i' := Place(groups, q), Place(groups[..n], q);
    if i' < n {
      assert groups[i'].query == q;
    }
    if i < n {
      assert groups[..n][i].query == q;
    }
  }

  /** What `q` was last written with, after the group writes: its own group if it has one. */
  ghost predicate WrittenByGroup(m: map<Query, Write>, before: map<Query, Write>, groups: seq<Group>, group: string,
                                 q: Query)
  {
    var i := Place(groups, q);
    if i < |groups| then q in m && m[q].data == Answer(q, groups[i].records, group)
    else (q in m <==> q in before) && (q in m ==> m[q] == before[q])
  }

  lemma GroupWritesLast(first: seq<Op>, groups: seq<Group>, group: string, now: nat)
    requires groups != []
    ensures var g := groups[|groups| - 1];
            first + GroupWrites(groups, group, now) ==
              (first + GroupWrites(groups[..|groups| - 1], group, now)) + [Insert(g.query, g.records, group, now)]
  {
  }

  lemma WrittenByLast(before: map<Query, Write>, m: map<Query, Write>, groups: seq<Group>, group: string, now: nat,
                      q: Query)
    requires groups != [] && WrittenByGroup(m, before, groups[..|groups| - 1], group, q)
    requires forall i, j :: 0 <= i < j < |groups| ==> groups[i].query != groups[j].query
    ensures var g := groups[|groups| - 1];
            WrittenByGroup(LastAfter(m, Insert(g.query, g.records, group, now)), before, groups, group, q)
  {
    PlaceInit(groups, |groups| - 1, q);
  }

  lemma {:induction false} LastAfterGroups(last: map<Query, Write>, first: seq<Op>, groups: seq<Group>, group: string,
                                           now: nat, q: Query)
    requires forall i, j :: 0 <= i < j < |groups| ==> groups[i].query != groups[j].query
    ensures WrittenByGroup(LastAfterAll(last, first + GroupWrites(groups, group, now)), LastAfterAll(last, first),
                           groups, group, q)
  {
    if groups == [] {
      assert first + GroupWrites(groups, group, now) == first;
    } else {
      var n := |groups| - 1;
      var init, g := groups[..n], groups[n];
      LastAfterGroups(last, first, init, group, now, q);
      var ops := first + GroupWrites(init, group, now);
      var op := Insert(g.query, g.records, group, now);
      GroupWritesLast(first, groups, group, now);
      LastAfterAppend(last, ops, op);
      WrittenByLast(LastAfterAll(last, first), LastAfterAll(last, ops), groups, group, now, q);
    }
  }

  /** After caching a record list, the last write of the original query is the response that was handed back, and
      that of every other group key is exactly that group. */
  lemma CachedIsReturned(last: map<Query, Write>, original: Query, records: seq<Record>, group: string, now: nat)
    requires records != []
    ensures var m := LastAfterAll(last, Writes(original, records, group, now));
            && original in m && Some(m[original].data) == Returned(original, records, group)
            && forall q :: q in FirstQueries(records) ==> q in m && m[q].data == Answer(q, Members(records, q), group)
  {
    FirstQueriesExact(records);
    var g := Grouped(records);
    var strays := Strays(original, records);
    var first := if strays then [Insert(original, Flatten(g), group, now)] else [];
    var m := LastAfterAll(last, Writes(original, records, group, now));
    forall q | q in FirstQueries(records)
      ensures q in m && m[q].data == Answer(q, Members(records, q), group)
    {
      LastAfterGroups(last, first, g, group, now, q);
      PlaceOfKey(records, q);
    }
    if original !in FirstQueries(records) {
      assert QueryOf(records[0]) != original;
      LastAfterGroups(last, first, g, group, now, original);
      LastAfterAppend(last, [], first[0]);
      assert first == [] + [first[0]];
      PlaceOfKey(records, original);
    }
  }

  lemma {:induction false} LastWritesConcat(ops: seq<Op>, more: seq<Op>)
    ensures LastWrites(ops + more) == LastAfterAll(LastWrites(ops), more)
  {
    if more == [] {
      assert ops + more == ops;
    } else {
      var n := |more| - 1;
      LastWritesConcat(ops, more[..n]);
      assert (ops + more)[..|ops + more| - 1] == ops + more[..n];
      assert (ops + more)[|ops + more| - 1] == more[n];
    }
  }

  /** Once a record list has been cached, at the end of any run, reading the original query yields the response that was
      handed back, and reading any group key yields its group; or nothing, if it has been evicted. */
  lemma GetAfterCaching(cfg: Config, ops: seq<Op>, original: Query, records: seq<Record>, group: string, now: nat,
                        s: State, q: Query, t: nat, served: Option<Served>, s': State)
    requires ValidConfig(cfg) && records != [] && Shaped(cfg, s)
    requires Steps(cfg, Init(cfg), ops + Writes(original, records, group, now), s)
    requires Step(cfg, s, Get(q, t, served), s') && served.Some?
    ensures q == original ==>
              Returned(original, records, group).Some?
              && SameAnswer(served.value.response, Returned(original, records, group).value, q)
    ensures q in FirstQueries(records) ==>
              SameAnswer(served.value.response, Answer(q, Members(records, q), group), q)
  {
    var writes := Writes(original, records, group, now);
    GetSeesLastWrite(cfg, ops + writes, s, q, t, served, s');
    LastWritesConcat(ops, writes);
    CachedIsReturned(LastWrites(ops), original, records, group, now);
  }
}
