/** The order of a cached answer, told by positions in the record list it was made from. */
module RecordOrder {
  import opened Dns
  import opened Positions
  import opened CacheRuns
  import opened RecordGroups

  /** The record has this name, type and class. */
  predicate Keyed(r: Record, q: Query) {
    r.name == q.name && r.rtype == q.qtype && r.rclass == q.qclass
  }

  predicate SameKey(a: Record, b: Record) {
    a.name == b.name && a.rtype == b.rtype && a.rclass == b.rclass
  }

  /** `part` is what stands at the positions `idx` of `records`. */
  ghost predicate PickedAt(records: seq<Record>, idx: seq<nat>, part: seq<Record>) {
    |part| == |idx| && forall j :: 0 <= j < |idx| ==> idx[j] < |records| && part[j] == records[idx[j]]
  }

  /** `idx` lists, in order, exactly the positions of the records under `q`. */
  ghost predicate PositionsOf(records: seq<Record>, q: Query, idx: seq<nat>) {
    && Increasing(idx)
    && (forall j :: 0 <= j < |idx| ==> idx[j] < |records| && Keyed(records[idx[j]], q))
    && (forall i :: 0 <= i < |records| && Keyed(records[i], q) ==> i in idx)
  }

  /** A group holds the records of its key, all of them, in their order in the list. */
  lemma {:induction false} GroupByPosition(records: seq<Record>, q: Query) returns (idx: seq<nat>)
    ensures PositionsOf(records, q, idx) && PickedAt(records, idx, Members(records, q))
  {
    idx := [];
    if records != [] {
      var n := |records| - 1;
      idx := GroupByPosition(records[..n], q);
      if Keyed(records[n], q) {
        var more := idx + [n];
        assert forall i :: i in more <==> i in idx || i == n;
        idx := more;
      }
    }
  }

  /** The first position of a record under `q`, or the length of the list. */
  function FirstAt(records: seq<Record>, q: Query): (i: nat)
    ensures i <= |records|
    ensures i < |records| ==> Keyed(records[i], q)
    ensures forall j :: 0 <= j < i ==> !Keyed(records[j], q)
  {
    if records == [] || Keyed(records[0], q) then 0
    else
      assert forall j :: 1 <= j < |records| ==> records[j] == records[1..][j - 1];
      1 + FirstAt(records[1..], q)
  }

  lemma FirstAtPrefix(records: seq<Record>, n: nat, q: Query)
    requires n <= |records|
    ensures FirstAt(records[..n], q) == Min(FirstAt(records, q), n)
  {
    var i, i' := FirstAt(records, q), FirstAt(records[..n], q);
    if i' < n {
      assert Keyed(records[i'], q);
    }
    if i < n {
      assert Keyed(records[..n][i], q);
    }
  }

  /** The groups come in the order in which their keys first appear. */
  lemma {:induction false} GroupsInOrder(records: seq<Record>, a: nat, b: nat)
    requires a < b < |FirstQueries(records)|
    ensures FirstAt(records, FirstQueries(records)[a]) < FirstAt(records, FirstQueries(records)[b]) < |records|
  {
    var n := |records| - 1;
    var init := records[..n];
    var qs, rest := FirstQueries(records), FirstQueries(init);
    FirstAtPrefix(records, n, qs[a]);
    FirstAtPrefix(records, n, qs[b]);
    FirstQueriesExact(init);
    if b < |rest| {
      GroupsInOrder(init, a, b);
    } else {
      NewKeyIsLast(records);
      KeyHasFirst(init, rest[a]);
    }
  }

  lemma KeyHasFirst(records: seq<Record>, q: Query)
    requires q in FirstQueries(records)
    ensures FirstAt(records, q) < |records|
  {
    FirstQueriesExact(records);
    var i :| 0 <= i < |records| && QueryOf(records[i]) == q;
    assert Keyed(records[i], q);
  }

  lemma NewKeyIsLast(records: seq<Record>)
    requires records != []
    requires var n := |records| - 1; QueryOf(records[n]) !in FirstQueries(records[..n])
    ensures FirstAt(records, QueryOf(records[|records| - 1])) == |records| - 1
  {
    var n := |records| - 1;
    var q := QueryOf(records[n]);
    FirstQueriesExact(records[..n]);
    var i := FirstAt(records, q);
    assert Keyed(records[n], q);
    assert i < n ==> QueryOf(records[..n][i]) == q;
  }

  // ---------- The whole answer ----------

  /** Position `a` comes before `b`: its key appeared first, or it is the same key and an earlier record. */
  ghost predicate ComesBefore(records: seq<Record>, a: nat, b: nat)
    requires a < |records| && b < |records|
  {
    var fa, fb := FirstAt(records, QueryOf(records[a])), FirstAt(records, QueryOf(records[b]));
    fa < fb || (fa == fb && a < b)
  }

  ghost predicate InAnswerOrder(records: seq<Record>, idx: seq<nat>) {
    && (forall j :: 0 <= j < |idx| ==> idx[j] < |records|)
    && forall j, k :: 0 <= j < k < |idx| ==> ComesBefore(records, idx[j], idx[k])
  }

  /** The first `n` groups end to end, by position. */
  lemma {:induction false} FlattenByPosition(records: seq<Record>, n: nat) returns (idx: seq<nat>)
    requires n <= |Grouped(records)|
    ensures PickedAt(records, idx, Flatten(Grouped(records)[..n])) && InAnswerOrder(records, idx)
    ensures forall j :: 0 <= j < |idx| ==> QueryOf(records[idx[j]]) in FirstQueries(records)[..n]
    ensures forall i :: 0 <= i < |records| && QueryOf(records[i]) in FirstQueries(records)[..n] ==> i in idx
  {
    idx := [];
    if n > 0 {
      var first := FlattenByPosition(records, n - 1);
      var q := FirstQueries(records)[n - 1];
      var more := GroupByPosition(records, q);
      FlattenNext(records, n - 1);
      idx := first + more;
      AppendPicked(records, first, Flatten(Grouped(records)[..n - 1]), more, Members(records, q));
      AppendInOrder(records, n - 1, first, more);
      AppendCovers(records, n - 1, first, more);
    }
  }

  lemma FlattenNext(records: seq<Record>, n: nat)
    requires n < |Grouped(records)|
    ensures Flatten(Grouped(records)[..n + 1]) ==
              Flatten(Grouped(records)[..n]) + Members(records, FirstQueries(records)[n])
  {
    var g := Grouped(records);
    assert g[..n + 1][..n] == g[..n];
  }

  lemma AppendPicked(records: seq<Record>, a: seq<nat>, x: seq<Record>, b: seq<nat>, y: seq<Record>)
    requires PickedAt(records, a, x) && PickedAt(records, b, y)
    ensures PickedAt(records, a + b, x + y)
  {
  }

  lemma AppendInOrder(records: seq<Record>, n: nat, first: seq<nat>, more: seq<nat>)
    requires n < |FirstQueries(records)| && InAnswerOrder(records, first)
    requires forall j :: 0 <= j < |first| ==> QueryOf(records[first[j]]) in FirstQueries(records)[..n]
    requires PositionsOf(records, FirstQueries(records)[n], more)
    ensures InAnswerOrder(records, first + more)
  {
    var qs := FirstQueries(records);
    var idx := first + more;
    forall j, k | 0 <= j < k < |idx|
      ensures ComesBefore(records, idx[j], idx[k])
    {
      if j < |first| <= k {
        var q := QueryOf(records[first[j]]);
        var a :| 0 <= a < n && qs[..n][a] == q;
        GroupsInOrder(records, a, n);
        assert QueryOf(records[idx[k]]) == qs[n];
      } else if j >= |first| {
        assert more[j - |first|] < more[k - |first|];
      } else {
        assert ComesBefore(records, first[j], first[k]);
      }
    }
  }

  lemma AppendCovers(records: seq<Record>, n: nat, first: seq<nat>, more: seq<nat>)
    requires n < |FirstQueries(records)| && PositionsOf(records, FirstQueries(records)[n], more)
    requires forall j :: 0 <= j < |first| ==> first[j] < |records|
                                              && QueryOf(records[first[j]]) in FirstQueries(records)[..n]
    requires forall i :: 0 <= i < |records| && QueryOf(records[i]) in FirstQueries(records)[..n] ==> i in first
    ensures var idx, qs := first + more, FirstQueries(records)[..n + 1];
            && (forall j :: 0 <= j < |idx| ==> QueryOf(records[idx[j]]) in qs)
            && (forall i :: 0 <= i < |records| && QueryOf(records[i]) in qs ==> i in idx)
  {
    var qs := FirstQueries(records);
    assert qs[..n + 1] == qs[..n] + [qs[n]];
    var idx := first + more;
    forall i | 0 <= i < |records| && QueryOf(records[i]) in qs[..n + 1]
      ensures i in idx
    {
      if QueryOf(records[i]) !in qs[..n] {
        assert Keyed(records[i], qs[n]);
        assert i in more;
      }
    }
    forall j | 0 <= j < |idx|
      ensures QueryOf(records[idx[j]]) in qs[..n + 1]
    {
      if j >= |first| {
        assert QueryOf(records[more[j - |first|]]) == qs[n];
      }
    }
  }

  /** What is handed back for a record list, by position: if some record is under the original query, those records, in
      order; otherwise all records, once each, keys in order of first appearance and each key's records in order. */
  lemma ReturnedByPosition(original: Query, records: seq<Record>, group: string) returns (idx: seq<nat>)
    requires records != []
    ensures var r := Returned(original, records, group);
            && r.Some? && r.value.query == original && r.value.code == NoError && r.value.group == Some(group)
            && PickedAt(records, idx, r.value.answers)
            && if exists i :: 0 <= i < |records| && Keyed(records[i], original)
               then PositionsOf(records, original, idx)
               else InAnswerOrder(records, idx) && forall i :: 0 <= i < |records| ==> i in idx
  {
    FirstQueriesExact(records);
    if original in FirstQueries(records) {
      idx := GroupByPosition(records, original);
      var i :| 0 <= i < |records| && QueryOf(records[i]) == original;
      assert Keyed(records[i], original);
    } else {
      var g := Grouped(records);
      idx := FlattenByPosition(records, |g|);
      assert g[..|g|] == g && FirstQueries(records)[..|g|] == FirstQueries(records);
      forall i | 0 <= i < |records|
        ensures !Keyed(records[i], original) && i in idx
      {
        assert QueryOf(records[i]) in FirstQueries(records);
      }
    }
  }

  /** A CNAME and the address it leads to, asked for under the alias: handed back in that order. */
  lemma AliasThenAddress(group: string)
    ensures var alias := Record("www", CNAME, 1, 60, Opaque([1]));
            var address := Record("x", A, 1, 60, Address(7));
            Returned(Query("www", A, 1), [alias, address], group) ==
              Some(Response(Query("www", A, 1), NoError, [alias, address], [], Some(group)))
  {
    var alias, address := Record("www", CNAME, 1, 60, Opaque([1])), Record("x", A, 1, 60, Address(7));
    var records, q := [alias, address], Query("www", A, 1);
    var idx := ReturnedByPosition(q, records, group);
    assert 0 in idx && 1 in idx;
    var a :| 0 <= a < |idx| && idx[a] == 0;
    var b :| 0 <= b < |idx| && idx[b] == 1;
    TwoPositions(records, idx, a, b);
    assert Returned(q, records, group).value.answers == records;
  }

  lemma TwoPositions(records: seq<Record>, idx: seq<nat>, a: nat, b: nat)
    requires |records| == 2 && !SameKey(records[0], records[1]) && InAnswerOrder(records, idx)
    requires a < |idx| && b < |idx| && idx[a] == 0 && idx[b] == 1
    ensures idx == [0, 1]
  {
    assert FirstAt(records, QueryOf(records[0])) == 0;
    assert FirstAt(records, QueryOf(records[1])) == 1;
    forall j, k | 0 <= j < k < |idx|
      ensures idx[j] < idx[k]
    {
      assert ComesBefore(records, idx[j], idx[k]);
    }
    IncreasingAtLeast(idx, a);
    IncreasingAtLeast(idx, b);
    IncreasingAtLeast(idx, |idx| - 1);
  }
}
