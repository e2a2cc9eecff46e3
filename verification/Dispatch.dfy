/** The request dispatch loop: how queries are counted, refused, batched, spawned and reaped. Each loop turn runs to
    completion; tasks make progress between turns. */
module Dispatch {

  const BACKGROUND_PERMITS: nat := 4
  const FOREGROUND_PERMITS: nat := 64

  datatype Request = Request(id: nat, background: bool)

  predicate ShouldRefuse(limit: nat, background: bool, active: int) {
    limit > 0 && !background && active > limit
  }

  // ---------- The refusal pass ----------

  /** Where the requests of one batch go, newest first. */
  datatype Sorted = Sorted(refused: seq<Request>, foreground: seq<Request>, background: seq<Request>)

  /** Requests are taken from the end of the batch; each refusal gives back one active query. */
  function Pass(rs: seq<Request>, active: int, limit: nat): Sorted {
    if rs == [] then Sorted([], [], [])
    else
      var init, r := rs[..|rs| - 1], rs[|rs| - 1];
      if ShouldRefuse(limit, r.background, active) then
        var p := Pass(init, active - 1, limit);
        p.(refused := [r] + p.refused)
      else
        var p := Pass(init, active, limit);
        if r.background then p.(background := [r] + p.background) else p.(foreground := [r] + p.foreground)
  }

  /** The requests of one kind, newest first. */
  function NewestFirst(rs: seq<Request>, background: bool): seq<Request> {
    if rs == [] then []
    else
      var rest, r := NewestFirst(rs[..|rs| - 1], background), rs[|rs| - 1];
      if r.background == background then [r] + rest else rest
  }

  function Smaller(a: int, b: int): int {
    if a <= b then a else b
  }

  /** The pass refuses exactly as many foreground queries as the excess over the limit, or all of them if that is not
      enough; it refuses the newest ones, and every other request keeps its place in its own batch. */
  lemma {:induction false} PassExact(rs: seq<Request>, active: int, limit: nat)
    ensures var p, fg := Pass(rs, active, limit), NewestFirst(rs, false);
            var k := if limit == 0 || active <= limit then 0 else Smaller(active - limit, |fg|);
            && |p.refused| == k
            && p.refused == fg[..k] && p.foreground == fg[k..]
            && p.background == NewestFirst(rs, true)
            && (limit > 0 ==> active - k <= limit || p.foreground == [])
  {
    if rs != [] {
      var init, r := rs[..|rs| - 1], rs[|rs| - 1];
      PassExact(init, if ShouldRefuse(limit, r.background, active) then active - 1 else active, limit);
    }
  }

  /** `idx` runs downwards through positions of requests of one kind. */
  ghost predicate Downwards(rs: seq<Request>, background: bool, idx: seq<nat>) {
    && (forall k :: 0 <= k < |idx| ==> idx[k] < |rs| && rs[idx[k]].background == background)
    && (forall k, l :: 0 <= k < l < |idx| ==> idx[l] < idx[k])
  }

  /** `idx` has the positions of all requests of one kind. */
  ghost predicate Covers(rs: seq<Request>, background: bool, idx: seq<nat>) {
    forall i :: 0 <= i < |rs| && rs[i].background == background ==> i in idx
  }

  ghost predicate ReadAt(rs: seq<Request>, idx: seq<nat>, out: seq<Request>) {
    |out| == |idx| && forall k :: 0 <= k < |idx| ==> idx[k] < |rs| && out[k] == rs[idx[k]]
  }

  /** The requests of one kind, newest first, by position. */
  lemma {:induction false} NewestByPosition(rs: seq<Request>, background: bool) returns (idx: seq<nat>)
    ensures Downwards(rs, background, idx) && Covers(rs, background, idx)
    ensures ReadAt(rs, idx, NewestFirst(rs, background))
  {
    idx := [];
    if rs != [] {
      var n := |rs| - 1;
      idx := NewestByPosition(rs[..n], background);
      DownwardsNext(rs, background, idx);
      CoversNext(rs, background, idx);
      ReadAtNext(rs, idx, NewestFirst(rs[..n], background));
      if rs[n].background == background {
        idx := [n] + idx;
      }
    }
  }

  lemma DownwardsNext(rs: seq<Request>, background: bool, idx: seq<nat>)
    requires rs != [] && Downwards(rs[..|rs| - 1], background, idx)
    ensures Downwards(rs, background, if rs[|rs| - 1].background == background then [|rs| - 1] + idx else idx)
  {
    var n := |rs| - 1;
    forall k | 0 <= k < |idx|
      ensures idx[k] < n && rs[idx[k]].background == background
    {
      assert rs[..n][idx[k]] == rs[idx[k]];
    }
    if rs[n].background == background {
      var more := [n] + idx;
      forall k | 0 <= k < |more|
        ensures more[k] < |rs| && rs[more[k]].background == background
      {
        assert k > 0 ==> more[k] == idx[k - 1];
      }
      forall k, l | 0 <= k < l < |more|
        ensures more[l] < more[k]
      {
        assert more[l] == idx[l - 1];
        assert k > 0 ==> more[k] == idx[k - 1];
      }
    }
  }

  lemma CoversNext(rs: seq<Request>, background: bool, idx: seq<nat>)
    requires rs != [] && Covers(rs[..|rs| - 1], background, idx)
    ensures Covers(rs, background, if rs[|rs| - 1].background == background then [|rs| - 1] + idx else idx)
  {
    var n := |rs| - 1;
    var more := if rs[n].background == background then [n] + idx else idx;
    assert more == idx || more[1..] == idx;
    forall i | 0 <= i < |rs| && rs[i].background == background
      ensures i in more
    {
      if i == n {
        assert more[0] == n;
      } else {
        assert rs[..n][i] == rs[i];
        assert i in idx;
      }
    }
  }

  lemma ReadAtNext(rs: seq<Request>, idx: seq<nat>, out: seq<Request>)
    requires rs != [] && ReadAt(rs[..|rs| - 1], idx, out)
    ensures ReadAt(rs, idx, out) && ReadAt(rs, [|rs| - 1] + idx, [rs[|rs| - 1]] + out)
  {
  }

  lemma {:induction false} KindsSplit(rs: seq<Request>)
    ensures |NewestFirst(rs, true)| + |NewestFirst(rs, false)| == |rs|
  {
    if rs != [] {
      KindsSplit(rs[..|rs| - 1]);
    }
  }

  lemma PassCounts(rs: seq<Request>, active: int, limit: nat)
    ensures var p := Pass(rs, active, limit);
            && |p.refused| + |p.foreground| == |NewestFirst(rs, false)| && |p.background| == |NewestFirst(rs, true)|
            && |p.refused| + |p.foreground| + |p.background| == |rs|
            && (limit > 0 && p.foreground != [] ==> active - |p.refused| <= limit)
  {
    PassExact(rs, active, limit);
    KindsSplit(rs);
  }

  /** What `lost` queries that stay in the active count do to a batch: from the limit on, every foreground query is
      refused; below it, with nothing else active, a query on its own gets through. */
  lemma LockoutIff(rs: seq<Request>, active: int, limit: nat, lost: nat)
    requires active >= lost + |rs|
    ensures limit > 0 && lost >= limit ==>
              Pass(rs, active, limit).refused == NewestFirst(rs, false) && Pass(rs, active, limit).foreground == []
    ensures |rs| == 1 && !rs[0].background && active == lost + 1 ==>
              (Pass(rs, active, limit).refused == [] <==> limit == 0 || lost < limit)
  {
    KindsSplit(rs);
    PassExact(rs, active, limit);
    if |rs| == 1 && !rs[0].background {
      assert rs[..0] == [];
      assert NewestFirst(rs, false) == [rs[0]];
    }
  }

  // ---------- Tasks ----------

  /** A spawned batch: its size, how many of its queries still run, and whether it has returned. */
  datatype Task = Task(size: nat, background: bool, remaining: nat, finished: bool)

  function Sizes(tasks: seq<Task>): nat {
    if tasks == [] then 0 else Sizes(tasks[..|tasks| - 1]) + tasks[|tasks| - 1].size
  }

  /** Foreground queries still running in tasks. */
  function RunningQueries(tasks: seq<Task>): nat {
    if tasks == [] then 0
    else
      var t := tasks[|tasks| - 1];
      RunningQueries(tasks[..|tasks| - 1]) + if t.background then 0 else t.remaining
  }

  /** Tasks of one kind that still hold their permit. */
  function Holders(tasks: seq<Task>, background: bool): nat {
    if tasks == [] then 0
    else
      var t := tasks[|tasks| - 1];
      Holders(tasks[..|tasks| - 1], background) + if t.background == background && !t.finished then 1 else 0
  }

  ghost predicate TaskOk(t: Task) {
    0 < t.size && t.remaining <= t.size && (t.finished ==> t.remaining == 0)
  }

  ghost predicate TasksOk(tasks: seq<Task>) {
    forall i :: 0 <= i < |tasks| ==> TaskOk(tasks[i])
  }

  lemma AppendTask(tasks: seq<Task>, t: Task)
    ensures Sizes(tasks + [t]) == Sizes(tasks) + t.size
    ensures RunningQueries(tasks + [t]) == RunningQueries(tasks) + if t.background then 0 else t.remaining
    ensures Holders(tasks + [t], true) == Holders(tasks, true) + if t.background && !t.finished then 1 else 0
    ensures Holders(tasks + [t], false) == Holders(tasks, false) + if !t.background && !t.finished then 1 else 0
  {
    assert (tasks + [t])[..|tasks|] == tasks;
  }

  lemma SpawnedTask(tasks: seq<Task>, batch: seq<Request>, background: bool)
    requires TasksOk(tasks) && batch != []
    ensures var t := Task(|batch|, background, |batch|, false);
            && TasksOk(tasks + [t])
            && Sizes(tasks + [t]) == Sizes(tasks) + |batch|
            && RunningQueries(tasks + [t]) == RunningQueries(tasks) + (if background then 0 else |batch|)
            && Holders(tasks + [t], background) == Holders(tasks, background) + 1
            && Holders(tasks + [t], !background) == Holders(tasks, !background)
  {
    AppendTask(tasks, Task(|batch|, background, |batch|, false));
  }

  /** Every task that holds a permit has at least one active query. */
  lemma {:induction false} HoldersAreActive(tasks: seq<Task>)
    requires TasksOk(tasks)
    ensures Holders(tasks, false) <= Sizes(tasks)
  {
    if tasks != [] {
      HoldersAreActive(tasks[..|tasks| - 1]);
    }
  }

  lemma {:induction false} ReplaceTask(tasks: seq<Task>, i: nat, t: Task)
    requires i < |tasks| && t.size == tasks[i].size && t.background == tasks[i].background
    ensures var tasks' := tasks[i := t];
            && Sizes(tasks') == Sizes(tasks)
            && RunningQueries(tasks') ==
                 RunningQueries(tasks) + (if t.background then 0 else t.remaining - tasks[i].remaining)
            && (forall b :: Holders(tasks', b) == Holders(tasks, b)
                  + (if t.background == b && !t.finished then 1 else 0)
                  - (if t.background == b && !tasks[i].finished then 1 else 0))
  {
    var n := |tasks| - 1;
    if i < n {
      ReplaceTask(tasks[..n], i, t);
      assert tasks[i := t][..n] == tasks[..n][i := t];
    } else {
      assert tasks[i := t][..n] == tasks[..n];
    }
  }

  /** `kept` and the reaped total together stand for all of `tasks`; only finished tasks were taken out. */
  ghost predicate Reaped(tasks: seq<Task>, kept: seq<Task>, total: nat) {
    && Sizes(kept) + total == Sizes(tasks)
    && RunningQueries(kept) == RunningQueries(tasks)
    && Holders(kept, true) == Holders(tasks, true) && Holders(kept, false) == Holders(tasks, false)
    && TasksOk(kept)
  }

  lemma ReapedNext(tasks: seq<Task>, kept: seq<Task>, total: nat, t: Task)
    requires Reaped(tasks, kept, total) && TaskOk(t)
    ensures Reaped(tasks + [t], kept + [t], total)
    ensures t.finished ==> Reaped(tasks + [t], kept, total + t.size)
  {
    AppendTask(tasks, t);
    AppendTask(kept, t);
  }

  /** The tasks left when the join set has yielded every finished task that is `ready`. */
  function Kept(tasks: seq<Task>, ready: nat -> bool): seq<Task> {
    if tasks == [] then []
    else
      var n := |tasks| - 1;
      Kept(tasks[..n], ready) + if tasks[n].finished && ready(n) then [] else [tasks[n]]
  }

  /** Collects some of the finished tasks; which ones the join set yields is up to the runtime. */
  method ReapTasks(tasks: seq<Task>, ready: nat -> bool) returns (kept: seq<Task>, total: nat)
    requires TasksOk(tasks)
    ensures Reaped(tasks, kept, total) && kept == Kept(tasks, ready)
  {
    kept, total := [], 0;
    for i := 0 to |tasks|
      invariant Reaped(tasks[..i], kept, total) && kept == Kept(tasks[..i], ready)
    {
      var t := tasks[i];
      assert tasks[..i + 1] == tasks[..i] + [t];
      assert tasks[..i + 1][..i] == tasks[..i];
      ReapedNext(tasks[..i], kept, total, t);
      if t.finished && ready(i) {
        total := total + t.size;
      } else {
        kept := kept + [t];
      }
    }
    assert tasks[..|tasks|] == tasks;
  }

  /** A non-empty batch becomes one task when a permit is free. */
  function Spawned(tasks: seq<Task>, batch: seq<Request>, background: bool, permits: nat): seq<Task> {
    if batch == [] || permits == 0 then tasks else tasks + [Task(|batch|, background, |batch|, false)]
  }

  // ---------- The dispatcher ----------

  class Dispatcher {
    var activeQueries: int
    var totalQueries: nat
    var bgTotalQueries: nat
    var cacheHits: nat
    var cacheMisses: nat
    var bgBatch: seq<Request>
    var bgPermits: nat
    var fgPermits: nat
    var tasks: seq<Task>
    /** Foreground queries dropped because no permit was free; nothing ever gives them back. */
    ghost var leaked: nat
    ghost var refusedCount: nat

    /** Every counter is accounted for, with `held` accepted foreground queries not yet in a task; no count goes below
        zero, and hits and misses never exceed the total. */
    ghost predicate Accounted(held: nat)
      reads this
    {
      && activeQueries == |bgBatch| + Sizes(tasks) + leaked + held
      && totalQueries == cacheHits + cacheMisses + RunningQueries(tasks) + leaked + refusedCount + held
      && bgPermits + Holders(tasks, true) == BACKGROUND_PERMITS
      && fgPermits + Holders(tasks, false) == FOREGROUND_PERMITS
      && TasksOk(tasks)
      && 0 <= activeQueries && cacheHits + cacheMisses <= totalQueries
    }

    ghost predicate Valid()
      reads this
    {
      Accounted(0)
    }

    constructor ()
      ensures Valid() && activeQueries == 0 && leaked == 0 && tasks == [] && bgBatch == []
      ensures bgPermits == 4 && fgPermits == 64
    {
      activeQueries, totalQueries, bgTotalQueries, cacheHits, cacheMisses := 0, 0, 0, 0, 0;
      bgBatch, tasks := [], [];
      bgPermits, fgPermits := BACKGROUND_PERMITS, FOREGROUND_PERMITS;
      leaked, refusedCount := 0, 0;
    }

    /** The refusal loop over one received batch. */
    method Triage(requests: seq<Request>, limit: nat)
      returns (refused: seq<Request>, foreground: seq<Request>, background: seq<Request>)
      modifies `activeQueries
      ensures Sorted(refused, foreground, background) == Pass(requests, old(activeQueries), limit)
      ensures activeQueries == old(activeQueries) - |refused|
    {
      refused, foreground, background := [], [], [];
      var rest := requests;
      while rest != []
        invariant activeQueries == old(activeQueries) - |refused|
        invariant var p := Pass(rest, activeQueries, limit);
                  Sorted(refused + p.refused, foreground + p.foreground, background + p.background) ==
                    Pass(requests, old(activeQueries), limit)
        decreases |rest|
      {
        var r := rest[|rest| - 1];
        ghost var p := Pass(rest[..|rest| - 1],
                            if ShouldRefuse(limit, r.background, activeQueries) then activeQueries - 1
                            else activeQueries,
                            limit);
        rest := rest[..|rest| - 1];
        if ShouldRefuse(limit, r.background, activeQueries) {
          assert refused + ([r] + p.refused) == refused + [r] + p.refused;
          activeQueries := activeQueries - 1;
          refused := refused + [r];
        } else if r.background {
          assert background + ([r] + p.background) == background + [r] + p.background;
          background := background + [r];
        } else {
          assert foreground + ([r] + p.foreground) == foreground + [r] + p.foreground;
          foreground := foreground + [r];
        }
      }
    }

    /** Background work waits in `bgBatch` until a permit is free. */
    method SpawnBackground(ghost held: nat)
      requires Accounted(held)
      modifies `bgBatch, `bgPermits, `tasks
      ensures Accounted(held)
      ensures bgBatch == if old(bgPermits) > 0 then [] else old(bgBatch)
      ensures tasks == Spawned(old(tasks), old(bgBatch), true, old(bgPermits))
    {
      if bgBatch != [] && bgPermits > 0 {
        var t := Task(|bgBatch|, true, |bgBatch|, false);
        SpawnedTask(tasks, bgBatch, true);
        bgPermits := bgPermits - 1;
        tasks := tasks + [t];
        bgBatch := [];
      }
    }

    /** A batch of foreground queries is spawned as one task, or dropped for want of a permit. */
    method SpawnForeground(foreground: seq<Request>)
      requires Accounted(|foreground|)
      modifies `fgPermits, `tasks, `leaked
      ensures Valid()
      ensures leaked == old(leaked) + if old(fgPermits) == 0 then |foreground| else 0
      ensures tasks == Spawned(old(tasks), foreground, false, old(fgPermits))
      ensures leaked > old(leaked) ==> leaked + FOREGROUND_PERMITS <= activeQueries
    {
      if foreground != [] {
        if fgPermits > 0 {
          var t := Task(|foreground|, false, |foreground|, false);
          SpawnedTask(tasks, foreground, false);
          fgPermits := fgPermits - 1;
          tasks := tasks + [t];
        } else {
          HoldersAreActive(tasks);
          leaked := leaked + |foreground|;
        }
      }
    }

    method Reap(ready: nat -> bool)
      requires Valid()
      modifies `tasks, `activeQueries
      ensures Valid() && activeQueries <= old(activeQueries)
      ensures tasks == Kept(old(tasks), ready)
    {
      var kept, finished := ReapTasks(tasks, ready);
      tasks := kept;
      activeQueries := activeQueries - finished;
    }

    /** Counts a received batch and sorts out what is refused; background queries join those waiting. */
    method Receive(requests: seq<Request>, limit: nat)
      returns (refused: seq<Request>, foreground: seq<Request>, ghost p: Sorted)
      requires Valid()
      modifies `activeQueries, `totalQueries, `bgTotalQueries, `refusedCount, `bgBatch
      ensures p == Pass(requests, old(activeQueries) + |requests|, limit)
      ensures refused == p.refused && foreground == p.foreground && bgBatch == old(bgBatch) + p.background
      ensures totalQueries == old(totalQueries) + |p.refused| + |p.foreground|
      ensures bgTotalQueries == old(bgTotalQueries) + |p.background|
      ensures Accounted(|foreground|)
      ensures limit > 0 && foreground != [] ==> activeQueries <= limit
    {
      PassCounts(requests, activeQueries + |requests|, limit);
      p := Pass(requests, activeQueries + |requests|, limit);
      activeQueries := activeQueries + |requests|;
      totalQueries := totalQueries + |NewestFirst(requests, false)|;
      bgTotalQueries := bgTotalQueries + |NewestFirst(requests, true)|;
      var background;
      refused, foreground, background := Triage(requests, limit);
      refusedCount := refusedCount + |refused|;
      bgBatch := bgBatch + background;
    }

    /** Spawns what can be spawned, drops what cannot, and reaps. */
    method Settle(foreground: seq<Request>, ready: nat -> bool)
      requires Accounted(|foreground|)
      modifies `bgBatch, `bgPermits, `fgPermits, `tasks, `leaked, `activeQueries
      ensures Valid()
      ensures leaked == old(leaked) + if old(fgPermits) > 0 then 0 else |foreground|
      ensures bgBatch == if old(bgPermits) > 0 then [] else old(bgBatch)
      ensures tasks == Kept(Spawned(Spawned(old(tasks), old(bgBatch), true, old(bgPermits)),
                                    foreground, false, old(fgPermits)), ready)
      ensures leaked > old(leaked) ==> leaked + FOREGROUND_PERMITS <= old(activeQueries)
    {
      SpawnBackground(|foreground|);
      SpawnForeground(foreground);
      Reap(ready);
    }

    /** One turn of the loop on a received batch. Afterwards the active count is again exactly: waiting background
        queries, plus the sizes of unreaped tasks, plus the foreground queries dropped so far. */
    method Turn(requests: seq<Request>, limit: nat, ready: nat -> bool)
      returns (refused: seq<Request>, ghost p: Sorted)
      requires Valid() && requests != []
      modifies this
      ensures p == Pass(requests, old(activeQueries) + |requests|, limit)
      ensures Valid()
      ensures totalQueries == old(totalQueries) + |p.refused| + |p.foreground|
      ensures bgTotalQueries == old(bgTotalQueries) + |p.background|
      ensures refused == p.refused
      ensures leaked == old(leaked) + (if old(fgPermits) > 0 then 0 else |p.foreground|)
      ensures var waiting := old(bgBatch) + p.background;
              && bgBatch == (if old(bgPermits) > 0 then [] else waiting)
              && tasks == Kept(Spawned(Spawned(old(tasks), waiting, true, old(bgPermits)),
                                       p.foreground, false, old(fgPermits)), ready)
      ensures limit > 0 && leaked > old(leaked) ==> leaked + FOREGROUND_PERMITS <= limit
    {
      var foreground;
      refused, foreground, p := Receive(requests, limit);
      Settle(foreground, ready);
    }

    ghost predicate Idle()
      reads this
    {
      tasks == [] && bgBatch == []
    }

    /** The receive loop skips empty batches. Once the dropped queries reach the limit, every foreground query is
        refused, in this turn and in all later ones; below the limit an idle dispatcher lets a query through. Under one
        fixed limit the dropped queries stay 64 below it, so only a reload that lowers the limit can lock it out. */
    method Step(requests: seq<Request>, limit: nat, ready: nat -> bool) returns (refused: seq<Request>)
      requires Valid()
      modifies this
      ensures Valid() && leaked >= old(leaked)
      ensures requests == [] ==> unchanged(this) && refused == []
      ensures limit > 0 && old(leaked) >= limit ==> refused == NewestFirst(requests, false) && leaked == old(leaked)
      ensures old(Idle()) && |requests| == 1 && !requests[0].background ==>
                (refused == [] <==> limit == 0 || old(leaked) < limit)
      ensures limit > 0 && (old(leaked) == 0 || old(leaked) + FOREGROUND_PERMITS <= limit) ==>
                leaked == 0 || leaked + FOREGROUND_PERMITS <= limit
    {
      if requests == [] {
        return [];
      }
      LockoutIff(requests, activeQueries + |requests|, limit, leaked);
      ghost var p;
      refused, p := Turn(requests, limit, ready);
    }

    /** One query of a task completes; foreground ones count as a cache hit or a miss. */
    method Complete(i: nat, fromCache: bool)
      requires Valid() && i < |tasks| && tasks[i].remaining > 0
      modifies `tasks, `cacheHits, `cacheMisses
      ensures Valid()
      ensures var t := old(tasks)[i];
              && tasks == old(tasks)[i := t.(remaining := t.remaining - 1)]
              && cacheHits == old(cacheHits) + (if !t.background && fromCache then 1 else 0)
              && cacheMisses == old(cacheMisses) + (if !t.background && !fromCache then 1 else 0)
    {
      var t := tasks[i];
      ReplaceTask(tasks, i, t.(remaining := t.remaining - 1));
      tasks := tasks[i := t.(remaining := t.remaining - 1)];
      if !t.background {
        if fromCache {
          cacheHits := cacheHits + 1;
        } else {
          cacheMisses := cacheMisses + 1;
        }
      }
    }

    /** A task whose queries are all done drops its permit and returns its size. */
    method Finish(i: nat)
      requires Valid() && i < |tasks| && tasks[i].remaining == 0 && !tasks[i].finished
      modifies `tasks, `bgPermits, `fgPermits
      ensures Valid() && tasks == old(tasks)[i := old(tasks)[i].(finished := true)]
    {
      var t := tasks[i];
      ReplaceTask(tasks, i, t.(finished := true));
      tasks := tasks[i := t.(finished := true)];
      if t.background {
        bgPermits := bgPermits + 1;
      } else {
        fgPermits := fgPermits + 1;
      }
    }
  }

  // ---------- A dropped batch ----------

  lemma {:induction false} NoneReadyKeepsAll(tasks: seq<Task>, ready: nat -> bool)
    requires forall i :: !ready(i)
    ensures Kept(tasks, ready) == tasks
  {
    if tasks != [] {
      var init, t := tasks[..|tasks| - 1], tasks[|tasks| - 1];
      NoneReadyKeepsAll(init, ready);
      assert tasks == init + [t];
    }
  }

  lemma {:induction false} AllReadyKeepsNone(tasks: seq<Task>, ready: nat -> bool)
    requires forall i :: ready(i)
    requires forall i :: 0 <= i < |tasks| ==> tasks[i].finished
    ensures Kept(tasks, ready) == []
  {
    if tasks != [] {
      AllReadyKeepsNone(tasks[..|tasks| - 1], ready);
    }
  }

  const QUERY: Request := Request(0, false)

  lemma OneQuery(active: int, limit: nat)
    ensures Pass([QUERY], active, limit) ==
              if limit > 0 && active > limit then Sorted([QUERY], [], []) else Sorted([], [QUERY], [])
  {
    assert [QUERY][..0] == [];
  }

  /** One query arrives, on its own, with no limit set. */
  method ReceiveOne(d: Dispatcher, ready: nat -> bool)
    requires d.Valid() && d.bgBatch == []
    modifies d
    ensures d.Valid() && d.bgBatch == []
    ensures d.tasks == Kept(Spawned(old(d.tasks), [QUERY], false, old(d.fgPermits)), ready)
    ensures d.leaked == old(d.leaked) + if old(d.fgPermits) > 0 then 0 else 1
  {
    OneQuery(d.activeQueries + 1, 0);
    var _, _ := d.Turn([QUERY], 0, ready);
  }

  lemma {:induction false} AllHolding(tasks: seq<Task>)
    requires forall i :: 0 <= i < |tasks| ==> !tasks[i].background && !tasks[i].finished
    ensures Holders(tasks, false) == |tasks|
  {
    if tasks != [] {
      AllHolding(tasks[..|tasks| - 1]);
    }
  }

  const RUNNING: Task := Task(1, false, 1, false)

  /** Sixty-four queries that do not finish take all foreground permits; one more is dropped. */
  method Saturate(d: Dispatcher)
    requires d.Valid() && d.Idle() && d.leaked == 0
    modifies d
    ensures d.Valid() && d.bgBatch == [] && d.leaked == 1
    ensures |d.tasks| == 64 && forall i :: 0 <= i < |d.tasks| ==> d.tasks[i] == RUNNING
  {
    var never := (i: nat) => false;
    for n := 0 to FOREGROUND_PERMITS
      invariant d.Valid() && d.bgBatch == [] && d.leaked == 0
      invariant |d.tasks| == n && forall i :: 0 <= i < n ==> d.tasks[i] == RUNNING
    {
      AllHolding(d.tasks);
      NoneReadyKeepsAll(Spawned(d.tasks, [QUERY], false, d.fgPermits), never);
      ReceiveOne(d, never);
    }
    AllHolding(d.tasks);
    NoneReadyKeepsAll(d.tasks, never);
    ReceiveOne(d, never);
  }

  method CompleteAll(d: Dispatcher)
    requires d.Valid() && forall i :: 0 <= i < |d.tasks| ==> d.tasks[i] == RUNNING
    modifies d
    ensures d.Valid() && d.bgBatch == old(d.bgBatch) && d.leaked == old(d.leaked)
    ensures forall i :: 0 <= i < |d.tasks| ==> d.tasks[i].finished
  {
    for n := 0 to |d.tasks|
      invariant d.Valid() && d.bgBatch == old(d.bgBatch) && d.leaked == old(d.leaked)
      invariant |d.tasks| == |old(d.tasks)|
      invariant forall i :: 0 <= i < n ==> d.tasks[i].finished
      invariant forall i :: n <= i < |d.tasks| ==> d.tasks[i] == RUNNING
    {
      d.Complete(n, false);
      d.Finish(n);
    }
  }

  /** A dropped query counts as active for good: after all tasks have finished and been reaped the count is one, and
      under a limit of one, set by a reload, the idle dispatcher refuses the next query. */
  method DroppedForGood() returns (d: Dispatcher, refused: seq<Request>)
    ensures fresh(d) && d.Valid() && d.Idle() && d.activeQueries == 1 && refused == [QUERY]
  {
    var always := (i: nat) => true;
    ghost var p;
    d := new Dispatcher();
    Saturate(d);
    CompleteAll(d);
    OneQuery(d.activeQueries + 1, 1);
    AllReadyKeepsNone(d.tasks, always);
    refused, p := d.Turn([QUERY], 1, always);
    assert d.Idle();
    OneQuery(d.activeQueries + 1, 1);
    refused, p := d.Turn([QUERY], 1, always);
  }
}
