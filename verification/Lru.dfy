/** The contract of one cache shard: a bounded map kept in recency order, most recently used first. */
module Lru {
  import opened Dns

  datatype Slot<K, V> = Slot(key: K, value: V)

  ghost predicate Distinct<K, V>(s: seq<Slot<K, V>>) {
    forall i, j :: 0 <= i < j < |s| ==> s[i].key != s[j].key
  }

  /** The position of key `k`, or the length when it is absent. */
  function IndexOf<K(==), V>(s: seq<Slot<K, V>>, k: K): (i: nat)
    ensures i <= |s|
    ensures i < |s| ==> s[i].key == k
    ensures forall j :: 0 <= j < i ==> s[j].key != k
  {
    if s == [] then 0 else if s[0].key == k then 0 else 1 + IndexOf(s[1..], k)
  }

  function Without<T>(s: seq<T>, i: nat): (r: seq<T>)
    requires i < |s|
    ensures |r| == |s| - 1
    ensures forall j :: 0 <= j < |r| ==> r[j] == if j < i then s[j] else s[j + 1]
  {
    s[..i] + s[i + 1..]
  }

  /** Write `v` under `k`, which becomes the most recent key; hands back what was displaced. */
  function Push<K(==), V>(s: seq<Slot<K, V>>, cap: nat, k: K, v: V): (r: (seq<Slot<K, V>>, Option<Slot<K, V>>))
  {
    var i := IndexOf(s, k);
    if i < |s| then ([Slot(k, v)] + Without(s, i), Some(s[i]))
    else if |s| >= cap && |s| > 0 then ([Slot(k, v)] + s[..|s| - 1], Some(s[|s| - 1]))
    else ([Slot(k, v)] + s, None)
  }

  lemma PushKeepsShape<K, V>(s: seq<Slot<K, V>>, cap: nat, k: K, v: V)
    requires Distinct(s) && |s| <= cap && cap > 0
    ensures Distinct(Push(s, cap, k, v).0) && |Push(s, cap, k, v).0| <= cap
  {
  }

  function Find<K(==), V>(s: seq<Slot<K, V>>, k: K): (r: Option<V>) {
    var i := IndexOf(s, k);
    if i < |s| then Some(s[i].value) else None
  }

  lemma FindAt<K, V>(s: seq<Slot<K, V>>, i: nat)
    requires Distinct(s) && i < |s|
    ensures Find(s, s[i].key) == Some(s[i].value)
  {
    var j := IndexOf(s, s[i].key);
    assert s[j].key == s[i].key;
  }

  lemma UseKeepsDistinct<K, V>(s: seq<Slot<K, V>>, i: nat, v: V)
    requires Distinct(s) && i < |s|
    ensures Distinct([Slot(s[i].key, v)] + Without(s, i))
  {
    var s' := [Slot(s[i].key, v)] + Without(s, i);
    forall a, b | 0 <= a < b < |s'|
      ensures s'[a].key != s'[b].key
    {
      assert s'[b].key == s[if b - 1 < i then b - 1 else b].key;
      assert a > 0 ==> s'[a].key == s[if a - 1 < i then a - 1 else a].key;
    }
  }

  /** Rewriting a resident key at the front changes the value of that key alone. */
  lemma FindAfterUse<K, V>(s: seq<Slot<K, V>>, i: nat, v: V, k: K)
    requires Distinct(s) && i < |s|
    ensures var s' := [Slot(s[i].key, v)] + Without(s, i);
            && Distinct(s') && |s'| == |s|
            && Find(s', k) == if k == s[i].key then Some(v) else Find(s, k)
  {
    var s' := [Slot(s[i].key, v)] + Without(s, i);
    UseKeepsDistinct(s, i, v);
    var j := IndexOf(s, k);
    if k == s[i].key {
      FindAt(s', 0);
    } else if j < |s| {
      assert s'[if j < i then j + 1 else j] == s[j];
      FindAt(s', if j < i then j + 1 else j);
    } else {
      AbsentAfterUse(s, i, v, k);
    }
  }

  lemma AbsentAfterUse<K, V>(s: seq<Slot<K, V>>, i: nat, v: V, k: K)
    requires i < |s| && IndexOf(s, k) == |s|
    ensures var s' := [Slot(s[i].key, v)] + Without(s, i); IndexOf(s', k) == |s'|
  {
  }

  /** A push writes its own key and can make other keys disappear, but never changes them. */
  lemma FindAfterPush<K, V>(s: seq<Slot<K, V>>, cap: nat, k: K, v: V, k': K)
    requires Distinct(s)
    ensures var s' := Push(s, cap, k, v).0;
            Find(s', k') == (if k' == k then Some(v) else Find(s, k')) || (k' != k && Find(s', k') == None)
  {
    var s' := Push(s, cap, k, v).0;
    var i := IndexOf(s, k);
    if i < |s| {
      FindAfterUse(s, i, v, k');
    } else {
      var kept := if |s| >= cap && |s| > 0 then s[..|s| - 1] else s;
      assert s' == [Slot(k, v)] + kept && s'[1..] == kept;
      FindInPrefix(s, |kept|, k');
    }
  }

  lemma FindInPrefix<K, V>(s: seq<Slot<K, V>>, m: nat, k: K)
    requires m <= |s|
    ensures Find(s[..m], k) == Find(s, k) || Find(s[..m], k) == None
  {
    var i := IndexOf(s[..m], k);
    var j := IndexOf(s, k);
    if i < m {
      assert s[..m][i].key == k;
      assert j <= i;
      assert s[..m][j].key == k;
    }
  }

  /** What a shard's owner may do to it; `Use` is a `get_mut` that rewrites the value it found. */
  datatype Action<K, V> = Use(key: K, write: V) | Put(key: K, value: V) | Evict | Clear

  function Apply<K(==), V>(s: seq<Slot<K, V>>, cap: nat, a: Action<K, V>): seq<Slot<K, V>> {
    match a
    case Use(k, v) =>
      var i := IndexOf(s, k);
      if i < |s| then [Slot(k, v)] + Without(s, i) else s
    case Put(k, v) => Push(s, cap, k, v).0
    case Evict => if s == [] then s else s[..|s| - 1]
    case Clear => []
  }

  function ApplyFrom<K(==), V>(s: seq<Slot<K, V>>, cap: nat, acts: seq<Action<K, V>>): seq<Slot<K, V>> {
    if acts == [] then s else Apply(ApplyFrom(s, cap, acts[..|acts| - 1]), cap, acts[|acts| - 1])
  }

  /** The shard after a history that starts empty. */
  function ApplyAll<K(==), V>(cap: nat, acts: seq<Action<K, V>>): seq<Slot<K, V>> {
    ApplyFrom([], cap, acts)
  }

  lemma ApplyNext<K, V>(s: seq<Slot<K, V>>, cap: nat, acts: seq<Action<K, V>>, a: Action<K, V>)
    ensures ApplyFrom(s, cap, acts + [a]) == Apply(ApplyFrom(s, cap, acts), cap, a)
  {
    assert (acts + [a])[..|acts|] == acts;
  }

  lemma SplitLast<T>(a: seq<T>, b: seq<T>)
    requires b != []
    ensures a + b == (a + b[..|b| - 1]) + [b[|b| - 1]]
  {
  }

  lemma {:induction false} ApplyConcat<K, V>(s: seq<Slot<K, V>>, cap: nat, a: seq<Action<K, V>>, b: seq<Action<K, V>>)
    ensures ApplyFrom(s, cap, a + b) == ApplyFrom(ApplyFrom(s, cap, a), cap, b)
  {
    if b == [] {
      assert a + b == a;
    } else {
      var init, x := b[..|b| - 1], b[|b| - 1];
      ApplyConcat(s, cap, a, init);
      ApplyNext(s, cap, a + init, x);
      SplitLast(a, b);
    }
  }

  predicate Mentions<K(==), V>(a: Action<K, V>, k: K) {
    (a.Use? || a.Put?) && a.key == k
  }

  /** One more than the index of the last action on key `k`; zero when there is none. */
  function LastUse<K(==), V>(acts: seq<Action<K, V>>, k: K): (t: nat)
    ensures t <= |acts|
  {
    if acts == [] then 0
    else if Mentions(acts[|acts| - 1], k) then |acts|
    else LastUse(acts[..|acts| - 1], k)
  }

  /** Over every history of a shard, its keys are distinct, its capacity is respected, and the stored order is the
      order of last use: position i was used after every later position. */
  lemma {:induction false} OrderIsRecency<K, V>(cap: nat, acts: seq<Action<K, V>>)
    requires cap > 0
    ensures Distinct(ApplyAll(cap, acts)) && |ApplyAll(cap, acts)| <= cap
    ensures var s := ApplyAll(cap, acts);
            forall i, j :: 0 <= i < j < |s| ==> LastUse(acts, s[i].key) > LastUse(acts, s[j].key)
  {
    if acts != [] {
      var before := acts[..|acts| - 1];
      OrderIsRecency(cap, before);
      var p := ApplyAll(cap, before);
      var s := ApplyAll(cap, acts);
      var a := acts[|acts| - 1];
      forall i, j | 0 <= i < j < |s|
        ensures s[i].key != s[j].key
        ensures LastUse(acts, s[i].key) > LastUse(acts, s[j].key)
      {
        OnlyLastChanges(p, cap, a, i, j);
        assert LastUse(before, s[j].key) <= |before|;
      }
    }
  }

  /** After one action, any two kept positions are in their former order, or the earlier one is the key just used. */
  lemma OnlyLastChanges<K, V>(p: seq<Slot<K, V>>, cap: nat, a: Action<K, V>, i: nat, j: nat)
    requires Distinct(p) && i < j < |Apply(p, cap, a)|
    ensures var s := Apply(p, cap, a);
            && !Mentions(a, s[j].key)
            && (Mentions(a, s[i].key) ||
                exists i', j' :: 0 <= i' < j' < |p| && p[i'].key == s[i].key && p[j'].key == s[j].key)
  {
    var s := Apply(p, cap, a);
    if a.Use? || a.Put? {
      var x := IndexOf(p, a.key);
      if x < |p| {
        var back := (n: nat) => if n - 1 < x then n - 1 else n;
        if i > 0 {
          assert p[back(i)].key == s[i].key && p[back(j)].key == s[j].key;
        }
      } else if a.Put? {
        if i > 0 {
          assert p[i - 1].key == s[i].key && p[j - 1].key == s[j].key;
        }
      } else {
        assert s == p;
      }
    } else {
      assert p[i].key == s[i].key && p[j].key == s[j].key;
    }
  }

  /** A push at capacity displaces the key whose last use is the oldest of all resident keys. */
  lemma VictimIsLeastRecent<K, V>(cap: nat, acts: seq<Action<K, V>>, k: K, v: V)
    requires cap > 0
    ensures var s := ApplyAll(cap, acts);
            var out := Push(s, cap, k, v).1;
            && (out.Some? <==> (exists i :: 0 <= i < |s| && s[i].key == k) || |s| == cap)
            && (out.Some? && out.value.key != k ==>
                  forall i :: 0 <= i < |s| - 1 ==> LastUse(acts, s[i].key) > LastUse(acts, out.value.key))
  {
    OrderIsRecency(cap, acts);
    var s := ApplyAll(cap, acts);
    var i := IndexOf(s, k);
    assert i < |s| ==> s[i].key == k;
  }

  // ---------- Histories as sequences of touched keys ----------

  /** The keys that a history names, in order. */
  function Mentioned<K, V>(acts: seq<Action<K, V>>): seq<K> {
    if acts == [] then []
    else
      var rest, a := Mentioned(acts[..|acts| - 1]), acts[|acts| - 1];
      if a.Use? || a.Put? then rest + [a.key] else rest
  }

  lemma MentionedNext<K, V>(acts: seq<Action<K, V>>, a: Action<K, V>)
    ensures Mentioned(acts + [a]) == Mentioned(acts) + if a.Use? || a.Put? then [a.key] else []
  {
    assert (acts + [a])[..|acts|] == acts;
  }

  lemma {:induction false} MentionedConcat<K, V>(a: seq<Action<K, V>>, b: seq<Action<K, V>>)
    ensures Mentioned(a + b) == Mentioned(a) + Mentioned(b)
  {
    if b == [] {
      assert a + b == a;
    } else {
      var init, x := b[..|b| - 1], b[|b| - 1];
      MentionedConcat(a, init);
      MentionedNext(a + init, x);
      SplitLast(a, b);
    }
  }

  /** One more than the last position of `k`; zero when it does not occur. */
  function LastTouch<K(==)>(keys: seq<K>, k: K): (t: nat)
    ensures t <= |keys|
  {
    if keys == [] then 0 else if keys[|keys| - 1] == k then |keys| else LastTouch(keys[..|keys| - 1], k)
  }

  lemma LastTouchNext<K>(keys: seq<K>, x: K, k: K)
    ensures LastTouch(keys + [x], k) == if x == k then |keys| + 1 else LastTouch(keys, k)
  {
    assert (keys + [x])[..|keys|] == keys;
  }

  /** Leaving out the actions that name no key does not change which of two keys came last. */
  lemma {:induction false} SameOrderOfTouch<K, V>(acts: seq<Action<K, V>>, a: K, b: K)
    ensures LastUse(acts, a) > LastUse(acts, b) <==> LastTouch(Mentioned(acts), a) > LastTouch(Mentioned(acts), b)
  {
    if acts != [] {
      var init, x := acts[..|acts| - 1], acts[|acts| - 1];
      SameOrderOfTouch(init, a, b);
      if x.Use? || x.Put? {
        LastTouchNext(Mentioned(init), x.key, a);
        LastTouchNext(Mentioned(init), x.key, b);
      }
    }
  }

  // ---------- What is removed was used least recently ----------

  predicate Has<K(==), V>(s: seq<Slot<K, V>>, k: K) {
    IndexOf(s, k) < |s|
  }

  lemma HasAt<K, V>(s: seq<Slot<K, V>>, i: nat)
    requires i < |s|
    ensures Has(s, s[i].key)
  {
  }

  /** Only a push brings in a key. */
  lemma KeysAfter<K, V>(p: seq<Slot<K, V>>, cap: nat, x: Action<K, V>, b: K)
    requires Has(Apply(p, cap, x), b)
    ensures Has(p, b) || (x.Put? && x.key == b)
  {
    var s := Apply(p, cap, x);
    var j := IndexOf(s, b);
    if x.Use? || x.Put? {
      var i := IndexOf(p, x.key);
      if i < |p| {
        if j > 0 {
          assert s[j] == Without(p, i)[j - 1];
          HasAt(p, if j - 1 < i then j - 1 else j);
        }
      } else if x.Put? {
        if j > 0 {
          assert s[j] == p[j - 1];
          HasAt(p, j - 1);
        }
      }
    } else if x.Evict? && p != [] {
      assert s[j] == p[j];
      HasAt(p, j);
    }
  }

  /** Rewriting or re-pushing a resident key removes no key. */
  lemma UseKeepsKeys<K, V>(p: seq<Slot<K, V>>, i: nat, v: V, a: K)
    requires i < |p| && Has(p, a)
    ensures Has([Slot(p[i].key, v)] + Without(p, i), a)
  {
    var s := [Slot(p[i].key, v)] + Without(p, i);
    var j := IndexOf(p, a);
    if j == i {
      HasAt(s, 0);
    } else {
      assert s[if j < i then j + 1 else j] == p[j];
      HasAt(s, if j < i then j + 1 else j);
    }
  }

  lemma KeptUnlessLast<K, V>(p: seq<Slot<K, V>>, cap: nat, x: Action<K, V>, a: K)
    requires Has(p, a) && !x.Clear?
    requires IndexOf(p, a) < |p| - 1 || x.Use? || (x.Put? && x.key == a)
    ensures Has(Apply(p, cap, x), a)
  {
    var s := Apply(p, cap, x);
    var j := IndexOf(p, a);
    if x.Use? || x.Put? {
      var i := IndexOf(p, x.key);
      if i < |p| {
        UseKeepsKeys(p, i, if x.Use? then x.write else x.value, a);
      } else if x.Put? {
        assert s[j + 1] == p[j];
        HasAt(s, j + 1);
      }
    } else {
      assert s[j] == p[j];
      HasAt(s, j);
    }
  }

  /** A key that one action other than a clear removes was in the last position. */
  lemma RemovedWasLast<K, V>(p: seq<Slot<K, V>>, cap: nat, x: Action<K, V>, a: K)
    requires Has(p, a) && !Has(Apply(p, cap, x), a) && !x.Clear?
    ensures IndexOf(p, a) == |p| - 1 && (x.Put? || x.Evict?) && (x.Put? ==> x.key != a)
  {
    if IndexOf(p, a) < |p| - 1 || x.Use? || (x.Put? && x.key == a) {
      KeptUnlessLast(p, cap, x, a);
      assert false;
    }
  }

  /** After the first action, only pushes and evictions; no clear. */
  ghost predicate Plain<K, V>(more: seq<Action<K, V>>) {
    forall i :: 0 <= i < |more| ==> !more[i].Clear? && (i > 0 ==> more[i].Put? || more[i].Evict?)
  }

  /** Over every history: a key that a plain stretch of actions removes was used less recently than every key it
      leaves. */
  lemma {:induction false} RemovedIsLessRecent<K, V>(cap: nat, acts: seq<Action<K, V>>, more: seq<Action<K, V>>,
                                                     a: K, b: K)
    requires cap > 0 && Plain(more) && Has(ApplyAll(cap, acts), a)
    requires !Has(ApplyAll(cap, acts + more), a) && Has(ApplyAll(cap, acts + more), b)
    ensures LastUse(acts + more, b) > LastUse(acts + more, a)
    decreases |more|
  {
    assert acts + [] == acts;
    var init, x := more[..|more| - 1], more[|more| - 1];
    assert acts + more == (acts + init) + [x];
    RemovedLast(cap, acts, init, x, a, b);
  }

  lemma {:induction false} RemovedLast<K, V>(cap: nat, acts: seq<Action<K, V>>, init: seq<Action<K, V>>,
                                             x: Action<K, V>, a: K, b: K)
    requires cap > 0 && Plain(init + [x]) && Has(ApplyAll(cap, acts), a)
    requires !Has(ApplyAll(cap, (acts + init) + [x]), a) && Has(ApplyAll(cap, (acts + init) + [x]), b)
    ensures LastUse((acts + init) + [x], b) > LastUse((acts + init) + [x], a)
    decreases |init| + 1, 0
  {
    var pre := acts + init;
    var p := ApplyAll(cap, pre);
    ApplyNext<K, V>([], cap, pre, x);
    LastUseNext(pre, x, a);
    LastUseNext(pre, x, b);
    KeysAfter(p, cap, x, b);
    OrderIsRecency(cap, pre);
    assert (init + [x])[|init|] == x;
    assert acts + [] == acts;
    if Has(p, a) {
      RemovedWasLast(p, cap, x, a);
      if !(x.Put? && x.key == b) {
        LastIsOldest(cap, pre, a, b);
      }
    } else {
      assert init != [];
      assert Plain(init) by {
        forall i | 0 <= i < |init|
          ensures !init[i].Clear? && (i > 0 ==> init[i].Put? || init[i].Evict?)
        {
          assert (init + [x])[i] == init[i];
        }
      }
      PutReturns(p, cap, x, a);
      if !(x.Put? && x.key == b) {
        RemovedIsLessRecent(cap, acts, init, a, b);
      }
    }
  }

  lemma LastUseNext<K, V>(acts: seq<Action<K, V>>, x: Action<K, V>, k: K)
    ensures LastUse(acts + [x], k) == if Mentions(x, k) then |acts| + 1 else LastUse(acts, k)
  {
    assert (acts + [x])[..|acts|] == acts;
  }

  lemma LastIsOldest<K, V>(cap: nat, acts: seq<Action<K, V>>, a: K, b: K)
    requires cap > 0
    requires var p := ApplyAll(cap, acts); Has(p, a) && Has(p, b) && a != b && IndexOf(p, a) == |p| - 1
    ensures LastUse(acts, b) > LastUse(acts, a)
  {
    OrderIsRecency(cap, acts);
  }

  lemma PutReturns<K, V>(p: seq<Slot<K, V>>, cap: nat, x: Action<K, V>, a: K)
    requires !Has(Apply(p, cap, x), a)
    ensures x.Put? ==> x.key != a
  {
    if x.Put? {
      HasAt(Apply(p, cap, x), 0);
    }
  }

  class Shard<K(==), V> {
    const cap: nat
    var slots: seq<Slot<K, V>>

    constructor (cap: nat)
      requires cap > 0
      ensures this.cap == cap && slots == []
    {
      this.cap := cap;
      slots := [];
    }

    /** `get_mut`: promotes a resident key and exposes its value. */
    method Promote(k: K) returns (found: Option<V>)
      modifies this
      ensures var i := IndexOf(old(slots), k);
              if i < |old(slots)| then
                found == Some(old(slots)[i].value) && slots == [old(slots)[i]] + Without(old(slots), i)
              else found == None && slots == old(slots)
    {
      var i := IndexOf(slots, k);
      if i < |slots| {
        found := Some(slots[i].value);
        slots := [slots[i]] + Without(slots, i);
      } else {
        found := None;
      }
    }

    /** Assignment through the reference returned by `Promote`. */
    method WriteFront(v: V)
      requires slots != []
      modifies this
      ensures slots == [Slot(old(slots)[0].key, v)] + old(slots)[1..]
    {
      slots := [Slot(slots[0].key, v)] + slots[1..];
    }

    method PushSlot(k: K, v: V) returns (out: Option<Slot<K, V>>)
      modifies this
      ensures (slots, out) == Push(old(slots), cap, k, v)
    {
      var (s, o) := Push(slots, cap, k, v);
      slots := s;
      out := o;
    }

    method PopLru() returns (out: Option<Slot<K, V>>)
      modifies this
      ensures if old(slots) == [] then out == None && slots == []
              else out == Some(old(slots)[|old(slots)| - 1]) && slots == old(slots)[..|old(slots)| - 1]
    {
      if slots == [] {
        out := None;
      } else {
        out := Some(slots[|slots| - 1]);
        slots := slots[..|slots| - 1];
      }
    }

    method Reset()
      modifies this
      ensures slots == []
    {
      slots := [];
    }
  }
}
