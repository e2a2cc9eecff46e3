/** The trie keyed by label sequences, read from the right, against a plain map. */
module Trie {
  import opened Dns

  datatype Node<K, V> = Node(value: Option<V>, children: map<K, Node<K, V>>)

  function Empty<K, V>(): Node<K, V> {
    Node(None, map[])
  }

  function Child<K(==), V>(n: Node<K, V>, k: K): Node<K, V> {
    if k in n.children then n.children[k] else Empty()
  }

  /** Descends by the last key element; hands back the value it replaces. */
  function InsertNode<K(==), V>(n: Node<K, V>, keys: seq<K>, v: V): (r: (Node<K, V>, Option<V>))
    decreases |keys|
  {
    if keys == [] then (n.(value := Some(v)), n.value)
    else
      var key := keys[|keys| - 1];
      var (c, previous) := InsertNode(Child(n, key), keys[..|keys| - 1], v);
      (n.(children := n.children[key := c]), previous)
  }

  function GetNode<K(==), V>(n: Node<K, V>, keys: seq<K>): Option<Node<K, V>>
    decreases |keys|
  {
    if keys == [] then Some(n)
    else
      var key := keys[|keys| - 1];
      if key in n.children then GetNode(n.children[key], keys[..|keys| - 1]) else None
  }

  function GetValue<K(==), V>(n: Node<K, V>, keys: seq<K>): Option<V> {
    var m := GetNode(n, keys);
    if m.Some? then m.value.value else None
  }

  ghost function Len<K(!new), V>(n: Node<K, V>): nat
    decreases n, 1
  {
    (if n.value.Some? then 1 else 0) + SumLen(n, n.children.Keys)
  }

  ghost function SumLen<K(!new), V>(n: Node<K, V>, keys: set<K>): nat
    requires keys <= n.children.Keys
    decreases n, 0, |keys|
  {
    if keys == {} then 0
    else
      var k :| k in keys;
      Len(n.children[k]) + SumLen(n, keys - {k})
  }

  lemma {:induction false} EmptyHoldsNothing<K, V>(keys: seq<K>)
    ensures GetValue(Empty<K, V>(), keys) == None
  {
  }

  /** An insert changes the value of its own key alone, and reports the one it replaced. */
  lemma {:induction false} GetAfterInsert<K, V>(n: Node<K, V>, keys: seq<K>, v: V, other: seq<K>)
    ensures var (n', previous) := InsertNode(n, keys, v);
            && previous == GetValue(n, keys)
            && GetValue(n', other) == if other == keys then Some(v) else GetValue(n, other)
    decreases |keys|
  {
    if keys != [] {
      var key, init := keys[|keys| - 1], keys[..|keys| - 1];
      var rest := if other == [] then [] else other[..|other| - 1];
      GetAfterInsert(Child(n, key), init, v, rest);
      EmptyHoldsNothing<K, V>(init);
      EmptyHoldsNothing<K, V>(rest);
      if other != [] && other[|other| - 1] == key && rest == init {
        assert other == rest + [key] && keys == init + [key];
      }
    }
  }

  lemma {:induction false} SumLenExtract<K(!new), V>(n: Node<K, V>, keys: set<K>, k: K)
    requires keys <= n.children.Keys && k in keys
    ensures SumLen(n, keys) == Len(n.children[k]) + SumLen(n, keys - {k})
    decreases |keys|
  {
    var x :| x in keys && SumLen(n, keys) == Len(n.children[x]) + SumLen(n, keys - {x});
    if x != k {
      SumLenExtract(n, keys - {x}, k);
      SumLenExtract(n, keys - {k}, x);
      assert keys - {x} - {k} == keys - {k} - {x};
    }
  }

  lemma {:induction false} SumLenAgrees<K(!new), V>(n: Node<K, V>, m: Node<K, V>, keys: set<K>)
    requires keys <= n.children.Keys && keys <= m.children.Keys
    requires forall k :: k in keys ==> n.children[k] == m.children[k]
    ensures SumLen(n, keys) == SumLen(m, keys)
    decreases |keys|
  {
    if keys != {} {
      var k :| k in keys;
      SumLenExtract(n, keys, k);
      SumLenExtract(m, keys, k);
      SumLenAgrees(n, m, keys - {k});
    }
  }

  lemma LenWithChild<K(!new), V>(n: Node<K, V>, key: K, c: Node<K, V>)
    ensures Len(n.(children := n.children[key := c])) == Len(n) - Len(Child(n, key)) + Len(c)
  {
    var n' := n.(children := n.children[key := c]);
    var others := n.children.Keys - {key};
    SumLenExtract(n', n'.children.Keys, key);
    assert n'.children.Keys - {key} == others;
    SumLenAgrees(n, n', others);
    if key in n.children {
      SumLenExtract(n, n.children.Keys, key);
    } else {
      assert others == n.children.Keys;
      assert Len(Empty<K, V>()) == 0;
    }
  }

  /** The recursive count grows by one exactly when the key was not stored before. */
  lemma {:induction false} LenAfterInsert<K(!new), V>(n: Node<K, V>, keys: seq<K>, v: V)
    ensures Len(InsertNode(n, keys, v).0) == Len(n) + if GetValue(n, keys).None? then 1 else 0
    decreases |keys|
  {
    if keys == [] {
      SumLenAgrees(n, InsertNode(n, keys, v).0, n.children.Keys);
    } else {
      var key, init := keys[|keys| - 1], keys[..|keys| - 1];
      LenAfterInsert(Child(n, key), init, v);
      LenWithChild(n, key, InsertNode(Child(n, key), init, v).0);
      EmptyHoldsNothing<K, V>(init);
    }
  }

  /** A map from non-empty key sequences. */
  class TrieMap<K(==, !new), V> {
    var children: map<K, Node<K, V>>
    ghost var contents: map<seq<K>, V>

    ghost predicate Valid()
      reads this
    {
      && (forall keys :: keys in contents <==> keys != [] && GetValue(Node(None, children), keys).Some?)
      && (forall keys :: keys in contents ==> GetValue(Node(None, children), keys) == Some(contents[keys]))
      && Len(Node(None, children)) == |contents|
    }

    constructor ()
      ensures Valid() && contents == map[]
    {
      children, contents := map[], map[];
      new;
      assert Node(None, children) == Empty<K, V>();
      forall keys {
        EmptyHoldsNothing<K, V>(keys);
      }
    }

    /** An empty key is not stored: its value is handed straight back. */
    method Insert(keys: seq<K>, v: V) returns (r: Option<V>)
      requires Valid()
      modifies this
      ensures Valid()
      ensures contents == if keys == [] then old(contents) else old(contents)[keys := v]
      ensures r == if keys == [] then Some(v)
                   else if keys in old(contents) then Some(old(contents)[keys]) else None
    {
      if keys == [] {
        return Some(v);
      }
      ghost var root := Node(None, children);
      forall other {
        GetAfterInsert(root, keys, v, other);
      }
      LenAfterInsert(root, keys, v);
      var key := keys[|keys| - 1];
      var node := if key in children then children[key] else Empty();
      var (c, previous) := InsertNode(node, keys[..|keys| - 1], v);
      children := children[key := c];
      assert Node(None, children) == InsertNode(root, keys, v).0;
      contents := contents[keys := v];
      r := previous;
    }

    method Get(keys: seq<K>) returns (r: Option<V>)
      requires Valid()
      ensures r == if keys in contents then Some(contents[keys]) else None
    {
      if keys == [] || keys[|keys| - 1] !in children {
        return None;
      }
      r := GetValue(children[keys[|keys| - 1]], keys[..|keys| - 1]);
    }
  }
}
