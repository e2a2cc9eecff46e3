/** De-duplication of the configured listeners. */
module Listeners {
  import opened Positions

  datatype Transport = Udp | Quic | H3 | Tcp | Tls | Https

  datatype Listener = Listener(transport: Transport, addr: nat, options: string)

  predicate IsDatagram(l: Listener) {
    l.transport.Udp? || l.transport.Quic? || l.transport.H3?
  }

  predicate Clash(a: Listener, b: Listener) {
    IsDatagram(a) == IsDatagram(b) && a.addr == b.addr
  }

  /** No later listener uses the same address in the same family. */
  predicate IsLast(binds: seq<Listener>, i: nat)
    requires i < |binds|
  {
    forall j :: i < j < |binds| ==> !Clash(binds[i], binds[j])
  }

  /** The last listener of each (family, address), in the original order. */
  function Survivors(binds: seq<Listener>, lo: nat): seq<Listener>
    requires lo <= |binds|
    decreases |binds| - lo
  {
    if lo == |binds| then []
    else (if IsLast(binds, lo) then [binds[lo]] else []) + Survivors(binds, lo + 1)
  }

  lemma {:induction false} RunOfSurvivors(binds: seq<Listener>, lo: nat, hi: nat)
    requires lo <= hi <= |binds| && forall i :: lo <= i < hi ==> IsLast(binds, i)
    ensures Survivors(binds, lo) == binds[lo..hi] + Survivors(binds, hi)
    decreases hi - lo
  {
    if lo < hi {
      RunOfSurvivors(binds, lo + 1, hi);
      assert IsLast(binds, lo);
      Regroup(binds, lo, hi, Survivors(binds, hi));
    }
  }

  lemma Regroup(binds: seq<Listener>, lo: nat, hi: nat, rest: seq<Listener>)
    requires lo < hi <= |binds|
    ensures [binds[lo]] + (binds[lo + 1..hi] + rest) == binds[lo..hi] + rest
  {
  }

  /** `idx` lists, in descending order, exactly the positions from `lo` on that are not the last of their kind. */
  ghost predicate Duplicates(binds: seq<Listener>, lo: nat, idx: seq<nat>) {
    && lo <= |binds|
    && (forall k :: 0 <= k < |idx| ==> lo <= idx[k] < |binds| && !IsLast(binds, idx[k]))
    && (forall k, l :: 0 <= k < l < |idx| ==> idx[k] > idx[l])
    && (forall i :: lo <= i < |binds| && !IsLast(binds, i) ==> i in idx)
  }

  /** `addrs` are the addresses of one family from position `lo` on. */
  ghost predicate Seen(binds: seq<Listener>, lo: nat, datagram: bool, addrs: set<nat>) {
    forall a :: a in addrs <==>
      exists j :: lo <= j < |binds| && IsDatagram(binds[j]) == datagram && binds[j].addr == a
  }

  lemma SeenSame(binds: seq<Listener>, lo: nat, addrs: set<nat>)
    requires lo < |binds| && Seen(binds, lo + 1, IsDatagram(binds[lo]), addrs)
    ensures Seen(binds, lo, IsDatagram(binds[lo]), addrs + {binds[lo].addr})
    ensures binds[lo].addr in addrs <==> !IsLast(binds, lo)
  {
    if binds[lo].addr in addrs {
      var j :| lo + 1 <= j < |binds| && IsDatagram(binds[j]) == IsDatagram(binds[lo])
               && binds[j].addr == binds[lo].addr;
      assert Clash(binds[lo], binds[j]);
    }
  }

  lemma SeenOther(binds: seq<Listener>, lo: nat, addrs: set<nat>)
    requires lo < |binds| && Seen(binds, lo + 1, !IsDatagram(binds[lo]), addrs)
    ensures Seen(binds, lo, !IsDatagram(binds[lo]), addrs)
  {
  }

  lemma DuplicatesNext(binds: seq<Listener>, lo: nat, idx: seq<nat>)
    requires lo < |binds| && Duplicates(binds, lo + 1, idx)
    ensures Duplicates(binds, lo, if IsLast(binds, lo) then idx else idx + [lo])
  {
    if !IsLast(binds, lo) {
      var more := idx + [lo];
      forall i | lo <= i < |binds| && !IsLast(binds, i)
        ensures i in more
      {
        if i == lo {
          assert more[|idx|] == lo;
        } else {
          assert i in idx;
        }
      }
    }
  }

  /** The backward scan with one address set per family. */
  method FindDuplicates(binds: seq<Listener>) returns (removeIdx: seq<nat>)
    ensures Duplicates(binds, 0, removeIdx)
  {
    var udpAddr: set<nat>, tcpAddr: set<nat> := {}, {};
    removeIdx := [];
    var idx := |binds|;
    while idx > 0
      invariant 0 <= idx <= |binds| && Duplicates(binds, idx, removeIdx)
      invariant Seen(binds, idx, true, udpAddr) && Seen(binds, idx, false, tcpAddr)
    {
      idx := idx - 1;
      DuplicatesNext(binds, idx, removeIdx);
      var addr := binds[idx].addr;
      if IsDatagram(binds[idx]) {
        SeenSame(binds, idx, udpAddr);
        SeenOther(binds, idx, tcpAddr);
        if addr in udpAddr {
          removeIdx := removeIdx + [idx];
        }
        udpAddr := udpAddr + {addr};
      } else {
        SeenSame(binds, idx, tcpAddr);
        SeenOther(binds, idx, udpAddr);
        if addr in tcpAddr {
          removeIdx := removeIdx + [idx];
        }
        tcpAddr := tcpAddr + {addr};
      }
    }
  }

  /** What is left after removing the duplicates from position `p` on. */
  function Trimmed(binds: seq<Listener>, p: nat): seq<Listener>
    requires p <= |binds|
  {
    binds[..p] + Survivors(binds, p)
  }

  /** Removing the next duplicate below `p`, at `q`, by position in the already shortened list. */
  lemma RemoveNext(binds: seq<Listener>, p: nat, q: nat)
    requires q < p <= |binds| && !IsLast(binds, q) && forall i :: q < i < p ==> IsLast(binds, i)
    ensures q < |Trimmed(binds, p)|
    ensures Trimmed(binds, p)[..q] + Trimmed(binds, p)[q + 1..] == Trimmed(binds, q)
  {
    RunOfSurvivors(binds, q + 1, p);
    CutOne(binds, p, q, Survivors(binds, p));
    assert Survivors(binds, q) == [] + Survivors(binds, q + 1);
  }

  lemma CutOne(binds: seq<Listener>, p: nat, q: nat, rest: seq<Listener>)
    requires q < p <= |binds|
    ensures var t := binds[..p] + rest; t[..q] + t[q + 1..] == binds[..q] + (binds[q + 1..p] + rest)
  {
    var t := binds[..p] + rest;
    assert t[..q] == binds[..q];
    assert t[q + 1..] == binds[q + 1..p] + rest;
  }

  method DedupBinds(binds: seq<Listener>) returns (r: seq<Listener>)
    ensures r == Survivors(binds, 0)
  {
    var removeIdx := FindDuplicates(binds);
    r := binds;
    ghost var p := |binds|;
    assert binds[..|binds|] + [] == binds;
    for k := 0 to |removeIdx|
      invariant p == if k == 0 then |binds| else removeIdx[k - 1]
      invariant p <= |binds| && r == Trimmed(binds, p)
    {
      var idx := removeIdx[k];
      forall i | idx < i < p
        ensures IsLast(binds, i)
      {
        NoneBetween(binds, removeIdx, k, i);
      }
      RemoveNext(binds, p, idx);
      r := r[..idx] + r[idx + 1..];
      p := idx;
    }
    forall i | 0 <= i < p
      ensures IsLast(binds, i)
    {
      NoneBetween(binds, removeIdx, |removeIdx|, i);
    }
    RunOfSurvivors(binds, 0, p);
    assert binds[0..p] == binds[..p];
  }

  lemma NoneBetween(binds: seq<Listener>, idx: seq<nat>, k: nat, i: nat)
    requires Duplicates(binds, 0, idx) && k <= |idx| && i < |binds|
    requires k > 0 ==> i < idx[k - 1]
    requires k < |idx| ==> idx[k] < i
    ensures IsLast(binds, i)
  {
    forall m | 0 <= m < |idx|
      ensures idx[m] != i
    {
      if m < k {
        assert idx[m] >= idx[k - 1];
      } else {
        assert idx[k] >= idx[m];
      }
    }
  }

  // ---------- Which listeners are left ----------

  predicate OverDatagrams(l: Listener) {
    l.transport == Udp || l.transport == Quic || l.transport == H3
  }

  predicate OverStreams(l: Listener) {
    l.transport == Tcp || l.transport == Tls || l.transport == Https
  }

  /** Two listeners that cannot share their address. */
  predicate Compete(a: Listener, b: Listener) {
    a.addr == b.addr && ((OverDatagrams(a) && OverDatagrams(b)) || (OverStreams(a) && OverStreams(b)))
  }

  lemma CompeteIsClash(a: Listener, b: Listener)
    ensures Clash(a, b) <==> Compete(a, b)
  {
  }

  /** No later listener competes. */
  ghost predicate Unrivalled(binds: seq<Listener>, i: nat)
    requires i < |binds|
  {
    forall j :: i < j < |binds| ==> !Compete(binds[i], binds[j])
  }

  lemma LastIffUnrivalled(binds: seq<Listener>, i: nat)
    requires i < |binds|
    ensures IsLast(binds, i) <==> Unrivalled(binds, i)
  {
    forall j | i < j < |binds|
      ensures Clash(binds[i], binds[j]) <==> Compete(binds[i], binds[j])
    {
      CompeteIsClash(binds[i], binds[j]);
    }
  }

  ghost predicate StandAt(binds: seq<Listener>, idx: seq<nat>, r: seq<Listener>) {
    |r| == |idx| && forall k :: 0 <= k < |idx| ==> idx[k] < |binds| && r[k] == binds[idx[k]]
  }

  lemma {:induction false} SurvivorsStandAt(binds: seq<Listener>, lo: nat, keep: nat -> bool)
    requires lo <= |binds| && forall i :: 0 <= i < |binds| ==> (keep(i) <==> IsLast(binds, i))
    ensures StandAt(binds, PositionsFrom(lo, |binds|, keep), Survivors(binds, lo))
    decreases |binds| - lo
  {
    if lo < |binds| {
      SurvivorsStandAt(binds, lo + 1, keep);
      var idx, rest := PositionsFrom(lo + 1, |binds|, keep), Survivors(binds, lo + 1);
      StandFront(binds, lo, idx, rest);
      assert [] + rest == rest;
    }
  }

  lemma StandFront(binds: seq<Listener>, lo: nat, idx: seq<nat>, r: seq<Listener>)
    requires lo < |binds| && StandAt(binds, idx, r)
    ensures StandAt(binds, [lo] + idx, [binds[lo]] + r)
  {
  }

  /** What is left is, in order, exactly the listeners with no later competitor: a datagram listener never displaces a
      stream listener on its address, nor the reverse. */
  lemma SurvivorsByPosition(binds: seq<Listener>) returns (idx: seq<nat>)
    ensures StandAt(binds, idx, Survivors(binds, 0)) && Increasing(idx)
    ensures forall i :: 0 <= i < |binds| ==> (i in idx <==> Unrivalled(binds, i))
  {
    var keep := (i: nat) => i < |binds| && IsLast(binds, i);
    idx := PositionsFrom(0, |binds|, keep);
    SurvivorsStandAt(binds, 0, keep);
    PositionsExact(0, |binds|, keep);
    forall i | 0 <= i < |binds|
      ensures i in idx <==> Unrivalled(binds, i)
    {
      LastIffUnrivalled(binds, i);
      assert i in idx ==> keep(i);
    }
  }
}
