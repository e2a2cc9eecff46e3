/** Saving a cache and loading it again: the file format meets the cache. */
module CacheFiles {
  import opened Dns
  import opened Lru
  import opened CacheModel
  import opened CacheRuns
  import opened CacheCodec

  /** Group names as text and as bytes; the conversion is a library's. */
  datatype Text = Text(bytes: string -> seq<Byte>, chars: seq<Byte> -> string)

  ghost predicate Reversible(c: Codec<Response>, text: Text) {
    SelfDelimiting(c) && forall g :: c.utf8(text.bytes(g)) && text.chars(text.bytes(g)) == g
  }

  /** The message goes to the file without the group, which has a field of its own. */
  function Saved(text: Text, e: Entry): Stored<Response> {
    Stored(e.data.(group := None), if e.data.group.Some? then Some(text.bytes(e.data.group.value)) else None,
           e.validUntil, e.hits)
  }

  function Reloaded(text: Text, e: Stored<Response>): Loaded {
    Loaded(e.message.(group := if e.group.Some? then Some(text.chars(e.group.value)) else None), e.validUntil, e.hits)
  }

  /** All entries, shard by shard, most recently used first. */
  function Snapshot(shards: seq<Slots>): seq<Entry> {
    if shards == [] then [] else Snapshot(shards[..|shards| - 1]) + Values(shards[|shards| - 1])
  }

  function Values(slots: Slots): (r: seq<Entry>)
    ensures |r| == |slots| && forall i :: 0 <= i < |r| ==> r[i] == slots[i].value
  {
    seq(|slots|, i requires 0 <= i < |slots| => slots[i].value)
  }

  /** What goes to the file, entry `i` being written at `written(i)`. */
  function Items(text: Text, entries: seq<Entry>, written: nat -> nat): (r: seq<(Stored<Response>, nat)>)
    ensures |r| == |entries| && forall i :: 0 <= i < |r| ==> r[i] == (Saved(text, entries[i]), written(i))
  {
    seq(|entries|, i requires 0 <= i < |entries| => (Saved(text, entries[i]), written(i)))
  }

  /** Entries that the format can hold. */
  ghost predicate Writable(c: Codec<Response>, text: Text, e: Entry) {
    Storable(Saved(text, e)) && c.enc(Saved(text, e).message).Some?
  }

  lemma {:induction false} ExpectedAt(c: Codec<Response>, items: seq<(Stored<Response>, nat)>, clock: nat -> nat,
                                      n: nat, i: nat)
    requires forall k :: 0 <= k < |items| ==> c.enc(items[k].0.message).Some?
    requires i < |items|
    ensures |Expected(c, items, clock, n)| == |items|
    ensures Expected(c, items, clock, n)[i] == CacheCodec.Restored(items[i].0, items[i].1, clock(n + i))
    decreases |items|
  {
    var rest := items[1..];
    if rest != [] {
      ExpectedAt(c, rest, clock, n + 1, if i > 0 then i - 1 else 0);
    }
  }

  /** A saved entry as it is loaded: the same response, group included, and the same hits, for at most the time that was
      left. */
  ghost predicate ComesBack(e: Entry, written: nat, read: nat, item: Loaded) {
    && item.data == e.data && item.hits == e.hits
    && read <= item.validUntil
    && item.validUntil - read <= (if e.validUntil > written then e.validUntil - written else 0)
  }

  lemma EntryComesBack(text: Text, c: Codec<Response>, e: Entry, written: nat, read: nat)
    requires Reversible(c, text)
    ensures ComesBack(e, written, read, Reloaded(text, CacheCodec.Restored(Saved(text, e), written, read)))
  {
    LifetimeNeverExtended(Saved(text, e), written, read);
    var r := CacheCodec.Restored(Saved(text, e), written, read);
    assert r.message.(group := e.data.group) == e.data;
  }

  function LoadedFrom(text: Text, entries: seq<Stored<Response>>): (r: seq<Loaded>)
    ensures |r| == |entries| && forall i :: 0 <= i < |r| ==> r[i] == Reloaded(text, entries[i])
  {
    seq(|entries|, i requires 0 <= i < |entries| => Reloaded(text, entries[i]))
  }

  ghost predicate AllComeBack(entries: seq<Entry>, written: nat -> nat, clock: nat -> nat, items: seq<Loaded>) {
    |items| == |entries| && forall i :: 0 <= i < |entries| ==> ComesBack(entries[i], written(i), clock(i), items[i])
  }

  ghost predicate AllWritable(c: Codec<Response>, text: Text, entries: seq<Entry>) {
    forall i :: 0 <= i < |entries| ==> Writable(c, text, entries[i])
  }

  lemma ItemsAreStorable(c: Codec<Response>, text: Text, entries: seq<Entry>, written: nat -> nat)
    requires Reversible(c, text) && AllWritable(c, text, entries)
    ensures var items := Items(text, entries, written);
            forall k :: 0 <= k < |items| ==>
              && Storable(items[k].0) && (items[k].0.group.Some? ==> c.utf8(items[k].0.group.value))
              && c.enc(items[k].0.message).Some?
  {
    var items := Items(text, entries, written);
    forall k | 0 <= k < |items|
      ensures Storable(items[k].0) && (items[k].0.group.Some? ==> c.utf8(items[k].0.group.value))
      ensures c.enc(items[k].0.message).Some?
    {
      assert Writable(c, text, entries[k]);
    }
  }

  lemma BackAt(c: Codec<Response>, text: Text, entries: seq<Entry>, written: nat -> nat, clock: nat -> nat, i: nat)
    requires Reversible(c, text) && AllWritable(c, text, entries) && i < |entries|
    ensures var back := Expected(c, Items(text, entries, written), clock, 0);
            |back| == |entries| && ComesBack(entries[i], written(i), clock(i), Reloaded(text, back[i]))
  {
    ItemsAreStorable(c, text, entries, written);
    var items := Items(text, entries, written);
    ExpectedAt(c, items, clock, 0, i);
    assert items[i] == (Saved(text, entries[i]), written(i)) && clock(0 + i) == clock(i);
    EntryComesBack(text, c, entries[i], written(i), clock(i));
  }

  lemma ExpectedComesBack(c: Codec<Response>, text: Text, entries: seq<Entry>, written: nat -> nat, clock: nat -> nat)
    requires Reversible(c, text) && AllWritable(c, text, entries)
    ensures AllComeBack(entries, written, clock,
                        LoadedFrom(text, Expected(c, Items(text, entries, written), clock, 0)))
  {
    var back := Expected(c, Items(text, entries, written), clock, 0);
    if entries != [] {
      BackAt(c, text, entries, written, clock, 0);
    }
    forall i | 0 <= i < |entries|
      ensures ComesBack(entries[i], written(i), clock(i), LoadedFrom(text, back)[i])
    {
      BackAt(c, text, entries, written, clock, i);
    }
  }

  /** Saving any list of entries and decoding the file gives them all back, in order. */
  lemma SavedComesBack(c: Codec<Response>, text: Text, entries: seq<Entry>, written: nat -> nat, clock: nat -> nat)
    requires Reversible(c, text) && AllWritable(c, text, entries)
    ensures var r := DecodeAll(c, SerializeMany(c, Items(text, entries, written)), clock, 0);
            r.Some? && AllComeBack(entries, written, clock, LoadedFrom(text, r.value))
  {
    ItemsAreStorable(c, text, entries, written);
    FileRoundTrip(c, Items(text, entries, written), clock, 0);
    ExpectedComesBack(c, text, entries, written, clock);
  }

  // ---------- A whole cache ----------

  lemma {:induction false} SnapshotMember(shards: seq<Slots>, i: nat) returns (k: nat, j: nat)
    requires i < |Snapshot(shards)|
    ensures k < |shards| && j < |shards[k]| && Snapshot(shards)[i] == shards[k][j].value
  {
    var n := |shards| - 1;
    var rest := Snapshot(shards[..n]);
    if i < |rest| {
      k, j := SnapshotMember(shards[..n], i);
    } else {
      k, j := n, i - |rest|;
    }
  }

  /** The key that an entry of the snapshot is stored under. */
  lemma SnapshotIsResident(cfg: Config, s: State, i: nat) returns (q: Query)
    requires Sound(cfg, s) && i < |Snapshot(s.shards)|
    ensures Lookup(cfg, s.shards, q) == Some(Snapshot(s.shards)[i])
  {
    var k, j := SnapshotMember(s.shards, i);
    assert ShardOk(cfg, k, s.shards[k]);
    FindAt(s.shards[k], j);
    q := s.shards[k][j].key;
  }

  /** The denials of a run answer the query they are cached under. */
  ghost predicate OwnDenials(ops: seq<Op>) {
    forall i :: 0 <= i < |ops| && ops[i].Negative? ==> ops[i].response.query == ops[i].query
  }

  lemma {:induction false} LoadWritesOwn(last: map<Query, Write>, items: seq<Loaded>)
    requires forall q :: q in last ==> last[q].data.query == q
    ensures forall q :: q in LastAfterLoad(last, items) ==> LastAfterLoad(last, items)[q].data.query == q
  {
    if items != [] {
      LoadWritesOwn(last, items[..|items| - 1]);
    }
  }

  lemma {:induction false} WritesOwn(ops: seq<Op>)
    requires OwnDenials(ops)
    ensures forall q :: q in LastWrites(ops) ==> LastWrites(ops)[q].data.query == q
  {
    if ops != [] {
      var init := ops[..|ops| - 1];
      assert OwnDenials(init) by {
        assert forall i :: 0 <= i < |init| ==> init[i] == ops[i];
      }
      WritesOwn(init);
      if ops[|ops| - 1].Load? {
        LoadWritesOwn(LastWrites(init), ops[|ops| - 1].items);
      }
    }
  }

  /** In every reachable state of a run whose denials carry their own query, so does every resident entry. */
  lemma EntriesCarryTheirQuery(cfg: Config, ops: seq<Op>, s: State, q: Query)
    requires ValidConfig(cfg) && Steps(cfg, Init(cfg), ops, s) && OwnDenials(ops)
    requires Shaped(cfg, s) && Lookup(cfg, s.shards, q).Some?
    ensures Lookup(cfg, s.shards, q).value.data.query == q
  {
    RunRefines(cfg, ops, s);
    WritesOwn(ops);
    assert Faithful(LastWrites(ops), s.heap, q, Lookup(cfg, s.shards, q).value);
  }

  /** What is resident after a load into an empty cache is one of the items. */
  lemma {:induction false} AdmittedIsItem(cfg: Config, items: seq<Loaded>, q: Query) returns (i: nat)
    requires ValidConfig(cfg) && Lookup(cfg, AdmitAll(cfg, Init(cfg), items).shards, q).Some?
    ensures i < |items| && items[i].data.query == q
    ensures Lookup(cfg, AdmitAll(cfg, Init(cfg), items).shards, q).value == LoadedEntry(items[i])
  {
    InitRefines(cfg);
    EmptyLookup(cfg, q);
    var n := |items| - 1;
    var before := AdmitAll(cfg, Init(cfg), items[..n]);
    AdmitAllIsSound(cfg, Init(cfg), items[..n]);
    LookupAfterAdmit(cfg, before, items[n].data.query, LoadedEntry(items[n]), q);
    if items[n].data.query == q {
      i := n;
    } else {
      i := AdmittedIsItem(cfg, items[..n], q);
    }
  }

  lemma LoadedIsItem(cfg: Config, items: seq<Loaded>, s: State, q: Query) returns (i: nat)
    requires ValidConfig(cfg) && Step(cfg, Init(cfg), Load(items), s) && Shaped(cfg, s)
    requires Lookup(cfg, s.shards, q).Some?
    ensures i < |items| && items[i].data.query == q && Lookup(cfg, s.shards, q).value == LoadedEntry(items[i])
  {
    InitRefines(cfg);
    AdmitAllIsSound(cfg, Init(cfg), items);
    EnforcedIsSound(cfg, AdmitAll(cfg, Init(cfg), items), s);
    i := AdmittedIsItem(cfg, items, q);
  }

  /** A loaded entry is one of the saved ones: the same response and hits, for at most the time that was left, under the
      query that the response carries. */
  ghost predicate FromSaved(e: Entry, saved: Entry, q: Query, written: nat, read: nat) {
    && saved.data.query == q && e.data == saved.data && e.hits == saved.hits && !e.inPrefetch
    && read <= e.validUntil
    && e.validUntil - read <= (if saved.validUntil > written then saved.validUntil - written else 0)
  }

  /** The file that a cache in state `s` is saved as, decoded. */
  ghost function ReadBack(c: Codec<Response>, text: Text, s: State, written: nat -> nat, clock: nat -> nat)
    : Option<seq<Stored<Response>>>
  {
    DecodeAll(c, SerializeMany(c, Items(text, Snapshot(s.shards), written)), clock, 0)
  }

  /** Saving any reachable cache, decoding the file and loading it into an empty cache of whatever size: whatever is
      then resident was resident before, with the same response and hits and no more time than was left; and under the
      same query, if the denials of the run carried their own. */
  lemma SaveThenLoad(c: Codec<Response>, text: Text, cfg: Config, ops: seq<Op>, s: State, written: nat -> nat,
                     clock: nat -> nat, cfg': Config, s': State, q: Query)
    returns (q0: Query, i: nat)
    requires ValidConfig(cfg) && Steps(cfg, Init(cfg), ops, s) && Shaped(cfg, s)
    requires Reversible(c, text) && AllWritable(c, text, Snapshot(s.shards)) && ValidConfig(cfg') && Shaped(cfg', s')
    requires var back := ReadBack(c, text, s, written, clock);
             back.Some? ==> Step(cfg', Init(cfg'), Load(LoadedFrom(text, back.value)), s')
    requires Lookup(cfg', s'.shards, q).Some?
    ensures ReadBack(c, text, s, written, clock).Some?
    ensures Lookup(cfg, s.shards, q0).Some?
    ensures FromSaved(Lookup(cfg', s'.shards, q).value, Lookup(cfg, s.shards, q0).value, q, written(i), clock(i))
    ensures OwnDenials(ops) ==> q0 == q
  {
    var entries := Snapshot(s.shards);
    SavedComesBack(c, text, entries, written, clock);
    var items := LoadedFrom(text, ReadBack(c, text, s, written, clock).value);
    i := LoadedIsItem(cfg', items, s', q);
    assert ComesBack(entries[i], written(i), clock(i), items[i]);
    RunRefines(cfg, ops, s);
    q0 := SnapshotIsResident(cfg, s, i);
    if OwnDenials(ops) {
      EntriesCarryTheirQuery(cfg, ops, s, q0);
    }
  }
}
