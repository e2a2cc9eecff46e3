/** The cache file: a plain concatenation of tagged entries, for any self-delimiting message codec. */
module CacheCodec {
  import opened Dns
  import opened Arith

  newtype Byte = x: int | 0 <= x < 256

  /** The DNS message codec and the test for valid UTF-8, both outside this model. */
  datatype Codec<!M> = Codec(enc: M -> Option<seq<Byte>>, dec: seq<Byte> -> Option<(M, nat)>, utf8: seq<Byte> -> bool)

  datatype Stored<M> = Stored(message: M, group: Option<seq<Byte>>, validUntil: nat, hits: nat)

  /** Decoding stops exactly where encoding stopped, whatever follows. */
  ghost predicate Delimits<M>(c: Codec<M>, m: M, rest: seq<Byte>) {
    c.enc(m).Some? ==> c.dec(c.enc(m).value + rest) == Some((m, |c.enc(m).value|))
  }

  ghost predicate SelfDelimiting<M(!new)>(c: Codec<M>) {
    forall m, rest :: Delimits(c, m, rest)
  }

  // ---------- Fields ----------

  /** The low `n` bytes of `x`, big-endian, as `emit_u16` and `emit_u32` write a cast integer. */
  function Digits(x: nat, n: nat): (d: seq<Byte>)
    ensures |d| == n
    decreases x + n
  {
    if n == 0 then [] else Digits(x / 256, n - 1) + [(x % 256) as Byte]
  }

  function Value(d: seq<Byte>): nat {
    if d == [] then 0
    else
      Value(d[..|d| - 1]) * 256 + d[|d| - 1] as nat
  }

  function Power256(n: nat): (p: nat)
    ensures p > 0
  {
    if n == 0 then 1 else 256 * Power256(n - 1)
  }

  lemma LowDigit(x: nat, p: nat)
    requires p > 0
    ensures (x / 256 % p) * 256 + x % 256 == x % (256 * p)
  {
    var y := x / 256;
    var r := (y % p) * 256 + x % 256;
    assert y == (y / p) * p + y % p;
    assert x == (y / p) * (256 * p) + r;
    DivModUnique(x, 256 * p, y / p, r);
  }

  lemma {:induction false} DigitsValue(x: nat, n: nat)
    ensures Value(Digits(x, n)) == x % Power256(n)
    decreases n
  {
    if n > 0 {
      DigitsValue(x / 256, n - 1);
      var d := Digits(x, n);
      assert d[..n - 1] == Digits(x / 256, n - 1);
      LowDigit(x, Power256(n - 1));
    }
  }

  lemma {:induction false} ValueBound(d: seq<Byte>)
    ensures Value(d) < Power256(|d|)
  {
    if d != [] {
      ValueBound(d[..|d| - 1]);
    }
  }

  lemma Widths()
    ensures Power256(2) == U16 && Power256(4) == U32
  {
    assert Power256(1) == 256 && Power256(2) == 256 * Power256(1) && Power256(3) == 256 * Power256(2);
  }

  /** A parsed value and the bytes that follow it. */
  type Parsed<T> = Option<(T, seq<Byte>)>

  function ReadTag(data: seq<Byte>, tag: Byte): Option<seq<Byte>> {
    if data != [] && data[0] == tag then Some(data[1..]) else None
  }

  function ReadUint(data: seq<Byte>, n: nat): (r: Parsed<nat>)
    ensures r.Some? ==> r.value.0 < Power256(n) && |data| == n + |r.value.1|
  {
    if |data| < n then None else ValueBound(data[..n]); Some((Value(data[..n]), data[n..]))
  }

  lemma Assoc<T>(a: seq<T>, b: seq<T>, c: seq<T>)
    ensures a + b + c == a + (b + c)
  {
  }

  lemma TakeDrop<T>(a: seq<T>, b: seq<T>)
    ensures (a + b)[..|a|] == a && (a + b)[|a|..] == b
  {
  }

  lemma UintRoundTrip(x: nat, n: nat, rest: seq<Byte>)
    ensures ReadUint(Digits(x, n) + rest, n) == Some((x % Power256(n), rest))
  {
    TakeDrop(Digits(x, n), rest);
    DigitsValue(x, n);
  }

  function TaggedU32(tag: Byte, x: nat): seq<Byte> {
    [tag] + Digits(x, 4)
  }

  function ReadTaggedU32(data: seq<Byte>, tag: Byte): (r: Parsed<nat>)
    ensures r.Some? ==> r.value.0 < U32 && |data| == 5 + |r.value.1|
  {
    var t := ReadTag(data, tag);
    Widths();
    if t.None? then None else ReadUint(t.value, 4)
  }

  lemma TaggedU32RoundTrip(tag: Byte, x: nat, rest: seq<Byte>)
    ensures ReadTaggedU32(TaggedU32(tag, x) + rest, tag) == Some((x % U32, rest))
  {
    Assoc([tag], Digits(x, 4), rest);
    TakeDrop([tag], Digits(x, 4) + rest);
    UintRoundTrip(x, 4, rest);
    Widths();
  }

  /** The group name with its 16-bit length; an absent name has length zero. */
  function GroupField(group: Option<seq<Byte>>): seq<Byte> {
    var name := if group.Some? then group.value else [];
    [3] + (Digits(|name|, 2) + name)
  }

  function ReadGroup<M>(c: Codec<M>, data: seq<Byte>): (r: Parsed<Option<seq<Byte>>>)
    ensures r.Some? ==> |r.value.1| < |data|
    ensures r.Some? && r.value.0.Some? ==> 0 < |r.value.0.value| < U16
  {
    var t := ReadTag(data, 3);
    if t.None? then None else
    Widths();
    var len := ReadUint(t.value, 2);
    if len.None? || |len.value.1| < len.value.0 then None else
    var name := len.value.1[..len.value.0];
    Some((if name != [] && c.utf8(name) then Some(name) else None, len.value.1[len.value.0..]))
  }

  lemma NameFromParts<M>(c: Codec<M>, data: seq<Byte>, name: seq<Byte>, rest: seq<Byte>)
    requires ReadTag(data, 3).Some? && ReadUint(ReadTag(data, 3).value, 2) == Some((|name|, name + rest))
    ensures ReadGroup(c, data) == Some((if name != [] && c.utf8(name) then Some(name) else None, rest))
  {
    TakeDrop(name, rest);
  }

  lemma GroupRoundTrip<M>(c: Codec<M>, group: Option<seq<Byte>>, rest: seq<Byte>)
    requires group.Some? ==> 0 < |group.value| < U16 && c.utf8(group.value)
    ensures ReadGroup(c, GroupField(group) + rest) == Some((group, rest))
  {
    var name := if group.Some? then group.value else [];
    var len := Digits(|name|, 2);
    var data: seq<Byte> := GroupField(group) + rest;
    assert data == [3] + (len + (name + rest)) by {
      Assoc<Byte>([3], len + name, rest);
      Assoc(len, name, rest);
    }
    TakeDrop<Byte>([3], len + (name + rest));
    assert ReadTag(data, 3) == Some(len + (name + rest));
    UintRoundTrip(|name|, 2, name + rest);
    assert |name| % Power256(2) == |name| by {
      Widths();
    }
    NameFromParts(c, data, name, rest);
  }

  // ---------- One entry ----------

  /** Whole seconds left at `now`. */
  function Remaining(validUntil: nat, now: nat): nat {
    if validUntil > now then (validUntil - now) / SECOND else 0
  }

  /** Everything after the message. */
  function EmitTail<M>(e: Stored<M>, now: nat): seq<Byte> {
    TaggedU32(2, Remaining(e.validUntil, now)) + (GroupField(e.group) + TaggedU32(4, e.hits))
  }

  function Emit<M>(c: Codec<M>, e: Stored<M>, now: nat): Option<seq<Byte>> {
    var m := c.enc(e.message);
    if m.Some? then Some([1] + (m.value + EmitTail(e, now))) else None
  }

  function ReadTail<M>(c: Codec<M>, message: M, data: seq<Byte>, now: nat): (r: Parsed<Stored<M>>)
    ensures r.Some? ==> |r.value.1| < |data|
    ensures r.Some? ==> Storable(r.value.0)
  {
    var ttl := ReadTaggedU32(data, 2);
    if ttl.None? then None else
    var group := ReadGroup(c, ttl.value.1);
    if group.None? then None else
    var hits := ReadTaggedU32(group.value.1, 4);
    if hits.None? then None else
    Some((Stored(message, group.value.0, now + ttl.value.0 * SECOND, hits.value.0), hits.value.1))
  }

  function ReadMessage<M>(c: Codec<M>, data: seq<Byte>): (r: Parsed<M>)
    ensures r.Some? ==> |r.value.1| < |data|
  {
    var t := ReadTag(data, 1);
    if t.None? then None else
    var m := c.dec(t.value);
    if m.None? || m.value.1 > |t.value| then None else Some((m.value.0, t.value[m.value.1..]))
  }

  /** The entry and the number of bytes it took. */
  function Read<M>(c: Codec<M>, data: seq<Byte>, now: nat): (r: Option<(Stored<M>, nat)>)
    ensures r.Some? ==> 0 < r.value.1 <= |data| && Storable(r.value.0)
  {
    var m := ReadMessage(c, data);
    if m.None? then None else
    var tail := ReadTail(c, m.value.0, m.value.1, now);
    if tail.None? then None else Some((tail.value.0, |data| - |tail.value.1|))
  }

  /** The entries that survive the format: a group name that is absent or non-empty and short, hits in 32 bits. */
  ghost predicate Storable<M>(e: Stored<M>) {
    (e.group.Some? ==> 0 < |e.group.value| < U16) && e.hits < U32
  }

  /** An entry as it comes back: the lifetime restarts from the whole seconds that were left when it was written. */
  function Restored<M>(e: Stored<M>, written: nat, read: nat): Stored<M> {
    e.(validUntil := read + (Remaining(e.validUntil, written) % U32) * SECOND)
  }

  lemma TailFromFields<M>(c: Codec<M>, message: M, d0: seq<Byte>, ttl: nat, d1: seq<Byte>, group: Option<seq<Byte>>,
                          d2: seq<Byte>, hits: nat, rest: seq<Byte>, now: nat)
    requires ReadTaggedU32(d0, 2) == Some((ttl, d1))
    requires ReadGroup(c, d1) == Some((group, d2))
    requires ReadTaggedU32(d2, 4) == Some((hits, rest))
    ensures ReadTail(c, message, d0, now) == Some((Stored(message, group, now + ttl * SECOND, hits), rest))
  {
  }

  /** The three trailing fields, read back from any field bytes. */
  lemma TailRoundTrip<M>(c: Codec<M>, message: M, ttl: nat, group: Option<seq<Byte>>, hits: nat, now: nat,
                         rest: seq<Byte>)
    requires group.Some? ==> 0 < |group.value| < U16 && c.utf8(group.value)
    ensures ReadTail(c, message, TaggedU32(2, ttl) + (GroupField(group) + TaggedU32(4, hits)) + rest, now) ==
              Some((Stored(message, group, now + (ttl % U32) * SECOND, hits % U32), rest))
  {
    var d2 := TaggedU32(4, hits) + rest;
    var d1 := GroupField(group) + d2;
    var d0 := TaggedU32(2, ttl) + d1;
    Assoc(TaggedU32(2, ttl), GroupField(group) + TaggedU32(4, hits), rest);
    Assoc(GroupField(group), TaggedU32(4, hits), rest);
    TaggedU32RoundTrip(2, ttl, d1);
    GroupRoundTrip(c, group, d2);
    TaggedU32RoundTrip(4, hits, rest);
    TailFromFields(c, message, d0, ttl % U32, d1, group, d2, hits % U32, rest, now);
  }

  lemma SmallMod(x: nat)
    requires x < U32
    ensures x % U32 == x
  {
  }

  lemma TailRestores<M>(c: Codec<M>, e: Stored<M>, written: nat, read: nat, rest: seq<Byte>)
    requires Storable(e) && (e.group.Some? ==> c.utf8(e.group.value))
    ensures ReadTail(c, e.message, EmitTail(e, written) + rest, read) == Some((Restored(e, written, read), rest))
  {
    var ttl := Remaining(e.validUntil, written);
    TailRoundTrip(c, e.message, ttl, e.group, e.hits, read, rest);
    SmallMod(e.hits);
    assert Stored(e.message, e.group, read + (ttl % U32) * SECOND, e.hits) == Restored(e, written, read);
  }

  lemma MessageRoundTrip<M(!new)>(c: Codec<M>, message: M, m: seq<Byte>, tail: seq<Byte>)
    requires SelfDelimiting(c) && c.enc(message) == Some(m)
    ensures ReadMessage(c, [1] + (m + tail)) == Some((message, tail))
  {
    TakeDrop([1], m + tail);
    assert Delimits(c, message, tail);
    TakeDrop(m, tail);
  }

  lemma ReadFromParts<M>(c: Codec<M>, data: seq<Byte>, message: M, tail: seq<Byte>, e: Stored<M>, rest: seq<Byte>,
                         now: nat)
    requires ReadMessage(c, data) == Some((message, tail))
    requires ReadTail(c, message, tail, now) == Some((e, rest))
    ensures Read(c, data, now) == Some((e, |data| - |rest|))
  {
  }

  lemma ReadWithTail<M(!new)>(c: Codec<M>, message: M, b: seq<Byte>, tail: seq<Byte>, e: Stored<M>, rest: seq<Byte>,
                              now: nat)
    requires SelfDelimiting(c) && c.enc(message).Some? && b == [1] + (c.enc(message).value + tail)
    requires ReadTail(c, message, tail + rest, now) == Some((e, rest))
    ensures Read(c, b + rest, now) == Some((e, |b|))
  {
    var m := c.enc(message).value;
    assert b + rest == [1] + (m + (tail + rest)) by {
      Assoc<Byte>([1], m + tail, rest);
      Assoc<Byte>(m, tail, rest);
    }
    MessageRoundTrip(c, message, m, tail + rest);
    ReadFromParts(c, b + rest, message, tail + rest, e, rest, now);
  }

  lemma EntryRoundTrip<M(!new)>(c: Codec<M>, e: Stored<M>, written: nat, read: nat, rest: seq<Byte>)
    requires SelfDelimiting(c) && Storable(e) && (e.group.Some? ==> c.utf8(e.group.value))
    requires Emit(c, e, written).Some?
    ensures var b := Emit(c, e, written).value;
            Read(c, b + rest, read) == Some((Restored(e, written, read), |b|))
  {
    TailRestores(c, e, written, read, rest);
    ReadWithTail(c, e.message, Emit(c, e, written).value, EmitTail(e, written), Restored(e, written, read), rest, read);
  }

  /** An entry comes back with its group and hits exactly when they fit the format. */
  lemma RoundTripIffStorable<M(!new)>(c: Codec<M>, e: Stored<M>, written: nat, read: nat, rest: seq<Byte>)
    requires SelfDelimiting(c) && (e.group.Some? ==> c.utf8(e.group.value)) && Emit(c, e, written).Some?
    ensures var r := Read(c, Emit(c, e, written).value + rest, read);
            Storable(e) <==>
              r.Some? && r.value.0.message == e.message && r.value.0.group == e.group && r.value.0.hits == e.hits
  {
    if Storable(e) {
      EntryRoundTrip(c, e, written, read, rest);
    }
  }

  /** A lifetime is rounded down to whole seconds and never extended. */
  lemma LifetimeNeverExtended<M>(e: Stored<M>, written: nat, read: nat)
    ensures var left := if e.validUntil > written then e.validUntil - written else 0;
            var kept := Restored(e, written, read).validUntil - read;
            && kept <= left
            && (left < U32 * SECOND ==> left - kept < SECOND)
  {
    var left := if e.validUntil > written then e.validUntil - written else 0;
    var secs := Remaining(e.validUntil, written);
    assert secs == left / SECOND;
    assert secs % U32 <= secs;
    if left < U32 * SECOND {
      assert secs < U32;
    }
  }

  /** Four bytes, most significant first. */
  function Bytes4(x: nat): seq<Byte> {
    [(x / 0x100_0000 % 256) as Byte, (x / 0x1_0000 % 256) as Byte, (x / 0x100 % 256) as Byte, (x % 256) as Byte]
  }

  function Bytes2(x: nat): seq<Byte> {
    [(x / 0x100 % 256) as Byte, (x % 256) as Byte]
  }

  lemma DigitsLayout(x: nat)
    ensures Digits(x, 2) == Bytes2(x) && Digits(x, 4) == Bytes4(x)
  {
    DigitStep(x, 1);
    DigitStep(x, 3);
    DigitStep(x / 256, 0);
    DigitStep(x / 256, 2);
    DigitStep(x / 256 / 256, 1);
    DigitStep(x / 256 / 256 / 256, 0);
    assert x / 256 / 256 == x / 0x1_0000 && x / 256 / 256 / 256 == x / 0x100_0000;
  }

  lemma DigitStep(x: nat, n: nat)
    ensures Digits(x, n + 1) == Digits(x / 256, n) + [(x % 256) as Byte]
    ensures Digits(x, 0) == []
  {
  }

  /** The bytes of an entry: 1 and the message; 2 and the whole seconds left; 3, the length of the group name and the
      name; 4 and the hits. Integers are big-endian. */
  lemma EntryLayout<M>(c: Codec<M>, e: Stored<M>, now: nat)
    requires c.enc(e.message).Some?
    ensures var name := if e.group.Some? then e.group.value else [];
            var left := if e.validUntil > now then (e.validUntil - now) / SECOND else 0;
            Emit(c, e, now) ==
              Some([1] + (c.enc(e.message).value
                          + (([2] + Bytes4(left)) + (([3] + (Bytes2(|name|) + name)) + ([4] + Bytes4(e.hits))))))
  {
    DigitsLayout(Remaining(e.validUntil, now));
    DigitsLayout(if e.group.Some? then |e.group.value| else 0);
    DigitsLayout(e.hits);
  }

  // ---------- Whole files ----------

  /** One write call per entry; an entry whose message cannot be encoded is skipped. */
  function SerializeMany<M>(c: Codec<M>, items: seq<(Stored<M>, nat)>): seq<Byte> {
    if items == [] then []
    else
      var b := Emit(c, items[0].0, items[0].1);
      (if b.Some? then b.value else []) + SerializeMany(c, items[1..])
  }

  /** The encoding loop: what is written after each entry, and what is still to come, add up to the whole file. */
  method WriteMany<M>(c: Codec<M>, items: seq<(Stored<M>, nat)>) returns (file: seq<Byte>)
    ensures file == SerializeMany(c, items)
  {
    file := [];
    assert items[0..] == items;
    for i := 0 to |items|
      invariant file + SerializeMany(c, items[i..]) == SerializeMany(c, items)
    {
      var b := Emit(c, items[i].0, items[i].1);
      ghost var rest := SerializeMany(c, items[i + 1..]);
      assert items[i..][1..] == items[i + 1..];
      Assoc(file, if b.Some? then b.value else [], rest);
      if b.Some? {
        file := file + b.value;
      } else {
        assert file + [] == file;
      }
    }
    assert items[|items|..] == [];
    assert file + [] == file;
  }

  /** A reader of one entry (given its number) that never takes more than is there, and never nothing. */
  ghost predicate Consumes<E(!new)>(read: (seq<Byte>, nat) -> Option<(E, nat)>) {
    forall data, i :: read(data, i).Some? ==> 0 < read(data, i).value.1 <= |data|
  }

  function DecodeWith<E(!new)>(read: (seq<Byte>, nat) -> Option<(E, nat)>, data: seq<Byte>, i: nat): Option<seq<E>>
    requires Consumes(read)
    decreases |data|
  {
    if data == [] then Some([])
    else
      var r := read(data, i);
      if r.None? then None
      else
        var rest := DecodeWith(read, data[r.value.1..], i + 1);
        if rest.None? then None else Some([r.value.0] + rest.value)
  }

  /** `Read` with the clock as it stands at the i-th entry. */
  function Reader<M(!new)>(c: Codec<M>, clock: nat -> nat): (seq<Byte>, nat) -> Option<(Stored<M>, nat)> {
    (data: seq<Byte>, i: nat) => Read(c, data, clock(i))
  }

  lemma ReaderConsumes<M(!new)>(c: Codec<M>, clock: nat -> nat)
    ensures Consumes(Reader(c, clock))
  {
    var read := Reader(c, clock);
    forall data, i | read(data, i).Some?
      ensures 0 < read(data, i).value.1 <= |data|
    {
      assert read(data, i) == Read(c, data, clock(i));
    }
  }

  function DecodeAll<M(!new)>(c: Codec<M>, data: seq<Byte>, clock: nat -> nat, i: nat): Option<seq<Stored<M>>> {
    ReaderConsumes(c, clock);
    DecodeWith(Reader(c, clock), data, i)
  }

  /** What a file of these items should read back as: the i-th encodable entry, restored at the i-th clock reading. */
  function Expected<M>(c: Codec<M>, items: seq<(Stored<M>, nat)>, clock: nat -> nat, i: nat): seq<Stored<M>> {
    if items == [] then []
    else if c.enc(items[0].0.message).None? then Expected(c, items[1..], clock, i)
    else [Restored(items[0].0, items[0].1, clock(i))] + Expected(c, items[1..], clock, i + 1)
  }

  lemma {:induction false} FileRoundTrip<M(!new)>(c: Codec<M>, items: seq<(Stored<M>, nat)>, clock: nat -> nat, i: nat)
    requires SelfDelimiting(c)
    requires forall k :: 0 <= k < |items| ==>
               Storable(items[k].0) && (items[k].0.group.Some? ==> c.utf8(items[k].0.group.value))
    ensures DecodeAll(c, SerializeMany(c, items), clock, i) == Some(Expected(c, items, clock, i))
  {
    if items != [] {
      var b := Emit(c, items[0].0, items[0].1);
      var rest := SerializeMany(c, items[1..]);
      if b.Some? {
        FileRoundTrip(c, items[1..], clock, i + 1);
        EntryRoundTrip(c, items[0].0, items[0].1, clock(i), rest);
        assert (b.value + rest)[|b.value|..] == rest;
      } else {
        FileRoundTrip(c, items[1..], clock, i);
        assert [] + rest == rest;
      }
    }
  }

  /** The whole result, given the entries read so far and what the rest decodes to. */
  function Resumed<E>(entries: seq<E>, rest: Option<seq<E>>): Option<seq<E>> {
    if rest.None? then None else Some(entries + rest.value)
  }

  lemma ResumeOne<E(!new)>(read: (seq<Byte>, nat) -> Option<(E, nat)>, data: seq<Byte>, offset: nat, i: nat,
                           entries: seq<E>)
    requires Consumes(read) && offset < |data|
    ensures var e := read(data[offset..], i);
            Resumed(entries, DecodeWith(read, data[offset..], i)) ==
              if e.None? then None
              else Resumed(entries + [e.value.0], DecodeWith(read, data[offset + e.value.1..], i + 1))
  {
    var e := read(data[offset..], i);
    if e.Some? {
      assert data[offset..][e.value.1..] == data[offset + e.value.1..];
      var rest := DecodeWith(read, data[offset + e.value.1..], i + 1);
      if rest.Some? {
        Assoc(entries, [e.value.0], rest.value);
      }
    }
  }

  /** The decoding loop: entry by entry until the data is used up; any bad entry rejects the whole file. */
  method DecodeLoop<E(!new)>(read: (seq<Byte>, nat) -> Option<(E, nat)>, data: seq<Byte>) returns (r: Option<seq<E>>)
    requires Consumes(read)
    ensures r == DecodeWith(read, data, 0)
  {
    var entries: seq<E> := [];
    var offset: nat, i: nat := 0, 0;
    ghost var whole := DecodeWith(read, data, 0);
    assert data[0..] == data;
    assert whole.Some? ==> [] + whole.value == whole.value;
    while offset < |data|
      invariant offset <= |data|
      invariant whole == Resumed(entries, DecodeWith(read, data[offset..], i))
    {
      ResumeOne(read, data, offset, i, entries);
      var e := read(data[offset..], i);
      if e.None? {
        return None;
      }
      offset, i := offset + e.value.1, i + 1;
      entries := entries + [e.value.0];
    }
    assert data[offset..] == [];
    assert entries + [] == entries;
    r := Some(entries);
  }

  method DeserializeMany<M(!new)>(c: Codec<M>, data: seq<Byte>, clock: nat -> nat) returns (r: Option<seq<Stored<M>>>)
    ensures r == DecodeAll(c, data, clock, 0)
  {
    ReaderConsumes(c, clock);
    r := DecodeLoop(Reader(c, clock), data);
  }

  // ---------- Entries that do not fit the format ----------

  /** An empty group name comes back as no group. */
  lemma EmptyGroupIsLost<M(!new)>(c: Codec<M>, message: M, validUntil: nat, written: nat, read: nat)
    requires SelfDelimiting(c) && c.enc(message).Some?
    ensures var e := Stored(message, Some([]), validUntil, 0);
            var r := Read(c, Emit(c, e, written).value, read);
            r.Some? && r.value.0.message == message && r.value.0.group == None
  {
    var e := Stored(message, Some([]), validUntil, 0);
    var e' := Stored(message, None, validUntil, 0);
    assert Emit(c, e, written) == Emit(c, e', written);
    EntryRoundTrip(c, e', written, read, []);
    assert Emit(c, e', written).value + [] == Emit(c, e', written).value;
  }

  /** 2^32 hits come back as none. */
  lemma HitsWrap<M(!new)>(c: Codec<M>, message: M, validUntil: nat, written: nat, read: nat)
    requires SelfDelimiting(c) && c.enc(message).Some?
    ensures var e := Stored(message, None, validUntil, U32);
            var r := Read(c, Emit(c, e, written).value, read);
            r.Some? && r.value.0.message == message && r.value.0.hits == 0
  {
    var e := Stored(message, None, validUntil, U32);
    var tail := EmitTail(e, written);
    TailRoundTrip(c, message, Remaining(validUntil, written), None, U32, read, []);
    assert tail + [] == tail;
    var b := Emit(c, e, written).value;
    assert b + [] == b;
    var e' := ReadTail(c, message, tail, read).value.0;
    ReadWithTail(c, message, b, tail, e', [], read);
  }
}
