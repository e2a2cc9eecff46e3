/** Embedding an IPv4 address in an IPv6 prefix, as 128-bit arithmetic. */
module Dns64 {
  import opened Dns
  import opened Arith

  const TWO64: nat := 0x1_0000_0000_0000_0000
  const TWO128: nat := 0x1_0000_0000_0000_0000_0000_0000_0000_0000

  function Pow2(n: nat): (p: nat)
    ensures p > 0
  {
    if n == 0 then 1 else 2 * Pow2(n - 1)
  }

  lemma DoubleProduct(x: nat, y: nat)
    ensures 2 * (x * y) == (2 * x) * y
  {
  }

  lemma {:induction false} Pow2Add(a: nat, b: nat)
    ensures Pow2(a + b) == Pow2(a) * Pow2(b)
  {
    if a > 0 {
      Pow2Add(a - 1, b);
      DoubleProduct(Pow2(a - 1), Pow2(b));
    }
  }

  lemma ByteShift(n: nat)
    ensures Pow2(n + 8) == 256 * Pow2(n)
  {
    assert Pow2(n + 2) == 4 * Pow2(n) by { assert Pow2(n + 1) == 2 * Pow2(n); }
    assert Pow2(n + 4) == 16 * Pow2(n) by { assert Pow2(n + 3) == 8 * Pow2(n); }
    assert Pow2(n + 6) == 64 * Pow2(n) by { assert Pow2(n + 5) == 32 * Pow2(n); }
    assert Pow2(n + 7) == 128 * Pow2(n);
  }

  lemma WordShift(n: nat)
    ensures Pow2(n + 32) == U32 * Pow2(n)
  {
    ByteShift(n);
    ByteShift(n + 8);
    ByteShift(n + 16);
    ByteShift(n + 24);
  }

  function Shl(x: nat, n: nat): nat {
    MulMono(0, x, Pow2(n));
    x * Pow2(n)
  }

  function Shr(x: nat, n: nat): nat {
    DivNonNegative(x, Pow2(n));
    x / Pow2(n)
  }

  /** The embedded address; `None` where a shift amount is out of range (no prefix, or no room for 32 bits). */
  function ToDns64(net: nat, prefix: nat, v4: nat): Option<nat> {
    if prefix == 0 || prefix > 96 then None
    else
      var suffix := 128 - prefix;
      Some(Shl(v4, suffix - 32) + Shl(Shr(net, suffix), suffix))
  }

  lemma Distribute(h: nat, v4: nat, t: nat)
    ensures v4 * t + h * (U32 * t) == (h * U32 + v4) * t
  {
    assert h * (U32 * t) == (h * U32) * t;
  }

  /** The arithmetic of the embedding, for any field position t and prefix position s = 2^32 * t. */
  lemma Embed(h: nat, v4: nat, s: nat, t: nat)
    requires t > 0 && s == U32 * t && v4 < U32
    ensures var r := v4 * t + h * s;
            r / s == h && (r / t) % U32 == v4 && r % t == 0 && v4 * t < s
  {
    var r := v4 * t + h * s;
    var x := h * U32 + v4;
    Distribute(h, v4, t);
    MulMono(v4 + 1, U32, t);
    assert (v4 + 1) * t == v4 * t + t;
    DivModUnique(x, U32, h, v4);
    DivModUnique(r, t, x, 0);
    MulMono(0, v4, t);
    DivModUnique(r, s, h, v4 * t);
  }

  /** Replacing the low part of a number below k * s keeps it below k * s. */
  lemma StaysBelow(net: nat, low: nat, s: nat, k: nat)
    requires s > 0 && net < k * s && low < s
    ensures low + (net / s) * s < k * s
  {
    var h := net / s;
    assert net == h * s + net % s;
    if h >= k {
      MulMono(k, h, s);
      assert false;
    }
    MulMono(h + 1, k, s);
    assert (h + 1) * s == h * s + s;
  }

  lemma AllBits(n: nat)
    requires n == 128
    ensures Pow2(n) == TWO128
  {
    WordShift(n - 32);
    WordShift(n - 64);
    WordShift(n - 96);
    WordShift(n - 128);
    assert Pow2(n - 128) == 1;
  }

  lemma Shape(net: nat, prefix: nat, v4: nat)
    requires 1 <= prefix <= 96
    ensures var s, t := Pow2(128 - prefix), Pow2(96 - prefix);
            s == U32 * t && ToDns64(net, prefix, v4) == Some(v4 * t + Shr(net, 128 - prefix) * s)
  {
    WordShift(96 - prefix);
  }

  lemma NoCarry(net: nat, prefix: nat, v4: nat)
    requires 1 <= prefix <= 96 && net < TWO128 && v4 < U32
    ensures ToDns64(net, prefix, v4).value < TWO128
  {
    var s, t := Pow2(128 - prefix), Pow2(96 - prefix);
    Shape(net, prefix, v4);
    Embed(Shr(net, 128 - prefix), v4, s, t);
    Pow2Add(prefix, 128 - prefix);
    AllBits(prefix + (128 - prefix));
    StaysBelow(net, v4 * t, s, Pow2(prefix));
  }

  /** For every prefix length 1..96: the top bits are the prefix, the next 32 bits the IPv4 address, the rest zero,
      and the sum stays below 2^128, so nothing carries. */
  lemma EmbeddingIsExact(net: nat, prefix: nat, v4: nat)
    requires 1 <= prefix <= 96 && net < TWO128 && v4 < U32
    ensures var r := ToDns64(net, prefix, v4).value;
            && Shr(r, 128 - prefix) == Shr(net, 128 - prefix)
            && Shr(r, 96 - prefix) % U32 == v4
            && r % Pow2(96 - prefix) == 0
            && r < TWO128
  {
    Shape(net, prefix, v4);
    Embed(Shr(net, 128 - prefix), v4, Pow2(128 - prefix), Pow2(96 - prefix));
    NoCarry(net, prefix, v4);
  }

  /** The IPv4 address can be read back, so distinct addresses stay distinct. */
  lemma EmbeddingIsReversible(net: nat, prefix: nat, a: nat, b: nat)
    requires 1 <= prefix <= 96 && net < TWO128 && a < U32 && b < U32
    requires ToDns64(net, prefix, a) == ToDns64(net, prefix, b)
    ensures a == b
  {
    EmbeddingIsExact(net, prefix, a);
    EmbeddingIsExact(net, prefix, b);
  }

  /** The layout of section 2.2 of RFC 6052 for lengths 32 to 64: the bits of the IPv4 address that fall beyond bit 64
      are moved past the reserved octet. */
  function Rfc6052(net: nat, prefix: nat, v4: nat): nat
    requires 32 <= prefix <= 64
  {
    var kept := prefix - 32;
    Shl(Shr(net, 128 - prefix), 128 - prefix) + Shr(v4, kept) * TWO64 + Shl(v4 % Pow2(kept), 88 - prefix)
  }

  /** Moving the low part down by a byte changes the number unless that part is zero. */
  lemma MovedByte(v4: nat, cut: nat, t: nat, u: nat)
    requires cut > 0 && u > 0 && t == 256 * u && cut * t == TWO64
    ensures v4 * t == (v4 / cut) * TWO64 + (v4 % cut) * u <==> v4 % cut == 0
  {
    var hi, lo := v4 / cut, v4 % cut;
    assert v4 == hi * cut + lo;
    assert v4 * t == hi * (cut * t) + lo * t;
    assert lo * t == 256 * (lo * u);
    if lo > 0 {
      MulMono(1, lo, u);
    }
  }

  /** For a prefix of 32 to 64 bits the code agrees with the standard exactly when no set bit of the IPv4 address falls
      beyond bit 64; for /32 that is always so. */
  lemma AgreesWithRfcIff(net: nat, prefix: nat, v4: nat)
    requires 32 <= prefix <= 64
    ensures ToDns64(net, prefix, v4) == Some(Rfc6052(net, prefix, v4)) <==> v4 % Pow2(prefix - 32) == 0
    ensures prefix == 32 ==> ToDns64(net, prefix, v4) == Some(Rfc6052(net, prefix, v4))
  {
    var cut, t, u := Pow2(prefix - 32), Pow2(96 - prefix), Pow2(88 - prefix);
    Pow2Add(prefix - 32, 96 - prefix);
    HalfBits(prefix - 32 + (96 - prefix));
    ByteShift(88 - prefix);
    MovedByte(v4, cut, t, u);
  }

  lemma HalfBits(n: nat)
    requires n == 64
    ensures Pow2(n) == TWO64
  {
    WordShift(n - 32);
    WordShift(n - 64);
    assert Pow2(n - 64) == 1;
  }

  /** For /96 the IPv4 address fills the last four octets, as the standard asks. */
  lemma SlashNinetySix(net: nat, prefix: nat, v4: nat)
    requires prefix == 96 && net < TWO128 && v4 < U32
    ensures var r := ToDns64(net, prefix, v4).value; r % U32 == v4 && r / U32 == net / U32
  {
    EmbeddingIsExact(net, prefix, v4);
    WordShift(96 - prefix);
    assert Pow2(96 - prefix) == 1;
  }

  /** The address 0.0.0.1 in the prefix 64:ff9b::/64 does not get the standard's layout. */
  lemma SlashSixtyFourDiffers(net: nat, prefix: nat)
    requires net == 0x64_ff9b_0000_0000_0000_0000_0000_0000 && prefix == 64
    ensures ToDns64(net, prefix, 1) != Some(Rfc6052(net, prefix, 1))
  {
    WordShift(prefix - 64);
    assert Pow2(prefix - 64) == 1;
    AgreesWithRfcIff(net, prefix, 1);
  }
}
