/** Streams of bits packed into bytes, least significant bit first, and the bit buffers
    (bits, n_bits) with which the decoders read them. */
module BitStream {
  import opened Bits
  import opened Words

  /** The low n bits of x, the least significant first. */
  function BitsOf(x: nat, n: nat): (s: seq<bool>)
    ensures |s| == n
    decreases n
  {
    if n == 0 then [] else [x % 2 == 1] + BitsOf(x / 2, n - 1)
  }

  function ToNat(s: seq<bool>): nat
  {
    if s == [] then 0 else (if s[0] then 1 else 0) + 2 * ToNat(s[1..])
  }

  /** The bits of a sequence of bytes. */
  function Stream(src: seq<Byte>): (s: seq<bool>)
    ensures |s| == 8 * |src|
  {
    if src == [] then [] else Stream(src[..|src| - 1]) + BitsOf(src[|src| - 1], 8)
  }

  lemma {:induction false} ToNatBitsOf(x: nat, n: nat)
    ensures ToNat(BitsOf(x, n)) == Low(x, n)
    decreases n
  {
    if n > 0 {
      ToNatBitsOf(x / 2, n - 1);
    }
  }

  lemma {:induction false} BitsOfToNat(s: seq<bool>)
    ensures BitsOf(ToNat(s), |s|) == s
  {
    if s != [] {
      BitsOfToNat(s[1..]);
    }
  }

  lemma {:induction false} ToNatBound(s: seq<bool>)
    ensures ToNat(s) < Pow2(|s|)
  {
    if s != [] {
      ToNatBound(s[1..]);
    }
  }

  lemma {:induction false} ToNatAppend(s: seq<bool>, t: seq<bool>)
    ensures ToNat(s + t) == ToNat(s) + Shl(ToNat(t), |s|)
  {
    if s == [] {
      assert s + t == t;
    } else {
      ToNatAppend(s[1..], t);
      assert (s + t)[1..] == s[1..] + t;
    }
  }

  lemma {:induction false} ToNatSplit(s: seq<bool>, k: nat)
    requires k <= |s|
    ensures Low(ToNat(s), k) == ToNat(s[..k])
    ensures Shr(ToNat(s), k) == ToNat(s[k..])
    decreases k
  {
    if k == 0 {
      assert s[0..] == s;
    } else {
      ToNatSplit(s[1..], k - 1);
      assert s[..k][1..] == s[1..][..k - 1];
      assert s[k..] == s[1..][k - 1..];
    }
  }

  lemma {:induction false} StreamAppend(a: seq<Byte>, b: seq<Byte>)
    ensures Stream(a + b) == Stream(a) + Stream(b)
  {
    if b == [] {
      assert a + b == a && Stream(b) == [];
    } else {
      hide BitsOf;
      StreamAppend(a, b[..|b| - 1]);
      var last := BitsOf(b[|b| - 1], 8);
      assert (a + b)[..|a + b| - 1] == a + b[..|b| - 1];
      assert Stream(a + b) == Stream(a + b[..|b| - 1]) + last;
      Associates(Stream(a), Stream(b[..|b| - 1]), last);
    }
  }

  lemma Associates<T>(a: seq<T>, b: seq<T>, c: seq<T>)
    ensures (a + b) + c == a + (b + c)
  {
  }

  // ---------------- Bit buffers

  /** The variables (bits, nBits) hold exactly the bits s. */
  ghost predicate Holding(bits: nat, nBits: nat, s: seq<bool>)
  {
    nBits == |s| && bits == ToNat(s)
  }

  lemma HoldingBound(bits: nat, nBits: nat, s: seq<bool>)
    requires Holding(bits, nBits, s)
    ensures bits < Pow2(nBits)
    ensures s == BitsOf(bits, nBits)
  {
    ToNatBound(s);
    BitsOfToNat(s);
  }

  /** `bits |= b << n_bits; n_bits += 8`, on 32-bit words. */
  method AppendByte(bits: nat, nBits: nat, b: Byte, ghost s: seq<bool>) returns (bits': nat, nBits': nat)
    requires Holding(bits, nBits, s) && nBits <= 24
    ensures Holding(bits', nBits', s + BitsOf(b, 8))
  {
    hide And, Or, ToNat;
    AppendedByte(bits, nBits, b, s);
    bits', nBits' := OrNat(bits, Wrap(b * Pow2(nBits))), nBits + 8;
  }

  lemma AppendedByte(bits: nat, nBits: nat, b: Byte, s: seq<bool>)
    requires Holding(bits, nBits, s) && nBits <= 24
    ensures OrNat(bits, Wrap(b * Pow2(nBits))) == ToNat(s + BitsOf(b, 8))
  {
    hide And, Or;
    ToNatBound(s);
    ToNatAppend(s, BitsOf(b, 8));
    ToNatBitsOf(b, 8);
    ByteFits(b, nBits);
    ShlIsMul(b, nBits);
    OrDisjoint(bits, b, nBits);
  }

  lemma ByteFits(b: Byte, nBits: nat)
    requires nBits <= 24
    ensures Low(b, 8) == b
    ensures b * Pow2(nBits) < U32 && Wrap(b * Pow2(nBits)) == b * Pow2(nBits)
  {
    assert Low(b, 8) == b by {
      Pow2Values();
      ShrLow(b, 8);
      ShrBetween(b, 0, 8);
      ShlAdd(0, 0, 8);
    }
    assert b * Pow2(nBits) < U32 by {
      hide Pow2, Low;
      Pow2Values();
      Pow2Large();
      Pow2Mono(nBits, 24);
      Pow2Add(8, 24);
      MulBelow(b, 256, Pow2(nBits), Pow2(24));
    }
    DivModUnique(b * Pow2(nBits), U32, 0, b * Pow2(nBits));
  }

  lemma MulBelow(a: nat, a': nat, b: nat, b': nat)
    requires a < a' && 0 < b <= b'
    ensures a * b < a' * b'
  {
    assert a * b < a' * b;
    assert a' * b <= a' * b';
  }

  /** `bits & ((1 << n) - 1)`, then `bits >>= n; n_bits -= n`. */
  method TakeBits(bits: nat, nBits: nat, n: nat, ghost s: seq<bool>) returns (x: nat, bits': nat, nBits': nat)
    requires Holding(bits, nBits, s) && n <= nBits
    ensures x == ToNat(s[..n])
    ensures Holding(bits', nBits', s[n..])
  {
    hide And, ToNat, Low, Shr;
    ToNatSplit(s, n);
    AndMask(bits, n);
    LowIsMod(bits, n);
    ShrIsDiv(bits, n);
    x := AndNat(bits, Pow2(n) - 1);
    bits', nBits' := bits / Pow2(n), nBits - n;
  }
}
