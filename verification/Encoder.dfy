/** The deflate encoder of script/make-deflate.go: bits packed into bytes, stored blocks, and tokens
    in the fixed Huffman codes. */
module Encoder {
  import opened Options
  import opened Bits
  import opened Words
  import opened BitStream
  import opened Codes
  import opened Entries
  import opened Inflate
  import opened FixedValues

  // ---------------- Lengths and distances

  /** A symbol and its extra bits. */
  datatype Coded = Coded(code: nat, extra: nat, nExtra: nat)

  /** `(x >> n) + base` and `x & (2^n - 1)`. */
  function Split(x: nat, n: nat, base: nat): Coded
  {
    Coded(Shr(x, n) + base, AndNat(x, Pow2(n) - 1), n)
  }

  /** encodeLength; it panics for other lengths. */
  function EncodeLength(l: nat): Option<Coded>
  {
    if l < 3 then None
    else if l < 11 then Some(Split(l - 3, 0, 257))
    else if l < 19 then Some(Split(l - 11, 1, 265))
    else if l < 35 then Some(Split(l - 19, 2, 269))
    else if l < 67 then Some(Split(l - 35, 3, 273))
    else if l < 131 then Some(Split(l - 67, 4, 277))
    else if l < 258 then Some(Split(l - 131, 5, 281))
    else if l == 258 then Some(Coded(285, 0, 0))
    else None
  }

  /** encodeDistance; it panics for other distances. */
  function EncodeDistance(d: nat): Option<Coded>
  {
    if d < 1 then None
    else if d < 5 then Some(Split(d - 1, 0, 0))
    else if d < 9 then Some(Split(d - 5, 1, 4))
    else if d < 17 then Some(Split(d - 9, 2, 6))
    else if d < 33 then Some(Split(d - 17, 3, 8))
    else if d < 65 then Some(Split(d - 33, 4, 10))
    else if d < 129 then Some(Split(d - 65, 5, 12))
    else if d < 257 then Some(Split(d - 129, 6, 14))
    else if d < 513 then Some(Split(d - 257, 7, 16))
    else if d < 1025 then Some(Split(d - 513, 8, 18))
    else if d < 2049 then Some(Split(d - 1025, 9, 20))
    else if d < 4097 then Some(Split(d - 2049, 10, 22))
    else if d < 8193 then Some(Split(d - 4097, 11, 24))
    else if d < 16385 then Some(Split(d - 8193, 12, 26))
    else if d < 32769 then Some(Split(d - 16385, 13, 28))
    else None
  }

  /** Splitting off n extra bits loses nothing. */
  lemma SplitSum(x: nat, n: nat, base: nat)
    ensures var c := Split(x, n, base);
            c.nExtra == n && c.extra < Pow2(n) && c.code >= base && (c.code - base) * Pow2(n) + c.extra == x
  {
    hide And, Pow2, Low, Shr, Shl;
    AndMask(x, n);
    LowIsMod(x, n);
    ShrLow(x, n);
    ShlIsMul(Shr(x, n), n);
  }

  /** The symbol and extra bits say the length, by the table of section 3.2.5 of RFC 1951. */
  ghost predicate SaysLength(c: Coded, l: nat)
  {
    && 257 <= c.code < 286 && c.nExtra == ExtraLengthBits(c.code - 257) && c.extra < Pow2(c.nExtra)
    && LengthBase(c.code - 257) + c.extra == l
  }

  lemma LengthSaid(l: nat)
    ensures EncodeLength(l).Some? <==> 3 <= l <= 258
    ensures EncodeLength(l).Some? ==> SaysLength(EncodeLength(l).value, l)
  {
    hide Split;
    Pow2Values();
    if 3 <= l < 258 {
      var n, x, base := LengthGroup(l).0, LengthGroup(l).1, LengthGroup(l).2;
      assert EncodeLength(l) == Some(Split(x, n, base));
      SplitSum(x, n, base);
      LengthRow(l, Split(x, n, base));
    }
  }

  function LengthGroup(l: nat): (nat, nat, nat)
    requires 3 <= l < 258
  {
    if l < 11 then (0, l - 3, 257)
    else if l < 19 then (1, l - 11, 265)
    else if l < 35 then (2, l - 19, 269)
    else if l < 67 then (3, l - 35, 273)
    else if l < 131 then (4, l - 67, 277)
    else (5, l - 131, 281)
  }

  /** The rows of the table come in groups with the same number of extra bits. */
  lemma LengthRows(n: nat, k: nat, p: nat)
    requires n <= 5 && k < (if n == 0 then 8 else 4)
    requires p == if n == 0 then 1 else if n == 1 then 2 else if n == 2 then 4 else if n == 3 then 8 else if n == 4 then 16 else 32
    ensures var start := if n == 0 then 0 else 4 * n + 4;
            var first := if n == 0 then 3 else 4 * p + 3;
            ExtraLengthBits(start + k) == n && LengthBase(start + k) == first + k * p
  {
    if n == 0 {
      assert p == 1;
    } else if k == 0 {
    } else if k == 1 {
    } else if k == 2 {
    } else {
    }
  }

  lemma LengthRow(l: nat, c: Coded)
    requires 3 <= l < 258
    requires var (n, x, base) := LengthGroup(l);
             c.nExtra == n && c.extra < Pow2(n) && c.code >= base && (c.code - base) * Pow2(n) + c.extra == x
    ensures SaysLength(c, l)
  {
    hide LengthBase, ExtraLengthBits;
    var n, base := LengthGroup(l).0, LengthGroup(l).2;
    Pow2Values();
    var k := c.code - base;
    LengthRows(n, k, Pow2(n));
  }

  ghost predicate SaysDistance(c: Coded, d: nat)
  {
    && c.code < 30 && c.nExtra == ExtraDistanceBits(c.code) && c.extra < Pow2(c.nExtra)
    && DistanceBase(c.code) + c.extra == d
  }

  function DistanceGroup(d: nat): (nat, nat, nat)
    requires 1 <= d <= 32768
  {
    if d < 5 then (0, d - 1, 0)
    else if d < 9 then (1, d - 5, 4)
    else if d < 17 then (2, d - 9, 6)
    else if d < 33 then (3, d - 17, 8)
    else if d < 65 then (4, d - 33, 10)
    else if d < 129 then (5, d - 65, 12)
    else if d < 257 then (6, d - 129, 14)
    else if d < 513 then (7, d - 257, 16)
    else if d < 1025 then (8, d - 513, 18)
    else if d < 2049 then (9, d - 1025, 20)
    else if d < 4097 then (10, d - 2049, 22)
    else if d < 8193 then (11, d - 4097, 24)
    else if d < 16385 then (12, d - 8193, 26)
    else (13, d - 16385, 28)
  }

  lemma DistanceSaid(d: nat)
    ensures EncodeDistance(d).Some? <==> 1 <= d <= 32768
    ensures EncodeDistance(d).Some? ==> SaysDistance(EncodeDistance(d).value, d)
  {
    hide Split;
    if 1 <= d <= 32768 {
      var n, x, base := DistanceGroup(d).0, DistanceGroup(d).1, DistanceGroup(d).2;
      assert EncodeDistance(d) == Some(Split(x, n, base));
      SplitSum(x, n, base);
      DistanceRow(d, Split(x, n, base));
    }
  }

  lemma DistanceRows(n: nat, k: nat, p: nat)
    requires n <= 13 && k < (if n == 0 then 4 else 2) && p == PowerTo13(n)
    ensures var start := if n == 0 then 0 else 2 * n + 2;
            var first := if n == 0 then 1 else 2 * p + 1;
            ExtraDistanceBits(start + k) == n && DistanceBase(start + k) == first + k * p
  {
    if n == 0 {
      assert p == 1;
    } else if k == 0 {
    } else {
    }
  }

  function PowerTo13(n: nat): nat
    requires n <= 13
  {
    if n == 0 then 1 else if n == 1 then 2 else if n == 2 then 4 else if n == 3 then 8 else if n == 4 then 16 else if n == 5 then 32 else if n == 6 then 64 else if n == 7 then 128 else if n == 8 then 256 else if n == 9 then 512 else if n == 10 then 1024 else if n == 11 then 2048 else if n == 12 then 4096 else 8192
  }

  lemma PowersTo13(n: nat)
    requires n <= 13
    ensures Pow2(n) == PowerTo13(n)
  {
    Pow2Values();
    if n > 9 {
      Pow2Add(9, n - 9);
    }
  }

  lemma DistanceRow(d: nat, c: Coded)
    requires 1 <= d <= 32768
    requires var (n, x, base) := DistanceGroup(d);
             c.nExtra == n && c.extra < Pow2(n) && c.code >= base && (c.code - base) * Pow2(n) + c.extra == x
    ensures SaysDistance(c, d)
  {
    hide DistanceBase, ExtraDistanceBits, Pow2;
    var n, base := DistanceGroup(d).0, DistanceGroup(d).2;
    PowersTo13(n);
    var k := c.code - base;
    DistanceRows(n, k, Pow2(n));
  }

  // ---------------- Bit reversal

  /** reverse: the four bytes reversed one by one and put together in the other order. */
  function Reverse(x: Word, n: nat): nat
    requires n <= 32
  {
    Shr(Joined(x), 32 - n)
  }

  function Joined(x: nat): nat
  {
    Join(Reversed(x, 0), Reversed(x, 8), Reversed(x, 16), Reversed(x, 24))
  }

  function Join(a: nat, b: nat, c: nat, d: nat): nat
  {
    OrNat(OrNat(OrNat(a * 16777216, b * 65536), c * 256), d)
  }

  /** `reverse8[0xFF & (x >> k)]`. */
  function Reversed(x: nat, k: nat): (r: nat)
    ensures r < 256 && r == ReadMsb(Shr(x, k), 8)
  {
    hide And, Low, Shr;
    var y := Shr(x, k);
    AndMask(y, 8);
    AndCommutes(255, y);
    LowIsMod(y, 8);
    Pow2Values();
    ReadMsbLow(y, 8, 8);
    ReadMsbBound(y, 8);
    ShrLow(y, 8);
    Reverse8(AndNat(255, y))
  }

  lemma ReadMsbConcat(x: nat, a: nat, b: nat)
    ensures ReadMsb(x, a + b) == Shl(ReadMsb(x, a), b) + ReadMsb(Shr(x, a), b)
  {
    ReadMsbPrefix(x, a, a + b);
    ReadMsbSkip(x, a, b);
    ShrLow(ReadMsb(x, a + b), b);
  }

  lemma OrPieces(a: nat, b: nat, c: nat, d: nat)
    requires a < 256 && b < 256 && c < 256 && d < 256
    ensures Join(a, b, c, d) == a * 16777216 + b * 65536 + c * 256 + d
  {
    hide And;
    Pow2Values();
    Pow2Large();
    assert Pow2(24) == 16777216 by { Pow2Add(16, 8); }
    OrAligned(a * 16777216, b * 65536, 24);
    OrAligned(a * 16777216 + b * 65536, c * 256, 16);
    OrAligned(a * 16777216 + b * 65536 + c * 256, d, 8);
  }

  /** Reversal turns a code into the bits to write: the most significant bit comes first. */
  lemma ReverseReads(x: Word, n: nat)
    requires n <= 32
    ensures Reverse(x, n) == ReadMsb(x, n)
  {
    hide ReadMsb, Shr, Joined;
    JoinedReads(x);
    ReadMsbPrefix(x, n, 32);
  }

  lemma JoinedReads(x: nat)
    ensures Joined(x) == ReadMsb(x, 32)
  {
    hide ReadMsb, Join, Reversed;
    ReversedBound(x, 0);
    ReversedBound(x, 8);
    ReversedBound(x, 16);
    ReversedBound(x, 24);
    OrPieces(Reversed(x, 0), Reversed(x, 8), Reversed(x, 16), Reversed(x, 24));
    FourBytes(x);
  }

  lemma ReversedBound(x: nat, k: nat)
    ensures Reversed(x, k) < 256
  {
  }

  lemma FourBytes(x: nat)
    ensures ReadMsb(x, 32) == Reversed(x, 0) * 16777216 + Reversed(x, 8) * 65536 + Reversed(x, 16) * 256 + Reversed(x, 24)
  {
    hide ReadMsb, Shl, Shr;
    ReadMsbConcat(x, 8, 24);
    ReadMsbConcat(Shr(x, 8), 8, 16);
    ReadMsbConcat(Shr(x, 16), 8, 8);
    ShrShr(x, 8, 8);
    ShrShr(x, 16, 8);
    ShlIsMul(ReadMsb(x, 8), 24);
    ShlIsMul(ReadMsb(Shr(x, 8), 8), 16);
    ShlIsMul(ReadMsb(Shr(x, 16), 8), 8);
    Pow2Values();
    Pow2Large();
    Pow2Add(16, 8);
    ShrNone(x);
  }

  lemma ShrNone(x: nat)
    ensures Shr(x, 0) == x
  {
  }

  // ---------------- Packing bits into bytes

  lemma {:induction false} BitsOfSplit(x: nat, a: nat, b: nat)
    ensures BitsOf(x, a + b) == BitsOf(x, a) + BitsOf(Shr(x, a), b)
    decreases a
  {
    if a == 0 {
      assert BitsOf(x, 0) == [];
    } else {
      BitsOfSplit(x / 2, a - 1, b);
      Associates([x % 2 == 1], BitsOf(x / 2, a - 1), BitsOf(Shr(x, a), b));
    }
  }

  lemma {:induction false} BitsOfLow(x: nat, y: nat, n: nat)
    requires Low(x, n) == Low(y, n)
    ensures BitsOf(x, n) == BitsOf(y, n)
    decreases n
  {
    if n > 0 {
      assert x % 2 == y % 2 && Low(x / 2, n - 1) == Low(y / 2, n - 1);
      BitsOfLow(x / 2, y / 2, n - 1);
    }
  }

  /** Appending y above k bits. */
  lemma BitsOfSum(x: nat, k: nat, y: nat, n: nat)
    requires x < Pow2(k)
    ensures BitsOf(x + Shl(y, k), k + n) == BitsOf(x, k) + BitsOf(y, n)
  {
    var z := x + Shl(y, k);
    hide BitsOf;
    BitsOfSplit(z, k, n);
    ShlAdd(y, 1, k);
    ShlOne(k);
    ShrBetween(z, y, k);
    ShrLow(z, k);
    LowSmall(x, k);
    BitsOfLow(z, x, k);
  }

  lemma {:induction false} LowLow(x: nat, m: nat, n: nat)
    requires n <= m
    ensures Low(Low(x, m), n) == Low(x, n)
    decreases n
  {
    if n > 0 {
      LowLow(x / 2, m - 1, n - 1);
      assert Low(x, m) / 2 == Low(x / 2, m - 1) && Low(x, m) % 2 == x % 2;
    }
  }

  /** Shifting a word left by k loses its top k bits. */
  lemma ShiftedWord(b: Word, k: nat)
    requires k < 8
    ensures Wrap(b * Pow2(k)) == Low(b, 32 - k) * Pow2(k)
  {
    hide Low, Shr, Shl, Pow2;
    var y, q, p, r := Low(b, 32 - k), Shr(b, 32 - k), Pow2(k), Pow2(32 - k);
    ShrLow(b, 32 - k);
    ShlIsMul(q, 32 - k);
    Pow2Add(32 - k, k);
    Pow2Large();
    Regroup(q, r, y, p);
    TopLost(q, y, p, r);
  }

  lemma Regroup(q: nat, r: nat, y: nat, p: nat)
    ensures (q * r + y) * p == q * (r * p) + y * p
  {
  }

  lemma TopLost(q: nat, y: nat, p: nat, r: nat)
    requires y < r && r * p == U32 && p > 0
    ensures (q * U32 + y * p) % U32 == y * p
  {
    MulBelow(y, r, p, p);
    DivModUnique(q * U32 + y * p, U32, q, y * p);
  }

  /** `bits | (b << n_bits)`. */
  lemma Pushed(bits: nat, nBits: nat, b: Word, n: nat)
    requires bits < Pow2(nBits) && nBits < 8 && n <= 24
    ensures OrNat(bits, Wrap(b * Pow2(nBits))) == bits + Shl(Low(b, 32 - nBits), nBits)
    ensures BitsOf(OrNat(bits, Wrap(b * Pow2(nBits))), nBits + n) == BitsOf(bits, nBits) + BitsOf(b, n)
  {
    hide And, Low, Shl, Pow2, BitsOf;
    var y := Low(b, 32 - nBits);
    ShiftedWord(b, nBits);
    OrDisjoint(bits, y, nBits);
    ShlIsMul(y, nBits);
    BitsOfSum(bits, nBits, y, n);
    LowLow(b, 32 - nBits, n);
    BitsOfLow(y, b, n);
  }

  method Push(bits: nat, nBits: nat, b: Word, ghost n: nat) returns (v: nat)
    requires bits < Pow2(nBits) && nBits < 8 && n <= 24
    ensures BitsOf(v, nBits + n) == BitsOf(bits, nBits) + BitsOf(b, n)
    ensures v < Pow2(nBits + n) <==> Low(b, 32 - nBits) < Pow2(n)
  {
    hide And, Low, Shl, Pow2, BitsOf, OrNat;
    Pushed(bits, nBits, b, n);
    NothingStays(bits, nBits, Low(b, 32 - nBits), n);
    v := OrNat(bits, Wrap(b * Pow2(nBits)));
  }

  lemma {:induction false} ShrSmall(v: nat, k: nat, j: nat)
    ensures Shr(v, k) < Pow2(j) <==> v < Pow2(k + j)
    decreases k
  {
    if k > 0 {
      ShrSmall(v / 2, k - 1, j);
    }
  }

  /** Nothing stays behind exactly if nothing was beyond n bits. */
  lemma NothingStays(bits: nat, nBits: nat, y: nat, n: nat)
    requires bits < Pow2(nBits)
    ensures bits + Shl(y, nBits) < Pow2(nBits + n) <==> y < Pow2(n)
  {
    hide Shl, Pow2;
    Pow2Add(nBits, n);
    ShlIsMul(Pow2(n), nBits);
    ShlOne(nBits);
    ShlAdd(y, 1, nBits);
    if y < Pow2(n) { ShlMono(y + 1, Pow2(n), nBits); } else { ShlMono(Pow2(n), y, nBits); }
  }

  lemma PopByte(buf: seq<Byte>, bits: nat, nBits: nat)
    requires nBits >= 8
    ensures Stream(buf) + BitsOf(bits, nBits) == Stream(buf + [bits % 256]) + BitsOf(Shr(bits, 8), nBits - 8)
  {
    hide BitsOf, Shr;
    BitsOfSplit(bits, 8, nBits - 8);
    var b := bits % 256;
    Pow2Values();
    LowIsMod(bits, 8);
    LowLow(bits, 8, 8);
    BitsOfLow(bits, b, 8);
    assert (buf + [b])[..|buf|] == buf;
    Associates(Stream(buf), BitsOf(b, 8), BitsOf(Shr(bits, 8), nBits - 8));
  }

  class BitWriter {
    var buf: seq<Byte>
    var bits: nat
    var nBits: nat

    constructor ()
      ensures Valid() && Contents() == []
    {
      buf, bits, nBits := [], 0, 0;
    }

    /** No bit is set beyond those counted. */
    ghost predicate Valid()
      reads this
    {
      nBits < 8 && bits < Pow2(nBits)
    }

    /** All bits written. */
    ghost function Contents(): seq<bool>
      reads this
    {
      Stream(buf) + BitsOf(bits, nBits)
    }

    /** writeBits: it writes the low n bits of b. Higher bits of b are not masked off: they stay behind, where the next
        write would mix with them, exactly if they still fit in 32 bits. */
    method WriteBits(b: Word, n: nat) returns (panics: bool)
      requires Valid()
      modifies this
      ensures panics <==> n > 24
      ensures panics ==> buf == old(buf) && bits == old(bits) && nBits == old(nBits)
      ensures !panics ==> Contents() == old(Contents()) + BitsOf(b, n) && nBits < 8
      ensures !panics ==> (Valid() <==> Low(b, 32 - old(nBits)) < Pow2(n))
    {
      hide BitsOf, Pow2, Low, Stream;
      panics := n > 24;
      if panics {
        return;
      }
      Associates(Stream(buf), BitsOf(bits, nBits), BitsOf(b, n));
      bits := Push(bits, nBits, b, n);
      nBits := nBits + n;
      Drain();
    }

    /** The loop of writeBits: whole bytes go to the buffer. */
    method Drain()
      modifies this
      ensures Contents() == old(Contents()) && nBits < 8
      ensures bits < Pow2(nBits) <==> old(bits) < Pow2(old(nBits))
    {
      hide BitsOf, Pow2, Stream;
      while nBits >= 8
        invariant Contents() == old(Contents())
        invariant bits < Pow2(nBits) <==> old(bits) < Pow2(old(nBits))
      {
        PopByte(buf, bits, nBits);
        ShrSmall(bits, 8, nBits - 8);
        buf := buf + [bits % 256];
        bits := Shr(bits, 8);
        nBits := nBits - 8;
      }
    }

    /** writeBits for a value of n bits. */
    method Write(b: nat, n: nat)
      requires Valid() && n <= 24 && b < Pow2(n)
      modifies this
      ensures Valid() && Contents() == old(Contents()) + BitsOf(b, n)
    {
      hide BitsOf, Pow2, Low;
      assert b < U32 by { Pow2Mono(n, 32); Pow2Large(); }
      LowAtMost(b, 32 - nBits);
      var panics := WriteBits(b, n);
    }

    /** flush: zeroes up to the next byte. */
    method Flush()
      requires Valid()
      modifies this
      ensures Valid() && nBits == 0
      ensures Contents() == old(Contents()) + Zeroes(Padding(|old(Contents())|))
    {
      hide BitsOf;
      FlushedPadding(buf, bits, nBits);
      if nBits > 0 {
        buf := buf + [bits % 256];
        bits := 0;
        nBits := 0;
      }
    }

    /** writeBytes. */
    method WriteBytes(b: seq<Byte>)
      requires Valid()
      modifies this
      ensures Valid() && nBits == 0
      ensures Contents() == old(Contents()) + Zeroes(Padding(|old(Contents())|)) + Stream(b)
    {
      hide BitsOf;
      Flush();
      StreamAppend(buf, b);
      NoBits(0);
      buf := buf + b;
    }

    /** writeLCode: the fixed code of a literal/length symbol. */
    method WriteLCode(lCode: nat)
      requires Valid() && lCode < 288
      modifies this
      ensures Valid() && Contents() == old(Contents()) + CodeBits(FixedTrees().lit, lCode)
    {
      hide BitsOf, CodeBits, Reverse;
      LCodeBits(lCode);
      if lCode < 144 {
        Write(Reverse(lCode + 0x030, 8), 8);
      } else if lCode < 256 {
        Write(Reverse(lCode + 0x190 - 144, 9), 9);
      } else if lCode < 280 {
        Write(Reverse(lCode - 256, 7), 7);
      } else {
        Write(Reverse(lCode - 280 + 0x0C0, 8), 8);
      }
    }
  }

  function Padding(n: nat): nat { (8 - n % 8) % 8 }

  function Zeroes(n: nat): seq<bool> { seq(n, _ => false) }

  /** The bits of the code of s, the most significant first. */
  function CodeBits(lens: seq<nat>, s: nat): seq<bool>
    requires s < |lens|
  {
    BitsOf(ReadMsb(Code(lens, s), lens[s]), lens[s])
  }

  lemma NoBits(x: nat)
    ensures BitsOf(x, 0) == []
  {
  }

  lemma {:induction false} ZeroBits(n: nat)
    ensures BitsOf(0, n) == Zeroes(n)
  {
    if n > 0 {
      ZeroBits(n - 1);
      assert Zeroes(n) == [false] + Zeroes(n - 1);
    }
  }

  lemma FlushedPadding(buf: seq<Byte>, bits: nat, nBits: nat)
    requires nBits < 8 && bits < Pow2(nBits)
    ensures var old_ := Stream(buf) + BitsOf(bits, nBits);
            && Padding(|old_|) == (if nBits == 0 then 0 else 8 - nBits)
            && (nBits > 0 ==> Stream(buf + [bits % 256]) + BitsOf(0, 0) == old_ + Zeroes(Padding(|old_|)))
            && (nBits == 0 ==> old_ + Zeroes(0) == old_)
  {
    hide BitsOf, Pow2;
    var n := 8 * |buf| + nBits;
    assert n % 8 == nBits;
    if nBits > 0 {
      Pow2Values();
      Pow2Mono(nBits, 8);
      assert bits % 256 == bits;
      assert (buf + [bits])[..|buf|] == buf;
      BitsOfSplit(bits, nBits, 8 - nBits);
      ShrBetween(bits, 0, nBits);
      ShlZero(nBits);
      ZeroBits(8 - nBits);
      NoBits(0);
      Associates(Stream(buf), BitsOf(bits, nBits), Zeroes(8 - nBits));
    }
  }

  lemma {:induction false} ShlZero(k: nat)
    ensures Shl(0, k) == 0
  {
    if k > 0 { ShlZero(k - 1); }
  }

  /** What writeLCode writes is the code's bits, and fits. */
  lemma LCodeBits(s: nat)
    requires s < 288
    ensures var l := FixedTrees().lit[s];
            && FixedCode(s) < U32 && l <= 9 && Reverse(FixedCode(s), l) < Pow2(l)
            && CodeBits(FixedTrees().lit, s) == BitsOf(Reverse(FixedCode(s), l), l)
  {
    var l := FixedTrees().lit[s];
    hide BitsOf, Reverse;
    FixedLitCode(s);
    ReverseReads(FixedCode(s), l);
    ReadMsbBound(FixedCode(s), l);
  }

  lemma {:induction false} LowAtMost(x: nat, n: nat)
    ensures Low(x, n) <= x
    decreases n
  {
    if n > 0 { LowAtMost(x / 2, n - 1); }
  }
}
