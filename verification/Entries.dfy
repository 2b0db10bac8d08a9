/** Huffman table entries, bit for bit as init_huff writes them and the decoders read them
    (gen/c/std/deflate.c). */
module Entries {
  import opened Options
  import opened Bits
  import opened Codes

  /** What the table of 256 reversed bytes holds. */
  function Reverse8(x: nat): nat
    requires x < 256
  {
    ReadMsb(x, 8)
  }

  const LCODE_MAGIC_NUMBERS: seq<nat> := [
    1073742592, 1073742848, 1073743104, 1073743360, 1073743616, 1073743872, 1073744128, 1073744384,
    1073744656, 1073745168, 1073745680, 1073746192, 1073746720, 1073747744, 1073748768, 1073749792,
    1073750832, 1073752880, 1073754928, 1073756976, 1073759040, 1073763136, 1073767232, 1073771328,
    1073775440, 1073783632, 1073791824, 1073800016, 1073807872, 134217728, 134217728, 134217728
  ]

  const DCODE_MAGIC_NUMBERS: seq<nat> := [
    1073741824, 1073742080, 1073742336, 1073742592, 1073742864, 1073743376, 1073743904, 1073744928,
    1073745968, 1073748016, 1073750080, 1073754176, 1073758288, 1073766480, 1073774688, 1073791072,
    1073807472, 1073840240, 1073873024, 1073938560, 1074004112, 1074135184, 1074266272, 1074528416,
    1074790576, 1075314864, 1075839168, 1076887744, 1077936336, 1080033488, 134217728, 134217728
  ]

  // ---------------- Bit reversal

  /** Reading from the other end: the first bit read becomes the most significant one. */
  lemma {:induction false} ReadMsbFirst(x: nat, l: nat)
    requires 0 < l
    ensures ReadMsb(x, l) == ReadMsb(x / 2, l - 1) + if x % 2 == 1 then Pow2(l - 1) else 0
  {
    if l == 1 {
      assert Bit(x, 0) == (x % 2 == 1);
    } else {
      ReadMsbFirst(x, l - 1);
      assert Bit(x, l - 1) == Bit(x / 2, l - 2);
    }
  }

  /** How init_huff reverses nine bits: `reverse8[key >> 1] | ((key & 1) << 8)`. */
  function Reverse9(key: nat): nat
    requires key < 512
  {
    OrNat(Reverse8(key / 2), AndNat(key, 1) * 256)
  }

  lemma Reverse9Reverses(key: nat)
    requires key < 512
    ensures Reverse9(key) == ReadMsb(key, 9)
  {
    ReadMsbFirst(key, 9);
    ReadMsbBound(key / 2, 8);
    AndMask(key, 1);
    OrDisjoint(Reverse8(key / 2), And(key, 1), 8);
    Pow2Values();
  }

  lemma {:induction false} ReadMsbLow(x: nat, n: nat, l: nat)
    requires l <= n
    ensures ReadMsb(Low(x, n), l) == ReadMsb(x, l)
  {
    if l > 0 {
      ReadMsbLow(x, n, l - 1);
      BitLow(x, n, l - 1);
    }
  }

  lemma {:induction false} BitLow(x: nat, n: nat, i: nat)
    requires i < n
    ensures Bit(Low(x, n), i) == Bit(x, i)
    decreases i
  {
    if i > 0 {
      assert Low(x, n) / 2 == Low(x / 2, n - 1);
      BitLow(x / 2, n - 1, i - 1);
    }
  }

  /** After skipping j bits, the next l bits are the low part of j + l bits read at once. */
  lemma {:induction false} ReadMsbSkip(x: nat, j: nat, l: nat)
    ensures ReadMsb(Shr(x, j), l) == Low(ReadMsb(x, j + l), l)
  {
    if l > 0 {
      ReadMsbSkip(x, j, l - 1);
      BitShr(x, j, l - 1);
      assert ReadMsb(x, j + l) / 2 == ReadMsb(x, j + (l - 1));
    }
  }

  lemma {:induction false} BitShr(x: nat, j: nat, i: nat)
    ensures Bit(Shr(x, j), i) == Bit(x, j + i)
    decreases j
  {
    if j > 0 {
      BitShr(x / 2, j - 1, i);
    }
  }

  lemma {:induction false} LowSmall(x: nat, l: nat)
    requires x < Pow2(l)
    ensures Low(x, l) == x
    decreases l
  {
    if l > 0 {
      LowSmall(x / 2, l - 1);
    }
  }

  /** Reversing twice gives the low bits back. */
  lemma {:induction false} ReadMsbTwice(x: nat, l: nat)
    ensures ReadMsb(ReadMsb(x, l), l) == Low(x, l)
    decreases l
  {
    if l > 0 {
      ReadMsbFirst(x, l);
      ReadMsbTwice(x / 2, l - 1);
      var y := ReadMsb(x / 2, l - 1);
      ReadMsbBound(x / 2, l - 1);
      var z := ReadMsb(x, l);
      if x % 2 == 1 {
        ReadMsbPlusTop(y, l - 1);
      } else {
        TopBitClear(y, l - 1);
      }
    }
  }

  /** Setting bit l does not change what is read before it. */
  lemma {:induction false} ReadMsbPlusTop(y: nat, l: nat)
    requires y < Pow2(l)
    ensures ReadMsb(y + Pow2(l), l + 1) == 2 * ReadMsb(y, l) + 1
  {
    LowSmall(y, l);
    BitShr(y + Pow2(l), l, 0);
    ShlOne(l);
    ShrBetween(y + Pow2(l), 1, l);
    ShrLow(y + Pow2(l), l);
    ReadMsbLow(y + Pow2(l), l, l);
  }

  lemma TopBitClear(y: nat, l: nat)
    requires y < Pow2(l)
    ensures !Bit(y, l)
  {
    BitShr(y, l, 0);
    ShlAdd(0, 0, l);
    ShrBetween(y, 0, l);
  }

  /** What is read only depends on the low bits, and determines them. */
  lemma ReadMsbInjective(x: nat, y: nat, l: nat)
    ensures ReadMsb(x, l) == ReadMsb(y, l) <==> Low(x, l) == Low(y, l)
  {
    ReadMsbTwice(x, l);
    ReadMsbTwice(y, l);
    ReadMsbLow(x, l, l);
    ReadMsbLow(y, l, l);
  }

  // ---------------- Entries

  function Magic(which: nat, i: nat): nat
    requires i < 32
  {
    if which == 0 then LCODE_MAGIC_NUMBERS[i] else DCODE_MAGIC_NUMBERS[i]
  }

  lemma MagicIndex(i: nat)
    ensures AndNat(i, 31) == i % 32
  {
    Pow2Values();
    AndMask(i, 5);
  }

  /** The entry for symbol s, of which cl bits remain to be consumed. */
  function EntryValue(which: nat, baseSymbol: nat, s: nat, cl: nat): Option<nat>
  {
    if s == 256 then Some(536870912 + cl)
    else if s < 256 && which == 0 then Some(2147483648 + s * 256 + cl)
    else if s >= baseSymbol then Some(Magic(which, (s - baseSymbol) % 32) + cl)
    else None
  }

  /** The entry as init_huff computes it, by disjunctions. */
  method MakeEntry(which: nat, baseSymbol: nat, s: nat, cl: nat) returns (e: Option<nat>)
    requires cl < 16
    ensures e == EntryValue(which, baseSymbol, s, cl)
  {
    if s == 256 {
      LowBitsAdded(536870912, cl);
      e := Some(OrNat(536870912, cl));
    } else if s < 256 && which == 0 {
      LiteralSum(s);
      LowBitsAdded(2147483648 + s * 256, cl);
      e := Some(OrNat(OrNat(2147483648, s * 256), cl));
    } else if s >= baseSymbol {
      MagicIndex(s - baseSymbol);
      var m := Magic(which, AndNat(s - baseSymbol, 31));
      MagicShape(which, (s - baseSymbol) % 32);
      LowBitsAdded(m, cl);
      e := Some(OrNat(m, cl));
    } else {
      e := None;
    }
  }

  /** A sub-table: 2^bits entries from top on. */
  datatype Block = Block(top: nat, bits: nat)

  function RedirectValue(b: Block): nat
  {
    268435465 + b.top * 256 + b.bits * 16
  }

  /** The redirect entry as written: `268435465 | (top << 8) | (tmp << 4)`. */
  method MakeRedirect(top: nat, tmp: nat) returns (e: nat)
    requires top < 65536 && tmp < 15
    ensures e == RedirectValue(Block(top, tmp))
  {
    TopAdded(0x1000_0000, top);
    e := OrNat(268435465, top * 256);
    WidthAdded(0x1000_0000 + top * 256, tmp);
    e := OrNat(e, tmp * 16);
  }

  lemma TopAdded(h: nat, top: nat)
    requires h == 0x1000_0000 && top < 65536
    ensures OrNat(h + 9, top * 256) == h + 9 + top * 256
  {
    assert Pow2(28) == 0x1000_0000 && Pow2(8) == 256 by { Pow2Values(); Pow2Large(); }
    OrMiddle(h, top * 256, 9, 28, 8);
  }

  lemma WidthAdded(h: nat, tmp: nat)
    requires h % 256 == 0 && tmp < 15
    ensures OrNat(h + 9, tmp * 16) == h + 9 + tmp * 16
  {
    Pow2Values();
    OrMiddle(h, tmp * 16, 9, 8, 4);
  }

  /** The fields that the decoders extract from an entry. */
  function EntryBits(e: nat): nat { e % 16 }
  function EntryKind(e: nat): nat { e / 0x1000_0000 }
  function RedirTop(e: nat): nat { e / 256 % 65536 }
  function RedirBits(e: nat): nat { e / 16 % 16 }

  lemma RedirectFields(b: Block)
    requires b.top < 65536 && b.bits < 16
    ensures var e := RedirectValue(b);
            EntryKind(e) == 1 && EntryBits(e) == 9 && RedirTop(e) == b.top && RedirBits(e) == b.bits
  {
  }

  lemma MagicShape(which: nat, i: nat)
    requires i < 32
    ensures Magic(which, i) % 16 == 0 && (EntryKind(Magic(which, i)) == 0 || EntryKind(Magic(which, i)) == 4)
  {
  }

  /** Adding less than 16 to a multiple of 16 sets the low bits ... */
  lemma LowBitsAdded(e: nat, cl: nat)
    requires e % 16 == 0 && cl < 16
    ensures OrNat(e, cl) == e + cl
  {
    Pow2Values();
    OrAligned(e, cl, 4);
  }

  /** ... and keeps the kind. */
  lemma FieldsKept(e: nat, cl: nat)
    requires e % 16 == 0 && cl < 16
    ensures EntryBits(e + cl) == cl && EntryKind(e + cl) == EntryKind(e)
  {
    DivModUnique(e + cl, 16, e / 16, cl);
    var q, r := e / 0x1000_0000, e % 0x1000_0000;
    assert r % 16 == 0;
    DivModUnique(e + cl, 0x1000_0000, q, r + cl);
  }

  lemma LiteralSum(s: nat)
    requires s < 256
    ensures OrNat(2147483648, s * 256) == 2147483648 + s * 256
  {
    Pow2Large();
    OrAligned(2147483648, s * 256, 16);
  }

  lemma ValueBits(which: nat, baseSymbol: nat, s: nat, cl: nat)
    requires cl < 16
    requires EntryValue(which, baseSymbol, s, cl).Some?
    ensures var e := EntryValue(which, baseSymbol, s, cl).value; EntryBits(e) == cl && EntryKind(e) != 1
  {
    if s == 256 {
      FieldsKept(536870912, cl);
    } else if s < 256 && which == 0 {
      FieldsKept(2147483648 + s * 256, cl);
    } else {
      MagicShape(which, (s - baseSymbol) % 32);
      FieldsKept(Magic(which, (s - baseSymbol) % 32), cl);
    }
  }
}
