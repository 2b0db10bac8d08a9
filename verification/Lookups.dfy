/** What the decoders find in a finished table, in terms of the format: the entry for the next
    code, however few of its bits have been read, and the fields of that entry. */
module Lookups {
  import opened Options
  import opened Bits
  import opened BitStream
  import opened Codes
  import opened HuffKeys
  import opened Entries
  import opened HuffTable
  import opened Inflate

  // ---------------- Finding an entry

  ghost predicate TableFor(huffs: seq<nat>, nb: nat, call: Call)
  {
    Decodes(huffs, nb, call) && EntriesOf(call) && |huffs| == TABLE_SIZE
  }

  /** The symbol that the bits stand for if they are followed by zeroes: it is the next symbol
      as soon as there are enough bits for its code. */
  ghost predicate Guess(lens: seq<nat>, s: nat, bits: seq<bool>)
  {
    && Matches(lens, s, ToNat(bits))
    && (lens[s] <= |bits| ==> Next(lens, bits) == Some(s))
    && (lens[s] > |bits| ==> Next(lens, bits) == None)
  }

  lemma GuessSymbol(lens: seq<nat>, bits: seq<bool>) returns (s: nat)
    requires Complete(lens)
    ensures Guess(lens, s, bits)
  {
    s := UniqueSymbol(lens, ToNat(bits));
    if lens[s] <= |bits| {
      NextIs(lens, s, bits);
    }
  }

  /** The first look-up. */
  ghost predicate AtRoot(huffs: seq<nat>, nb: nat, call: Call, bits: seq<bool>, s: nat)
  {
    && Guess(call.lens, s, bits)
    && Low(ToNat(bits), nb) < |huffs|
    && var e := huffs[Low(ToNat(bits), nb)];
       if call.lens[s] <= ROOT_BITS then
         e == Value(call, s, call.lens[s]) && EntryBits(e) == call.lens[s] && EntryKind(e) != 1
       else
         EntryKind(e) == 1 && EntryBits(e) == ROOT_BITS == nb
  }

  lemma LookAtRoot(huffs: seq<nat>, nb: nat, call: Call, bits: seq<bool>) returns (s: nat)
    requires TableFor(huffs, nb, call)
    ensures AtRoot(huffs, nb, call, bits, s)
  {
    s := GuessSymbol(call.lens, bits);
    assert Finds(huffs, nb, call, ToNat(bits), s) && HasValue(call, s);
    if call.lens[s] <= ROOT_BITS {
      EntryFields(call, s, call.lens[s]);
    }
  }

  /** After a redirect: its nine bits `pre` are gone, and the second look-up uses the others. */
  ghost predicate AtSub(huffs: seq<nat>, call: Call, pre: seq<bool>, held: seq<bool>, redirect: nat, s: nat)
  {
    && Guess(call.lens, s, pre + held) && call.lens[s] > ROOT_BITS
    && var j := RedirTop(redirect) + Low(ToNat(held), RedirBits(redirect));
       && j < |huffs|
       && huffs[j] == Value(call, s, call.lens[s] - ROOT_BITS) && EntryBits(huffs[j]) == call.lens[s] - ROOT_BITS
       && EntryKind(huffs[j]) != 1
  }

  /** The redirect entry was found with the bits `pre`. */
  ghost predicate Redirected(huffs: seq<nat>, nb: nat, pre: seq<bool>, redirect: nat)
  {
    && |pre| == ROOT_BITS == nb && ToNat(pre) < |huffs|
    && huffs[ToNat(pre)] == redirect && EntryKind(redirect) == 1
  }

  lemma LookAtSub(huffs: seq<nat>, nb: nat, call: Call, pre: seq<bool>, held: seq<bool>, redirect: nat) returns (s: nat)
    requires TableFor(huffs, nb, call) && Redirected(huffs, nb, pre, redirect)
    ensures AtSub(huffs, call, pre, held, redirect, s)
  {
    hide Low, Shr, ToNat, Lookup, KraftSum, ReadMsb, Code, Starts;
    var bits := pre + held;
    s := LookAtRoot(huffs, nb, call, bits);
    ToNatSplit(bits, ROOT_BITS);
    assert bits[..ROOT_BITS] == pre && bits[ROOT_BITS..] == held;
    assert Finds(huffs, nb, call, ToNat(bits), s) && HasValue(call, s);
    EntryFields(call, s, call.lens[s] - ROOT_BITS);
  }

  /** A redirect is only taken once its nine bits are there. */
  lemma TakesRedirect(huffs: seq<nat>, nb: nat, call: Call, held: seq<bool>, s: nat)
    requires AtRoot(huffs, nb, call, held, s) && call.lens[s] > ROOT_BITS && ROOT_BITS <= |held|
    ensures Redirected(huffs, nb, held[..ROOT_BITS], huffs[Low(ToNat(held), nb)])
  {
    ToNatSplit(held, ROOT_BITS);
  }

  // ---------------- The fields of an entry

  /** What the literal/length entries mean. */
  ghost predicate LitFields(e: nat, s: nat)
  {
    && (s < 256 ==> e / 0x8000_0000 != 0 && e / 256 % 256 == s)
    && (s >= 256 ==> e / 0x8000_0000 == 0)
    && (s == 256 ==> e / 0x4000_0000 == 0 && e / 0x2000_0000 != 0)
    && (257 <= s < 286 ==>
          && e / 0x4000_0000 != 0
          && e / 256 % 32768 == LengthBase(s - 257) && e / 16 % 16 == ExtraLengthBits(s - 257))
    && (286 <= s < 288 ==> e / 0x1000_0000 == 0 && e / 0x0800_0000 != 0)
  }

  /** An entry as the sum of its fields. */
  function Packed(k: nat, b: nat, x: nat, cl: nat): nat { k * 0x0100_0000 + b * 256 + x * 16 + cl }

  lemma LowFields(k: nat, b: nat, x: nat, cl: nat)
    requires k < 256 && b < 32768 && x < 16 && cl < 16
    ensures var e := Packed(k, b, x, cl); e / 16 % 16 == x && e / 256 % 32768 == b && e / 256 % 256 == b % 256
  {
    var e := Packed(k, b, x, cl);
    var q := k * 65536 + b;
    DivModUnique(e, 16, q * 16 + x, cl);
    DivModUnique(q * 16 + x, 16, q, x);
    DivModUnique(e, 256, q, x * 16 + cl);
    DivModUnique(q, 32768, k * 2, b);
    DivModUnique(q, 256, k * 256 + b / 256, b % 256);
  }

  lemma HighFields(k: nat, b: nat, x: nat, cl: nat)
    requires k < 256 && b < 32768 && x < 16 && cl < 16
    ensures var e := Packed(k, b, x, cl);
            && e / 0x0100_0000 == k && e / 0x0800_0000 == k / 8 && e / 0x1000_0000 == k / 16
            && e / 0x2000_0000 == k / 32 && e / 0x4000_0000 == k / 64 && e / 0x8000_0000 == k / 128
  {
    var low := b * 256 + x * 16 + cl;
    var e := Packed(k, b, x, cl);
    DivModUnique(e, 0x0100_0000, k, low);
    DivModUnique(e, 0x0800_0000, k / 8, k % 8 * 0x0100_0000 + low);
    DivModUnique(e, 0x1000_0000, k / 16, k % 16 * 0x0100_0000 + low);
    DivModUnique(e, 0x2000_0000, k / 32, k % 32 * 0x0100_0000 + low);
    DivModUnique(e, 0x4000_0000, k / 64, k % 64 * 0x0100_0000 + low);
    DivModUnique(e, 0x8000_0000, k / 128, k % 128 * 0x0100_0000 + low);
  }

  /** The magic numbers are the tables of section 3.2.5 of RFC 1951. */
  lemma LengthMagic(i: nat)
    requires i < 29
    ensures Magic(0, i) == Packed(64, LengthBase(i), ExtraLengthBits(i), 0)
    ensures LengthBase(i) <= 258 && ExtraLengthBits(i) <= 5
  {
    assert Magic(0, i) == LCODE_MAGIC_NUMBERS[i];
  }

  lemma DistanceMagic(d: nat)
    requires d < 30
    ensures 0 < DistanceBase(d) <= 24577 && ExtraDistanceBits(d) <= 13
    ensures Magic(1, d) == Packed(64, DistanceBase(d) - 1, ExtraDistanceBits(d), 0)
  {
  }

  lemma LitEntry(call: Call, s: nat, cl: nat)
    requires EntriesOf(call) && call.which == 0 && call.baseSymbol == 257 && s < 288 && cl < 16
    ensures LitFields(Value(call, s, cl), s)
  {
    LitValue(call, s, cl);
    hide Packed, Value, EntriesOf, LengthBase, ExtraLengthBits;
    var e := Value(call, s, cl);
    if s < 256 {
      LowFields(128, s, 0, cl);
      HighFields(128, s, 0, cl);
    } else if s == 256 {
      HighFields(32, 0, 0, cl);
    } else if s < 286 {
      var b, x := LengthBase(s - 257), ExtraLengthBits(s - 257);
      LowFields(64, b, x, cl);
      HighFields(64, b, x, cl);
    } else {
      HighFields(8, 0, 0, cl);
    }
  }

  lemma LitValue(call: Call, s: nat, cl: nat)
    requires EntriesOf(call) && call.which == 0 && call.baseSymbol == 257 && s < 288
    ensures s < 256 ==> Value(call, s, cl) == Packed(128, s, 0, cl)
    ensures s == 256 ==> Value(call, s, cl) == Packed(32, 0, 0, cl)
    ensures 257 <= s < 286 ==>
              && Value(call, s, cl) == Packed(64, LengthBase(s - 257), ExtraLengthBits(s - 257), cl)
              && LengthBase(s - 257) <= 258 && ExtraLengthBits(s - 257) <= 5
    ensures 286 <= s ==> Value(call, s, cl) == Packed(8, 0, 0, cl)
  {
    assert call.entry(s, cl) == EntryValue(0, 257, s, cl);
    hide Magic, LengthBase, ExtraLengthBits, EntriesOf;
    if 257 <= s {
      assert (s - 257) % 32 == s - 257;
      if s < 286 { LengthMagic(s - 257); } else { NoMagic(s - 257); }
    }
  }

  lemma NoMagic(i: nat)
    requires 29 <= i < 32
    ensures Magic(0, i) == 134217728
  {
  }

  ghost predicate DistFields(e: nat, d: nat)
  {
    && (d < 30 ==> e / 0x0100_0000 == 64 && e / 256 % 32768 == DistanceBase(d) - 1 && e / 16 % 16 == ExtraDistanceBits(d))
    && (30 <= d < 32 ==> e / 0x0100_0000 == 8)
  }

  lemma DistEntry(call: Call, d: nat, cl: nat)
    requires EntriesOf(call) && call.which == 1 && call.baseSymbol == 0 && d < 32 && cl < 16
    ensures DistFields(Value(call, d, cl), d)
  {
    DistValue(call, d, cl);
    hide Packed, Value, EntriesOf, DistanceBase, ExtraDistanceBits;
    if d < 30 {
      var b, x := DistanceBase(d) - 1, ExtraDistanceBits(d);
      LowFields(64, b, x, cl);
      HighFields(64, b, x, cl);
    } else {
      HighFields(8, 0, 0, cl);
    }
  }

  lemma DistValue(call: Call, d: nat, cl: nat)
    requires EntriesOf(call) && call.which == 1 && call.baseSymbol == 0 && d < 32
    ensures d < 30 ==>
              && 0 < DistanceBase(d) <= 24577 && ExtraDistanceBits(d) <= 13
              && Value(call, d, cl) == Packed(64, DistanceBase(d) - 1, ExtraDistanceBits(d), cl)
    ensures 30 <= d ==> Value(call, d, cl) == Packed(8, 0, 0, cl)
  {
    assert call.entry(d, cl) == EntryValue(1, 0, d, cl);
    assert d != 256 && d % 32 == d;
    if d < 30 {
      hide Magic, DistanceBase, ExtraDistanceBits, EntriesOf;
      DistanceMagic(d);
    }
  }

  lemma ClenEntry(call: Call, s: nat, cl: nat)
    requires EntriesOf(call) && call.which == 0 && call.baseSymbol == 4095 && s < 19 && cl < 16
    ensures Value(call, s, cl) / 0x0100_0000 == 128 && Value(call, s, cl) / 256 % 256 == s
  {
    assert call.entry(s, cl) == EntryValue(0, 4095, s, cl);
    assert Value(call, s, cl) == Packed(128, s, 0, cl);
    hide Packed, Value, EntriesOf;
    LowFields(128, s, 0, cl);
    HighFields(128, s, 0, cl);
  }
}
