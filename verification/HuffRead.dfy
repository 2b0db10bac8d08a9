/** The reading loops that the slow decoders share: bytes are read only as long as the bits at
    hand do not suffice (gen/c/std/deflate.c, init_dynamic_huffman and decode_huffman_slow). */
module HuffRead {
  import opened Options
  import opened Bits
  import opened Words
  import opened BitStream
  import opened Codes
  import opened HuffKeys
  import opened Entries
  import opened HuffTable
  import opened Inflate
  import opened Lookups

  /** Input at hand: the bits held and the bytes of src from ri on. */
  datatype Input = Input(bits: nat, nBits: nat, ri: nat)

  ghost predicate Has(i: Input, src: seq<Byte>, held: seq<bool>)
  {
    i.ri <= |src| && Holding(i.bits, i.nBits, held)
  }

  /** From i on, exactly the bytes up to i' have been read, with no bit used. */
  ghost predicate Read(i: Input, held: seq<bool>, i': Input, all: seq<bool>, src: seq<Byte>)
  {
    i.ri <= i'.ri <= |src| && all == held + Stream(src[i.ri..i'.ri])
  }

  method ReadByte(i: Input, src: seq<Byte>, ghost held: seq<bool>) returns (i': Input, ghost held': seq<bool>)
    requires Has(i, src, held) && i.ri < |src| && i.nBits <= 24
    ensures Has(i', src, held') && i'.ri == i.ri + 1 && held' == held + BitsOf(src[i.ri], 8)
    ensures Read(i, held, i', held', src)
  {
    hide BitsOf;
    var bits, nBits := AppendByte(i.bits, i.nBits, src[i.ri], held);
    i', held' := Input(bits, nBits, i.ri + 1), held + BitsOf(src[i.ri], 8);
    OneByte(src, i.ri);
  }

  lemma OneByte(src: seq<Byte>, k: nat)
    requires k < |src|
    ensures Stream(src[k..k + 1]) == BitsOf(src[k], 8)
  {
    hide BitsOf;
    var one := src[k..k + 1];
    assert one[..0] == [] && Stream([]) == [];
    assert Stream(one) == Stream(one[..0]) + BitsOf(one[0], 8);
  }

  lemma ReadOn(i: Input, held: seq<bool>, i': Input, all: seq<bool>, i'': Input, all': seq<bool>, src: seq<Byte>)
    requires Read(i, held, i', all, src) && Read(i', all, i'', all', src)
    ensures Read(i, held, i'', all', src)
  {
    hide Stream;
    StreamAppend(src[i.ri..i'.ri], src[i'.ri..i''.ri]);
    assert src[i.ri..i'.ri] + src[i'.ri..i''.ri] == src[i.ri..i''.ri];
    Associates(held, Stream(src[i.ri..i'.ri]), Stream(src[i'.ri..i''.ri]));
  }

  lemma ReadNothing(i: Input, held: seq<bool>, src: seq<Byte>)
    requires i.ri <= |src|
    ensures Read(i, held, i, held, src)
  {
    assert src[i.ri..i.ri] == [] && Stream([]) == [] && held + [] == held;
  }

  /** Reading is not a step of the format. */
  lemma ReadLeads(c0: Config, stage: Stage, out: seq<Byte>, i: Input, held: seq<bool>, i': Input, all: seq<bool>, src: seq<Byte>)
    requires Read(i, held, i', all, src) && Leads(c0, Feed(Config(stage, out, held), src[i.ri..]))
    ensures Leads(c0, Feed(Config(stage, out, all), src[i'.ri..]))
  {
    hide Stream, Leads;
    StreamAppend(src[i.ri..i'.ri], src[i'.ri..]);
    assert src[i.ri..i'.ri] + src[i'.ri..] == src[i.ri..];
    Associates(held, Stream(src[i.ri..i'.ri]), Stream(src[i'.ri..]));
  }

  // ---------------- Plain bits

  /** `while (n_bits < n)`. */
  method Fill(i: Input, n: nat, src: seq<Byte>, ghost held: seq<bool>) returns (i': Input, ghost all: seq<bool>)
    requires Has(i, src, held) && n <= 16
    ensures Has(i', src, all) && Read(i, held, i', all, src)
    ensures i'.nBits < n ==> i'.ri == |src|
    ensures i.nBits < n + 8 ==> i'.nBits < n + 8
  {
    i', all := i, held;
    ReadNothing(i, held, src);
    while i'.nBits < n && i'.ri < |src|
      invariant Has(i', src, all) && Read(i, held, i', all, src)
      invariant i.nBits < n + 8 ==> i'.nBits < n + 8
      decreases |src| - i'.ri
    {
      hide Read, Stream;
      ghost var before, all0 := i', all;
      i', all := ReadByte(i', src, all);
      ReadOn(i, held, before, all0, i', all, src);
    }
  }

  method Take(i: Input, n: nat, src: seq<Byte>, ghost held: seq<bool>) returns (x: nat, i': Input)
    requires Has(i, src, held) && n <= i.nBits
    ensures x == ToNat(held[..n]) && Has(i', src, held[n..]) && i'.ri == i.ri && i'.nBits == i.nBits - n
  {
    var bits, nBits;
    x, bits, nBits := TakeBits(i.bits, i.nBits, n, held);
    i' := Input(bits, nBits, i.ri);
  }

  // ---------------- Codes

  /** No byte was read while the code was already there. */
  ghost predicate Tight(lens: seq<nat>, bits: seq<bool>)
  {
    |bits| < 8 || Next(lens, bits[..|bits| - 8]) == None
  }

  lemma TightLeavesLittle(lens: seq<nat>, bits: seq<bool>, s: nat)
    requires Lengths(lens) && Tight(lens, bits) && Next(lens, bits) == Some(s)
    ensures |bits| - lens[s] < 8
  {
    if 8 <= |bits| && lens[s] <= |bits| - 8 {
      var few := bits[..|bits| - 8];
      assert few + bits[|bits| - 8..] == bits;
      StartsMore(lens, s, few, bits[|bits| - 8..]);
      NextIs(lens, s, few);
    }
  }

  lemma TightAfterByte(lens: seq<nat>, bits: seq<bool>, b: seq<bool>)
    requires |b| == 8 && Next(lens, bits) == None
    ensures Tight(lens, bits + b)
  {
    assert (bits + b)[..|bits|] == bits;
  }

  /** A look-up index: `bits & ((1 << n) - 1)`. */
  method Mask(bits: nat, n: nat) returns (r: nat)
    ensures r == Low(bits, n)
  {
    hide And, Low;
    AndMask(bits, n);
    LowIsMod(bits, n);
    r := AndNat(bits, Pow2(n) - 1);
  }

  /** The loop around the first look-up. */
  method ReadRoot(huffs: array<nat>, nb: nat, ghost call: Call, i: Input, src: seq<Byte>, ghost held: seq<bool>)
    returns (found: bool, entry: nat, i': Input, ghost all: seq<bool>, ghost s: nat)
    requires TableFor(huffs[..], nb, call) && Has(i, src, held) && Tight(call.lens, held)
    ensures Has(i', src, all) && Read(i, held, i', all, src) && Tight(call.lens, all)
    ensures AtRoot(huffs[..], nb, call, all, s) && entry == huffs[..][Low(ToNat(all), nb)]
    ensures if found then EntryBits(entry) <= |all| else i'.ri == |src| && Next(call.lens, all) == None
  {
    hide Read, TableFor, Tight, Low, ToNat, EntryBits, EntryKind, Value, BitsOf;
    i', all := i, held;
    ReadNothing(i, held, src);
    while true
      invariant Has(i', src, all) && Read(i, held, i', all, src) && Tight(call.lens, all)
      decreases |src| - i'.ri
    {
      s := LookAtRoot(huffs[..], nb, call, all);
      var k := Mask(i'.bits, nb);
      entry := huffs[k];
      if i'.nBits >= EntryBits(entry) {
        return true, entry, i', all, s;
      }
      NotYet(huffs[..], nb, call, all, s);
      if i'.ri == |src| {
        return false, entry, i', all, s;
      }
      ghost var before, all0 := i', all;
      i', all := ReadByte(i', src, all);
      ReadOn(i, held, before, all0, i', all, src);
      TightAfterByte(call.lens, all0, BitsOf(src[before.ri], 8));
    }
  }

  /** While the first look-up needs more bits than there are, the next code is not there yet. */
  lemma NotYet(huffs: seq<nat>, nb: nat, call: Call, all: seq<bool>, s: nat)
    requires AtRoot(huffs, nb, call, all, s) && |all| < EntryBits(huffs[Low(ToNat(all), nb)])
    ensures Next(call.lens, all) == None && |all| < 9
  {
  }

  /** The loop around the second look-up. The index is always within the table. */
  method ReadSub(huffs: array<nat>, nb: nat, ghost call: Call, redirect: nat, i: Input, src: seq<Byte>,
                 ghost pre: seq<bool>, ghost held: seq<bool>)
    returns (found: bool, entry: nat, i': Input, ghost all: seq<bool>, ghost s: nat)
    requires TableFor(huffs[..], nb, call) && Redirected(huffs[..], nb, pre, redirect)
    requires Has(i, src, held) && Tight(call.lens, pre + held)
    ensures Has(i', src, all) && Read(i, held, i', all, src) && Tight(call.lens, pre + all)
    ensures Guess(call.lens, s, pre + all) && call.lens[s] > ROOT_BITS
    ensures entry == Value(call, s, call.lens[s] - ROOT_BITS) && EntryBits(entry) == call.lens[s] - ROOT_BITS && EntryKind(entry) != 1
    ensures if found then EntryBits(entry) <= |all| else i'.ri == |src| && Next(call.lens, pre + all) == None
  {
    hide Read, TableFor, Tight, Redirected, Next, ReadMsb, Code, Low, ToNat, EntryBits, EntryKind, RedirTop, RedirBits, Value, BitsOf;
    i', all := i, held;
    ReadNothing(i, held, src);
    while true
      invariant Has(i', src, all) && Read(i, held, i', all, src) && Tight(call.lens, pre + all)
      decreases |src| - i'.ri
    {
      s := LookAtSub(huffs[..], nb, call, pre, all, redirect);
      var k := Mask(i'.bits, RedirBits(redirect));
      entry := huffs[RedirTop(redirect) + k];
      SubBits(huffs[..], nb, call, pre, redirect, s);
      if i'.nBits >= EntryBits(entry) {
        return true, entry, i', all, s;
      }
      if i'.ri == |src| {
        return false, entry, i', all, s;
      }
      ghost var before, all0 := i', all;
      i', all := ReadByte(i', src, all);
      ReadOn(i, held, before, all0, i', all, src);
      TightAfterByte(call.lens, pre + all0, BitsOf(src[before.ri], 8));
      Associates(pre, all0, BitsOf(src[before.ri], 8));
    }
  }

  lemma SubBits(huffs: seq<nat>, nb: nat, call: Call, pre: seq<bool>, redirect: nat, s: nat)
    requires TableFor(huffs, nb, call) && Redirected(huffs, nb, pre, redirect) && s < |call.lens|
    ensures |pre| == ROOT_BITS && call.lens[s] <= 15
  {
  }
}
