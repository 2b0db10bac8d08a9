/** init_dynamic_huffman (gen/c/std/deflate.c): reading the codes of a dynamic block. */
module DynamicBlocks {
  import opened Bits
  import opened Words
  import opened BitStream
  import opened Codes
  import opened HuffSort
  import opened Entries
  import opened HuffTable
  import opened Inflate
  import opened Lookups
  import opened HuffRead
  import opened HuffSlow

  // ---------------- Accepting a code

  /** Every symbol of the three alphabets has an entry, so that a table can be built exactly for the
      codes the format machine accepts. */
  lemma BuildableIffComplete(call: Call)
    requires EntriesOf(call) && |call.lens| <= 288
    requires (call.which == 0 && call.baseSymbol == 257) || (call.which == 1 && call.baseSymbol == 0)
          || (call.which == 0 && call.baseSymbol == 4095 && |call.lens| <= 19)
    ensures Buildable(call) <==> Complete(call.lens)
  {
    OffsetBound(call.lens, MAX_LENGTH + 1);
    assert AllValues(call) by {
      forall s: nat | Coded(call.lens, s) ensures HasValue(call, s) {
        var cl := LastBits(call.lens, s);
        assert call.entry(s, cl) == EntryValue(call.which, call.baseSymbol, s, cl);
      }
    }
    hide AllValues;
  }

  method BuildFor(huffs: array<nat>, lens: seq<nat>, which: nat, baseSymbol: nat)
    returns (ok: bool, nb: nat, ghost call: Call)
    requires huffs.Length == TABLE_SIZE && Lengths(lens) && |lens| <= 288
    requires (which == 0 && baseSymbol == 257) || (which == 1 && baseSymbol == 0)
          || (which == 0 && baseSymbol == 4095 && |lens| <= 19)
    modifies huffs
    ensures ok <==> Complete(lens)
    ensures ok ==> TableFor(huffs[..], nb, call)
    ensures call.lens == lens && call.which == which && call.baseSymbol == baseSymbol
  {
    hide Decodes, Buildable, Complete, EntriesOf;
    var status;
    status, nb, call := InitHuff(huffs, lens, which, baseSymbol);
    BuildableIffComplete(call);
    ok := status == Ok;
  }

  // ---------------- The order of the code length code lengths

  const CODE_POSITION: seq<nat> := [3, 17, 15, 13, 11, 9, 7, 5, 4, 6, 8, 10, 12, 14, 16, 18, 0, 1, 2]

  function Order(k: nat): (s: nat)
    requires k < 19
    ensures s < 19
  {
    CODE_ORDER[k]
  }

  lemma OrderPosition(k: nat)
    requires k < 19
    ensures CODE_POSITION[Order(k)] == k && CODE_POSITION[k] < 19 && Order(CODE_POSITION[k]) == k
  {
  }

  lemma OrderDistinct(j: nat, k: nat)
    requires j < 19 && k < 19 && j != k
    ensures Order(j) != Order(k)
  {
    OrderPosition(j);
    OrderPosition(k);
  }

  lemma {:induction false} OrderedAt(got: seq<nat>, k: nat)
    requires |got| <= 19 && k < 19
    ensures Ordered(got)[Order(k)] == if k < |got| then got[k] else 0
  {
    if got != [] {
      OrderedAt(got[..|got| - 1], k);
      if k != |got| - 1 { OrderDistinct(k, |got| - 1); }
    }
  }

  /** What has been stored in transmission order. */
  ghost predicate Placed(lens: seq<nat>, got: seq<nat>, n: nat)
    requires |lens| >= 19 && n <= 19
  {
    forall k: nat {:trigger Order(k)} | k < n :: lens[Order(k)] == if k < |got| then got[k] else 0
  }

  lemma PlacedAll(lens: seq<nat>, got: seq<nat>)
    requires |lens| >= 19 && |got| <= 19 && Placed(lens, got, 19)
    ensures lens[..19] == Ordered(got)
  {
    forall s: nat | s < 19 ensures lens[..19][s] == Ordered(got)[s] {
      OrderPosition(s);
      OrderedAt(got, CODE_POSITION[s]);
      assert lens[Order(CODE_POSITION[s])] == lens[s];
    }
  }

  lemma PlacedNext(lens: seq<nat>, got: seq<nat>, n: nat, x: nat)
    requires |lens| >= 19 && n < 19 && Placed(lens, got, n)
    requires |got| <= n
    ensures |got| == n ==> Placed(lens[Order(n) := x], got + [x], n + 1)
    ensures x == 0 ==> Placed(lens[Order(n) := x], got, n + 1)
  {
    forall k: nat | k < n ensures Order(k) != Order(n) { OrderDistinct(k, n); }
  }

  // ---------------- The coroutine's variables

  /** Suspension points 1, 2, 4 and 5. */
  datatype DynPc = OnCounts | OnClen | OnLengths | OnRepeat

  datatype DynLocals = Dyn(pc: DynPc, bits: nat, nBits: nat, nLit: nat, nDist: nat, nClen: nat, i: nat, entry: nat)

  /** What the variables stand for; `cl` is the code that the code lengths are transmitted in. */
  datatype DynMeaning = DynMeaning(c: Config, held: seq<bool>, cl: Call)

  ghost predicate SizesOk(l: DynLocals)
  {
    257 <= l.nLit <= 286 && 1 <= l.nDist <= 30 && l.nClen <= 19
  }

  function SizesOf(l: DynLocals, last: bool): Sizes { Sizes(last, l.nLit, l.nDist) }

  /** A table for the code length code is in place. */
  ghost predicate ClenTable(huffs: seq<nat>, nb: nat, cl: Call)
  {
    && TableFor(huffs, nb, cl) && cl.which == 0 && cl.baseSymbol == 4095
    && |cl.lens| == 19 && forall k | 0 <= k < 19 :: cl.lens[k] <= 7
  }

  ghost predicate DynMeans(l: DynLocals, m: DynMeaning, last: bool, t: seq<Byte>, lens: seq<nat>, huffs: seq<nat>, nb: nat)
  {
    && |lens| == 320
    && match l.pc
       case OnCounts => m.c == Config(CodeCounts(last), t, m.held) && l.nBits < 22
       case OnClen =>
         && SizesOk(l) && m.c.stage.ClenLengths?
         && m.c == Config(ClenLengths(SizesOf(l, last), l.nClen, m.c.stage.got), t, m.held)
         && |m.c.stage.got| == l.i <= l.nClen && Placed(lens, m.c.stage.got, l.i)
         && l.nBits < (if l.i < l.nClen then 11 else 8)
         && forall k | 0 <= k < l.i :: m.c.stage.got[k] <= 7
       case OnLengths =>
         && SizesOk(l) && l.i <= l.nLit + l.nDist && (l.i == l.nLit + l.nDist ==> l.nBits < 8)
         && m.c == Config(CodeLengths(SizesOf(l, last), m.cl.lens, lens[..l.i]), t, m.held)
         && ClenTable(huffs, nb, m.cl) && Tight(m.cl.lens, m.held) && Lengths(lens[..l.i])
       case OnRepeat =>
         && SizesOk(l) && l.i < l.nLit + l.nDist && 16 <= l.entry <= 18 && (l.entry == 16 ==> 0 < l.i)
         && m.c == Config(Repeat(SizesOf(l, last), m.cl.lens, lens[..l.i], l.entry), t, m.held)
         && ClenTable(huffs, nb, m.cl) && l.nBits < RepeatExtra(l.entry) + 8 && Lengths(lens[..l.i])
  }

  ghost predicate DynFollows(c0: Config, l: DynLocals, m: DynMeaning, last: bool, t: seq<Byte>, src: seq<Byte>, ri: nat,
                             lens: seq<nat>, huffs: seq<nat>, nb: nat)
  {
    && Has(Input(l.bits, l.nBits, ri), src, m.held)
    && DynMeans(l, m, last, t, lens, huffs, nb)
    && Leads(c0, Feed(m.c, src[ri..]))
  }

  function DynRemaining(l: DynLocals, src: seq<Byte>, ri: nat): int { 8 * (|src| - ri) + l.nBits }

  datatype DynOutcome = DynOn | DynNeedsInput | DynStops(verdict: Verdict) | DynAllRead | DynBroken

  /** What a step comes to. */
  ghost predicate DynAfter(c0: Config, l: DynLocals, m: DynMeaning, last: bool, t: seq<Byte>, src: seq<Byte>, ri: nat,
                           lens: seq<nat>, huffs: seq<nat>, nb: nat, o: DynOutcome)
  {
    && ri <= |src| && StageOk(m.c.stage) && Leads(c0, Feed(m.c, src[ri..]))
    && match o
       case DynOn => DynFollows(c0, l, m, last, t, src, ri, lens, huffs, nb)
       case DynNeedsInput => DynFollows(c0, l, m, last, t, src, ri, lens, huffs, nb) && ri == |src| && Advance(m.c).Wait?
       case DynStops(v) => Advance(m.c) == Stop(v) && m.c.out == t && !v.Done?
       case DynAllRead =>
         && DynFollows(c0, l, m, last, t, src, ri, lens, huffs, nb) && l.pc == OnLengths
         && l.i == l.nLit + l.nDist && l.nBits < 8
       case DynBroken => false
  }

  // ---------------- The counts

  lemma CountsSteps(last: bool, t: seq<Byte>, bits: seq<bool>)
    requires |bits| >= 14
    ensures var nLit, nDist, nClen := ToNat(bits[..5]) + 257, ToNat(bits[5..][..5]) + 1, ToNat(bits[10..][..4]) + 4;
            && nLit <= 288 && nDist <= 32 && nClen <= 19
            && Advance(Config(CodeCounts(last), t, bits)) ==
               (if nLit > 286 then Stop(BadLiteralCount)
                else if nDist > 30 then Stop(BadDistanceCount)
                else Go(Config(ClenLengths(Sizes(last, nLit, nDist), nClen, []), t, bits[14..])))
  {
    assert bits[5..][..5] == bits[5..10] && bits[10..][..4] == bits[10..14];
    ToNatBound(bits[..5]);
    ToNatBound(bits[5..10]);
    ToNatBound(bits[10..14]);
    Pow2Values();
    hide ToNat;
  }

  /** Suspension point 1: fourteen bits of counts. */
  method CountsStep(l: DynLocals, src: seq<Byte>, ri: nat, ghost c0: Config, ghost last: bool, ghost t: seq<Byte>, ghost m: DynMeaning,
                    ghost lens: seq<nat>, ghost huffs: seq<nat>, ghost nb: nat)
    returns (l': DynLocals, ri': nat, o: DynOutcome, ghost m': DynMeaning)
    requires l.pc == OnCounts && DynFollows(c0, l, m, last, t, src, ri, lens, huffs, nb)
    ensures ri <= ri' && DynAfter(c0, l', m', last, t, src, ri', lens, huffs, nb, o)
    ensures DynRemaining(l', src, ri') <= DynRemaining(l, src, ri)
    ensures o == DynOn ==> l'.pc == OnClen
    ensures o != DynAllRead
  {
    hide Leads, Feed, Advance, ToNat, Read;
    ghost var i0 := Input(l.bits, l.nBits, ri);
    var i, all := Fill(Input(l.bits, l.nBits, ri), 14, src, m.held);
    ReadKeepsRemaining(i0, m.held, i, all, src);
    ReadLeads(c0, CodeCounts(last), t, i0, m.held, i, all, src);
    ghost var c := Config(CodeCounts(last), t, all);
    m' := m.(c := c, held := all);
    l' := l.(bits := i.bits, nBits := i.nBits);
    ri' := i.ri;
    if i.nBits < 14 {
      CountsWait(last, t, all);
      o := DynNeedsInput;
      return;
    }
    CountsSteps(last, t, all);
    var x, i1 := Take(i, 5, src, all);
    if x + 257 > 286 {
      o := DynStops(BadLiteralCount);
      return;
    }
    var y, i2 := Take(i1, 5, src, all[5..]);
    if y + 1 > 30 {
      o := DynStops(BadDistanceCount);
      return;
    }
    assert all[5..][5..] == all[10..];
    var z, i3 := Take(i2, 4, src, all[10..]);
    assert all[10..][4..] == all[14..];
    StepLeads(c0, c, src[ri'..]);
    l' := Dyn(OnClen, i3.bits, i3.nBits, x + 257, y + 1, z + 4, 0, 0);
    m' := m.(c := Advance(c).next, held := all[14..]);
    o := DynOn;
  }

  lemma CountsWait(last: bool, t: seq<Byte>, bits: seq<bool>)
    requires |bits| < 14
    ensures Advance(Config(CodeCounts(last), t, bits)) == Wait
  {
  }

  // ---------------- The code length code

  lemma ClenSteps(sizes: Sizes, nClen: nat, got: seq<nat>, t: seq<Byte>, bits: seq<bool>)
    requires StageOk(ClenLengths(sizes, nClen, got)) && |got| < nClen
    ensures var c := Config(ClenLengths(sizes, nClen, got), t, bits);
            if |bits| < 3 then Advance(c) == Wait
            else && ToNat(bits[..3]) <= 7
                 && Advance(c) == Go(Config(ClenLengths(sizes, nClen, got + [ToNat(bits[..3])]), t, bits[3..]))
  {
    if |bits| >= 3 {
      ToNatBound(bits[..3]);
      Pow2Values();
    }
    hide ToNat, Ordered;
  }

  /** Suspension point 2: one code length of three bits. */
  method ClenStep(l: DynLocals, codeLengths: array<nat>, src: seq<Byte>, ri: nat, ghost c0: Config, ghost last: bool,
                  ghost t: seq<Byte>, ghost m: DynMeaning, ghost huffs: seq<nat>, ghost nb: nat)
    returns (l': DynLocals, ri': nat, o: DynOutcome, ghost m': DynMeaning)
    requires l.pc == OnClen && l.i < l.nClen && DynFollows(c0, l, m, last, t, src, ri, codeLengths[..], huffs, nb)
    modifies codeLengths
    ensures ri <= ri' && DynAfter(c0, l', m', last, t, src, ri', codeLengths[..], huffs, nb, o)
    ensures DynRemaining(l', src, ri') <= DynRemaining(l, src, ri)
    ensures o == DynOn || o == DynNeedsInput
    ensures o == DynOn ==> l'.pc == OnClen && l'.nClen == l.nClen && l'.i == l.i + 1
  {
    hide Leads, Feed, Advance, ToNat, Read, Order, Placed;
    ghost var i0, got := Input(l.bits, l.nBits, ri), m.c.stage.got;
    var i, all := Fill(Input(l.bits, l.nBits, ri), 3, src, m.held);
    ReadKeepsRemaining(i0, m.held, i, all, src);
    ReadLeads(c0, m.c.stage, t, i0, m.held, i, all, src);
    ghost var c := Config(m.c.stage, t, all);
    m' := m.(c := c, held := all);
    l' := l.(bits := i.bits, nBits := i.nBits);
    ri' := i.ri;
    ClenSteps(SizesOf(l, last), l.nClen, got, t, all);
    if i.nBits < 3 {
      o := DynNeedsInput;
      return;
    }
    var x, i1 := Take(i, 3, src, all);
    PlacedNext(codeLengths[..], got, l.i, x);
    var k := OrderOf(l.i);
    codeLengths[k] := x;
    StepLeads(c0, c, src[ri'..]);
    l' := l.(bits := i1.bits, nBits := i1.nBits, i := l.i + 1);
    m' := m.(c := Advance(c).next, held := all[3..]);
    o := DynOn;
  }

  method OrderOf(k: nat) returns (s: nat)
    requires k < 19
    ensures s == Order(k) && s < 19
  {
    s := Order(k);
  }

  lemma ClenEnds(sizes: Sizes, nClen: nat, got: seq<nat>, t: seq<Byte>, bits: seq<bool>)
    requires StageOk(ClenLengths(sizes, nClen, got)) && |got| == nClen
    ensures var c := Config(ClenLengths(sizes, nClen, got), t, bits);
            if Complete(Ordered(got)) then Advance(c) == Go(Config(CodeLengths(sizes, Ordered(got), []), t, bits))
            else Advance(c) == Stop(BadTrees)
  {
  }

  lemma {:induction false} OrderedSmall(got: seq<nat>)
    requires |got| <= 19 && forall k | 0 <= k < |got| :: got[k] <= 7
    ensures forall k | 0 <= k < 19 :: Ordered(got)[k] <= 7
  {
    if got != [] {
      OrderedSmall(got[..|got| - 1]);
    }
  }

  method ZeroRest(codeLengths: array<nat>, n: nat, ghost got: seq<nat>)
    requires codeLengths.Length >= 19 && |got| <= n <= 19 && Placed(codeLengths[..], got, n)
    modifies codeLengths
    ensures codeLengths[..19] == Ordered(got)
  {
    hide Order, Placed, Ordered;
    var i := n;
    while i < 19
      invariant n <= i <= 19 && Placed(codeLengths[..], got, i)
    {
      PlacedNext(codeLengths[..], got, i, 0);
      var k := OrderOf(i);
      ghost var before := codeLengths[..];
      codeLengths[k] := 0;
      assert codeLengths[..] == before[k := 0];
      i := i + 1;
    }
    PlacedAll(codeLengths[..], got);
    assert codeLengths[..19] == codeLengths[..][..19];
  }

  lemma SmallLengths(lens: seq<nat>)
    requires forall k | 0 <= k < |lens| :: lens[k] <= 7
    ensures Lengths(lens)
  {
  }

  /** The rest of the code length code lengths are zero; its table goes where the literal/length table
      will be. */
  method ClenFinish(l: DynLocals, codeLengths: array<nat>, huffs0: array<nat>, ghost src: seq<Byte>, ghost ri: nat, ghost c0: Config,
                    ghost last: bool, ghost t: seq<Byte>, ghost m: DynMeaning, ghost nb: nat)
    returns (l': DynLocals, nb': nat, o: DynOutcome, ghost m': DynMeaning)
    requires l.pc == OnClen && l.i == l.nClen && huffs0.Length == TABLE_SIZE && codeLengths != huffs0
    requires DynFollows(c0, l, m, last, t, src, ri, codeLengths[..], huffs0[..], nb)
    modifies codeLengths, huffs0
    ensures DynAfter(c0, l', m', last, t, src, ri, codeLengths[..], huffs0[..], nb', o)
    ensures l'.nBits == l.nBits
    ensures o == DynOn ==> l'.pc == OnLengths && l'.i == 0 && l'.nLit == l.nLit && l'.nDist == l.nDist && l'.nBits == l.nBits < 8
    ensures o != DynNeedsInput && o != DynAllRead
  {
    hide Leads, Feed, Advance, ToNat, Order, Placed, Complete, Ordered, TableFor, Tight;
    ghost var got := m.c.stage.got;
    ZeroRest(codeLengths, l.i, got);
    OrderedSmall(got);
    ClenEnds(SizesOf(l, last), l.nClen, got, t, m.held);
    var clens := codeLengths[..19];
    SmallLengths(clens);
    var ok;
    ghost var cl;
    ok, nb', cl := BuildFor(huffs0, clens, 0, 4095);
    m' := m;
    l' := l.(pc := OnLengths, i := 0);
    if !ok {
      o := DynStops(BadTrees);
      return;
    }
    StepLeads(c0, m.c, src[ri..]);
    m' := DynMeaning(Advance(m.c).next, m.held, cl);
    FewAreTight(cl.lens, m.held);
    assert codeLengths[..][..0] == [];
    o := DynOn;
  }

  // ---------------- The code lengths

  lemma LengthsSteps(sizes: Sizes, clens: seq<nat>, got: seq<nat>, t: seq<Byte>, bits: seq<bool>)
    requires StageOk(CodeLengths(sizes, clens, got)) && |got| < sizes.nLit + sizes.nDist
    ensures var step := Advance(Config(CodeLengths(sizes, clens, got), t, bits));
            match Next(clens, bits)
            case None => step == Wait
            case Some(s) =>
              var rest := bits[clens[s]..];
              if s < 16 then step == Go(Config(CodeLengths(sizes, clens, got + [s]), t, rest))
              else if s == 16 && got == [] then step == Stop(BadRepetition)
              else step == Go(Config(Repeat(sizes, clens, got, s), t, rest))
  {
  }

  /** Suspension point 4: one symbol of the code length code. */
  method LengthsStep(l: DynLocals, codeLengths: array<nat>, huffs0: array<nat>, nb0: nat, src: seq<Byte>, ri: nat, ghost c0: Config,
                     ghost last: bool, ghost t: seq<Byte>, ghost m: DynMeaning)
    returns (l': DynLocals, ri': nat, o: DynOutcome, ghost m': DynMeaning)
    requires l.pc == OnLengths && l.i < l.nLit + l.nDist && codeLengths != huffs0
    requires DynFollows(c0, l, m, last, t, src, ri, codeLengths[..], huffs0[..], nb0)
    modifies codeLengths
    ensures ri <= ri' && DynAfter(c0, l', m', last, t, src, ri', codeLengths[..], huffs0[..], nb0, o)
    ensures DynRemaining(l', src, ri') <= DynRemaining(l, src, ri)
    ensures o == DynOn ==> l'.nLit == l.nLit && l'.nDist == l.nDist && l'.nBits < 8
    ensures o == DynOn ==> (l'.pc == OnLengths && l'.i == l.i + 1) || (l'.pc == OnRepeat && l'.i == l.i)
    ensures o != DynAllRead
  {
    hide Leads, Feed, Advance, ToNat, Read, TableFor, EntryBits, EntryKind, Low, Value, ReadMsb, Code, Tight;
    ghost var i0 := Input(l.bits, l.nBits, ri);
    var found, entry, i, all, s := ReadRoot(huffs0, nb0, m.cl, Input(l.bits, l.nBits, ri), src, m.held);
    ReadKeepsRemaining(i0, m.held, i, all, src);
    ReadLeads(c0, m.c.stage, t, i0, m.held, i, all, src);
    ghost var c := Config(m.c.stage, t, all);
    m' := m.(c := c, held := all);
    l' := l.(bits := i.bits, nBits := i.nBits);
    ri' := i.ri;
    ghost var got := codeLengths[..][..l.i];
    LengthsSteps(SizesOf(l, last), m.cl.lens, got, t, all);
    if !found {
      o := DynNeedsInput;
      return;
    }
    EntryTakesBits(huffs0[..], nb0, m.cl, all, s);
    TightLeavesLittle(m.cl.lens, all, s);
    ClenEntries(huffs0[..], nb0, m.cl, s);
    var _, i' := Take(i, EntryBits(entry), src, all);
    l' := l.(bits := i'.bits, nBits := i'.nBits);
    if entry / 0x0100_0000 != 128 {
      o := DynBroken;
      return;
    }
    var x := entry / 256 % 256;
    if x < 16 {
      StepLeads(c0, c, src[ri'..]);
      codeLengths[l.i] := x;
      l' := l'.(i := l.i + 1);
      m' := m.(c := Advance(c).next, held := all[m.cl.lens[s]..]);
      Appended(got, codeLengths[..], l.i, x);
      FewAreTight(m.cl.lens, m'.held);
      o := DynOn;
      return;
    }
    if x == 16 && l.i <= 0 {
      o := DynStops(BadRepetition);
      return;
    }
    StepLeads(c0, c, src[ri'..]);
    l' := l'.(pc := OnRepeat, entry := x);
    m' := m.(c := Advance(c).next, held := all[m.cl.lens[s]..]);
    o := DynOn;
  }

  lemma ClenEntries(huffs: seq<nat>, nb: nat, cl: Call, s: nat)
    requires ClenTable(huffs, nb, cl) && Coded(cl.lens, s)
    ensures cl.lens[s] <= 7 && s < 19
    ensures Value(cl, s, cl.lens[s]) / 0x0100_0000 == 128 && Value(cl, s, cl.lens[s]) / 256 % 256 == s
  {
    ClenEntry(cl, s, cl.lens[s]);
  }

  lemma Appended(got: seq<nat>, lens: seq<nat>, i: nat, x: nat)
    requires |got| == i < |lens| && lens[..i] == got && lens[i] == x <= 15 && Lengths(got)
    ensures lens[..i + 1] == got + [x] && Lengths(lens[..i + 1])
  {
  }

  lemma RepeatSteps(sizes: Sizes, clens: seq<nat>, got: seq<nat>, s: nat, t: seq<Byte>, bits: seq<bool>)
    requires StageOk(Repeat(sizes, clens, got, s))
    ensures var step := Advance(Config(Repeat(sizes, clens, got, s), t, bits));
            var n := RepeatExtra(s);
            if |bits| < n then step == Wait
            else
              var count := RepeatBase(s) + ToNat(bits[..n]);
              if |got| + count > sizes.nLit + sizes.nDist then step == Stop(BadLengthCount)
              else step == Go(Config(CodeLengths(sizes, clens, got + Copies(count, Repeated(got, s))), t, bits[n..]))
  {
    hide ToNat;
  }

  function Repeated(got: seq<nat>, s: nat): nat
    requires s == 16 ==> got != []
  {
    if s == 16 then got[|got| - 1] else 0
  }

  function Copies(n: nat, what: nat): seq<nat> { seq(n, _ => what) }

  /** Writes `count` copies of x from i on, unless that is more than there are code lengths. */
  method WriteCopies(codeLengths: array<nat>, i: nat, count: nat, x: nat, total: nat) returns (i': nat, tooMany: bool)
    requires i <= total <= codeLengths.Length
    modifies codeLengths
    ensures codeLengths[..i] == old(codeLengths[..i])
    ensures tooMany <==> i + count > total
    ensures !tooMany ==> i' == i + count && codeLengths[..i'] == old(codeLengths[..i]) + Copies(count, x)
  {
    i', tooMany := i, false;
    var repCount: nat := count;
    while repCount > 0
      invariant i <= i' <= total && repCount + (i' - i) == count
      invariant codeLengths[..i'] == old(codeLengths[..i]) + Copies(i' - i, x)
      invariant codeLengths[..i] == old(codeLengths[..i])
    {
      if i' >= total {
        tooMany := true;
        return;
      }
      ghost var before := codeLengths[..i'];
      codeLengths[i'] := x;
      assert codeLengths[..i' + 1] == before + [x];
      assert Copies(i' + 1 - i, x) == Copies(i' - i, x) + [x];
      i' := i' + 1;
      repCount := repCount - 1;
    }
  }

  /** Suspension point 5: how often to repeat. */
  method RepeatStep(l: DynLocals, codeLengths: array<nat>, huffs0: array<nat>, nb0: nat, src: seq<Byte>, ri: nat, ghost c0: Config,
                    ghost last: bool, ghost t: seq<Byte>, ghost m: DynMeaning)
    returns (l': DynLocals, ri': nat, o: DynOutcome, ghost m': DynMeaning)
    requires l.pc == OnRepeat && codeLengths != huffs0
    requires DynFollows(c0, l, m, last, t, src, ri, codeLengths[..], huffs0[..], nb0)
    modifies codeLengths
    ensures ri <= ri' && DynAfter(c0, l', m', last, t, src, ri', codeLengths[..], huffs0[..], nb0, o)
    ensures DynRemaining(l', src, ri') <= DynRemaining(l, src, ri)
    ensures o == DynOn ==> l'.nLit == l.nLit && l'.nDist == l.nDist && l'.pc == OnLengths && l.i < l'.i && l'.nBits < 8
    ensures o != DynAllRead
  {
    hide Leads, Feed, Advance, ToNat, Read, TableFor, Tight, ClenTable, Copies;
    ghost var i0 := Input(l.bits, l.nBits, ri);
    var n := RepeatExtra(l.entry);
    ClenFacts(huffs0[..], nb0, m.cl);
    var i, all := Fill(Input(l.bits, l.nBits, ri), n, src, m.held);
    ReadKeepsRemaining(i0, m.held, i, all, src);
    ReadLeads(c0, m.c.stage, t, i0, m.held, i, all, src);
    ghost var c := Config(m.c.stage, t, all);
    m' := m.(c := c, held := all);
    l' := l.(bits := i.bits, nBits := i.nBits);
    ri' := i.ri;
    ghost var got := codeLengths[..][..l.i];
    RepeatSteps(SizesOf(l, last), m.cl.lens, got, l.entry, t, all);
    if i.nBits < n {
      o := DynNeedsInput;
      return;
    }
    var y, i1 := Take(i, n, src, all);
    var x := if l.entry == 16 then codeLengths[l.i - 1] else 0;
    assert codeLengths[..l.i] == got && x == Repeated(got, l.entry) <= 15;
    var k, tooMany := WriteCopies(codeLengths, l.i, RepeatBase(l.entry) + y, x, l.nLit + l.nDist);
    if tooMany {
      o := DynStops(BadLengthCount);
      return;
    }
    StepLeads(c0, c, src[ri'..]);
    l' := l.(pc := OnLengths, bits := i1.bits, nBits := i1.nBits, i := k);
    m' := m.(c := Advance(c).next, held := all[n..]);
    FewAreTight(m.cl.lens, m'.held);
    CopiesSmall(got, k - l.i, x);
    assert codeLengths[..][..k] == codeLengths[..k];
    o := DynOn;
  }

  lemma ClenFacts(huffs: seq<nat>, nb: nat, cl: Call)
    requires ClenTable(huffs, nb, cl)
    ensures Lengths(cl.lens) && |cl.lens| == 19
  {
  }

  lemma CopiesSmall(got: seq<nat>, n: nat, x: nat)
    requires Lengths(got) && x <= 15
    ensures Lengths(got + Copies(n, x))
  {
  }

  // ---------------- The coroutine

  datatype DynStatus = TreesBuilt | DynShortRead | DynFails(verdict: Verdict)

  /** The tables of a coded block are in place. */
  ghost predicate BuiltFor(b: CodedBlock, last: bool, huffs0: seq<nat>, nb0: nat, huffs1: seq<nat>, nb1: nat)
  {
    BlockOk(b) && b.last == last && b.huffs0 == huffs0 && b.nb0 == nb0 && b.huffs1 == huffs1 && b.nb1 == nb1
  }

  lemma LengthsEnd(sizes: Sizes, clens: seq<nat>, got: seq<nat>, t: seq<Byte>, bits: seq<bool>)
    requires StageOk(CodeLengths(sizes, clens, got)) && |got| == sizes.nLit + sizes.nDist
    ensures var step := Advance(Config(CodeLengths(sizes, clens, got), t, bits));
            if got[256] == 0 then step == Stop(MissingEndOfBlock)
            else if !Complete(got[..sizes.nLit]) || !Complete(got[sizes.nLit..]) then step == Stop(BadTrees)
            else step == Go(Config(Symbol(sizes.last, Trees(got[..sizes.nLit], got[sizes.nLit..])), t, bits))
  {
  }

  /** All code lengths have been read: build both tables. */
  method BuildTrees(l: DynLocals, codeLengths: array<nat>, huffs0: array<nat>, nb0: nat, huffs1: array<nat>, nb1: nat,
                    ghost src: seq<Byte>, ghost ri: nat, ghost c0: Config, ghost last: bool, ghost t: seq<Byte>, ghost m: DynMeaning)
    returns (status: DynStatus, nb0': nat, nb1': nat, ghost c': Config, ghost b: CodedBlock)
    requires huffs0.Length == TABLE_SIZE && huffs1.Length == TABLE_SIZE && huffs0 != huffs1 && codeLengths != huffs0 && codeLengths != huffs1
    requires DynAfter(c0, l, m, last, t, src, ri, codeLengths[..], huffs0[..], nb0, DynAllRead)
    modifies huffs0, huffs1
    ensures StageOk(c'.stage) && Leads(c0, Feed(c', src[ri..])) && c'.out == t
    ensures status == TreesBuilt ==>
              && BuiltFor(b, last, huffs0[..], nb0', huffs1[..], nb1')
              && c' == Config(Symbol(b.last, b.trees), t, m.held)
    ensures status.DynFails? ==> Advance(c') == Stop(status.verdict) && !status.verdict.Done?
    ensures status != DynShortRead
  {
    hide Leads, Feed, Advance, ToNat, TableFor, Tight, ClenTable, Complete, Holding;
    ghost var got := codeLengths[..][..l.i];
    c', nb0', nb1' := m.c, nb0, nb1;
    b := CodedBlock(last, Trees(got[..l.nLit], got[l.nLit..]), [], 0, m.cl, [], 0, m.cl);
    LengthsEnd(SizesOf(l, last), m.cl.lens, got, t, m.held);
    if codeLengths[256] == 0 {
      status := DynFails(MissingEndOfBlock);
      return;
    }
    var lit, dist := codeLengths[..l.nLit], codeLengths[l.nLit..l.nLit + l.nDist];
    LengthsSplit(got, lit, dist, l.nLit);
    var ok;
    ghost var litCall, distCall;
    ok, nb0', litCall := BuildFor(huffs0, lit, 0, 257);
    if !ok {
      status := DynFails(BadTrees);
      return;
    }
    ok, nb1', distCall := BuildFor(huffs1, dist, 1, 0);
    if !ok {
      status := DynFails(BadTrees);
      return;
    }
    StepLeads(c0, m.c, src[ri..]);
    c' := Advance(m.c).next;
    b := CodedBlock(last, Trees(lit, dist), huffs0[..], nb0', litCall, huffs1[..], nb1', distCall);
    status := TreesBuilt;
  }

  lemma LengthsSplit(got: seq<nat>, lit: seq<nat>, dist: seq<nat>, n: nat)
    requires n <= |got| && Lengths(got) && lit == got[..n] && dist == got[n..]
    ensures Lengths(lit) && Lengths(dist)
  {
  }

  /** How far along the header is. */
  function DynRank(pc: DynPc): nat { if pc == OnCounts then 2 else if pc == OnClen then 1 else 0 }

  function DynTodo(l: DynLocals): int
  {
    match l.pc
    case OnCounts => 0
    case OnClen => l.nClen - l.i
    case OnLengths => 2 * (l.nLit + l.nDist - l.i)
    case OnRepeat => 2 * (l.nLit + l.nDist - l.i) - 1
  }

  /** One step. */
  method DynStep(l: DynLocals, codeLengths: array<nat>, huffs0: array<nat>, nb0: nat, src: seq<Byte>, ri: nat,
                 ghost c0: Config, ghost last: bool, ghost t: seq<Byte>, ghost m: DynMeaning)
    returns (l': DynLocals, ri': nat, nb0': nat, o: DynOutcome, ghost m': DynMeaning)
    requires huffs0.Length == TABLE_SIZE && codeLengths != huffs0
    requires DynFollows(c0, l, m, last, t, src, ri, codeLengths[..], huffs0[..], nb0)
    modifies codeLengths, huffs0
    ensures ri <= ri' && DynAfter(c0, l', m', last, t, src, ri', codeLengths[..], huffs0[..], nb0', o)
    ensures DynRemaining(l', src, ri') <= DynRemaining(l, src, ri)
    ensures o == DynOn ==>
              || DynRank(l'.pc) < DynRank(l.pc)
              || (DynRank(l'.pc) == DynRank(l.pc) && 0 <= DynTodo(l') < DynTodo(l))
  {
    hide Leads, Feed, Advance, ClenTable, Tight, Holding;
    nb0' := nb0;
    match l.pc {
      case OnCounts => l', ri', o, m' := CountsStep(l, src, ri, c0, last, t, m, codeLengths[..], huffs0[..], nb0);
      case OnClen =>
        if l.i < l.nClen {
          l', ri', o, m' := ClenStep(l, codeLengths, src, ri, c0, last, t, m, huffs0[..], nb0);
        } else {
          l', nb0', o, m' := ClenFinish(l, codeLengths, huffs0, src, ri, c0, last, t, m, nb0);
          ri' := ri;
        }
      case OnLengths =>
        if l.i < l.nLit + l.nDist {
          l', ri', o, m' := LengthsStep(l, codeLengths, huffs0, nb0, src, ri, c0, last, t, m);
        } else {
          ClenFacts(huffs0[..], nb0, m.cl);
          l', ri', o, m' := l, ri, DynAllRead, m;
        }
      case OnRepeat => l', ri', o, m' := RepeatStep(l, codeLengths, huffs0, nb0, src, ri, c0, last, t, m);
    }
  }

  ghost predicate DynDone(c0: Config, l: DynLocals, m: DynMeaning, last: bool, t: seq<Byte>, src: seq<Byte>, ri: nat,
                          lens: seq<nat>, huffs0: seq<nat>, nb0: nat, huffs1: seq<nat>, nb1: nat, b: CodedBlock, status: DynStatus)
  {
    && ri <= |src| && StageOk(m.c.stage) && Leads(c0, Feed(m.c, src[ri..]))
    && match status
       case TreesBuilt =>
         && Has(Input(l.bits, l.nBits, ri), src, m.held) && l.nBits < 8
         && BuiltFor(b, last, huffs0, nb0, huffs1, nb1) && m.c == Config(Symbol(b.last, b.trees), t, m.held)
       case DynShortRead => DynFollows(c0, l, m, last, t, src, ri, lens, huffs0, nb0) && ri == |src| && Advance(m.c).Wait?
       case DynFails(v) => Advance(m.c) == Stop(v) && m.c.out == t && !v.Done?
  }

  /** init_dynamic_huffman, from wherever it was. */
  method InitDynamicHuffman(l: DynLocals, codeLengths: array<nat>, huffs0: array<nat>, nb0: nat, huffs1: array<nat>, nb1: nat,
                            src: seq<Byte>, ri: nat, ghost c0: Config, ghost last: bool, ghost t: seq<Byte>, ghost m: DynMeaning)
    returns (l': DynLocals, ri': nat, nb0': nat, nb1': nat, status: DynStatus, ghost m': DynMeaning, ghost b: CodedBlock)
    requires huffs0.Length == TABLE_SIZE && huffs1.Length == TABLE_SIZE && huffs0 != huffs1 && codeLengths != huffs0 && codeLengths != huffs1
    requires DynFollows(c0, l, m, last, t, src, ri, codeLengths[..], huffs0[..], nb0)
    modifies codeLengths, huffs0, huffs1
    ensures ri <= ri' && DynDone(c0, l', m', last, t, src, ri', codeLengths[..], huffs0[..], nb0', huffs1[..], nb1', b, status)
    ensures DynRemaining(l', src, ri') <= DynRemaining(l, src, ri)
  {
    hide DynMeans, Leads, Feed, Advance, Holding;
    l', ri', nb0', nb1', m' := l, ri, nb0, nb1, m;
    b := CodedBlock(last, Trees([], []), [], 0, m.cl, [], 0, m.cl);
    var o := DynOn;
    while o == DynOn
      invariant DynRemaining(l', src, ri') <= DynRemaining(l, src, ri)
      invariant ri <= ri' && (o == DynOn ==> DynFollows(c0, l', m', last, t, src, ri', codeLengths[..], huffs0[..], nb0'))
      invariant o != DynOn ==> DynAfter(c0, l', m', last, t, src, ri', codeLengths[..], huffs0[..], nb0', o)
      decreases o == DynOn, DynRank(l'.pc), DynTodo(l')
    {
      l', ri', nb0', o, m' := DynStep(l', codeLengths, huffs0, nb0', src, ri', c0, last, t, m');
    }
    if o == DynAllRead {
      ghost var c';
      status, nb0', nb1', c', b := BuildTrees(l', codeLengths, huffs0, nb0', huffs1, nb1', src, ri', c0, last, t, m');
      m' := m'.(c := c');
    } else {
      status := match o case DynStops(v) => DynFails(v) case _ => DynShortRead;
    }
  }
}
