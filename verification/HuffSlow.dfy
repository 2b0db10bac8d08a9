/** decode_huffman_slow (gen/c/std/deflate.c): decoding a block's symbols, one step of the
    coroutine at a time, against the format. */
module HuffSlow {
  import opened Options
  import opened Bits
  import opened Words
  import opened BitStream
  import opened Codes
  import opened Entries
  import opened HuffTable
  import opened Inflate
  import opened Lookups
  import opened HuffRead
  import opened Writers
  import opened History
  import opened BackRefs

  // ---------------- The block being decoded

  /** The block's codes and the finished tables for them. */
  datatype CodedBlock = CodedBlock(last: bool, trees: Trees,
                                   huffs0: seq<nat>, nb0: nat, lit: Call, huffs1: seq<nat>, nb1: nat, dist: Call)

  ghost predicate BlockOk(b: CodedBlock)
  {
    && TableFor(b.huffs0, b.nb0, b.lit) && b.lit.lens == b.trees.lit && |b.trees.lit| <= 288
    && b.lit.which == 0 && b.lit.baseSymbol == 257
    && TableFor(b.huffs1, b.nb1, b.dist) && b.dist.lens == b.trees.dist && |b.trees.dist| <= 32
    && b.dist.which == 1 && b.dist.baseSymbol == 0
    && TreesOk(b.trees)
  }

  // ---------------- The coroutine's variables

  /** Where the coroutine is. The suspension points are, in this order: 1, 3, 2 and 4, 5, 6, 7, 8,
      and 9 to 11. */
  datatype Pc =
    | OnSymbol | OnSymbolRedirect | OnLiteral | OnLengthExtra
    | OnDistance | OnDistanceRedirect | OnDistanceExtra | OnCopy

  datatype Locals = Locals(pc: Pc, bits: nat, nBits: nat, entry: nat, length: nat, distance: nat, copying: Copying)

  /** What the variables stand for: the format's configuration, the bits consumed by a redirect,
      and the bits held. */
  datatype Meaning = Meaning(c: Config, pre: seq<bool>, held: seq<bool>)

  ghost predicate Means(l: Locals, m: Meaning, b: CodedBlock, t: seq<Byte>)
  {
    match l.pc
    case OnSymbol =>
      m.c == Config(Symbol(b.last, b.trees), t, m.held) && Tight(b.trees.lit, m.held)
    case OnSymbolRedirect =>
      && m.c == Config(Symbol(b.last, b.trees), t, m.pre + m.held) && Tight(b.trees.lit, m.pre + m.held)
      && Redirected(b.huffs0, b.nb0, m.pre, l.entry)
    case OnLiteral =>
      m.c == Config(Symbol(b.last, b.trees), t + [LiteralOf(l.entry)], m.held) && l.nBits < 8
    case OnLengthExtra =>
      && m.c.stage.LengthExtra? && m.c == Config(LengthExtra(b.last, b.trees, m.c.stage.i), t, m.held)
      && m.c.stage.i < 29 && l.length == LengthBase(m.c.stage.i)
      && l.entry / 16 % 16 == ExtraLengthBits(m.c.stage.i) && l.nBits < ExtraLengthBits(m.c.stage.i) + 8
    case OnDistance =>
      && m.c == Config(Distance(b.last, b.trees, l.length), t, m.held) && Tight(b.trees.dist, m.held)
      && 3 <= l.length <= 258
    case OnDistanceRedirect =>
      && m.c == Config(Distance(b.last, b.trees, l.length), t, m.pre + m.held) && Tight(b.trees.dist, m.pre + m.held)
      && 3 <= l.length <= 258 && Redirected(b.huffs1, b.nb1, m.pre, l.entry)
    case OnDistanceExtra =>
      && m.c.stage.DistanceExtra? && m.c == Config(DistanceExtra(b.last, b.trees, l.length, m.c.stage.d), t, m.held)
      && 3 <= l.length <= 258 && m.c.stage.d < 30 && l.distance == DistanceBase(m.c.stage.d)
      && l.entry / 16 % 16 == ExtraDistanceBits(m.c.stage.d) && l.nBits < ExtraDistanceBits(m.c.stage.d) + 8
    case OnCopy =>
      m.c == Config(Move(b.last, b.trees, Left(l.copying), l.copying.distance), t, m.held) && l.nBits < 8
  }

  function LiteralOf(entry: nat): Byte { entry / 256 % 256 }

  /** The variables, the input from ri on and the output t together lead where c0 leads. */
  ghost predicate Follows(c0: Config, l: Locals, m: Meaning, b: CodedBlock, src: seq<Byte>, ri: nat, t: seq<Byte>)
  {
    && Has(Input(l.bits, l.nBits, ri), src, m.held)
    && Means(l, m, b, t)
    && Leads(c0, Feed(m.c, src[ri..]))
  }

  /** What a step can come to. */
  datatype Outcome = Onward | NeedsInput | EndOfBlock | BadHuffmanCode | BadState

  ghost predicate After(c0: Config, l: Locals, m: Meaning, b: CodedBlock, src: seq<Byte>, ri: nat, t: seq<Byte>, o: Outcome)
  {
    && ri <= |src|
    && match o
       case Onward => Follows(c0, l, m, b, src, ri, t)
       case NeedsInput => Follows(c0, l, m, b, src, ri, t) && ri == |src| && StageOk(m.c.stage) && Advance(m.c).Wait?
       case EndOfBlock =>
         && Has(Input(l.bits, l.nBits, ri), src, m.held) && l.nBits < 8
         && Leads(c0, Feed(m.c, src[ri..])) && Advance(m.c) == AfterBlock(b.last, t, m.held) && m.c.out == t
       case BadHuffmanCode => Leads(c0, Feed(m.c, src[ri..])) && Advance(m.c) == Stop(BadCode) && m.c.out == t
       case BadState => false
  }

  // ---------------- Symbols

  /** Taking a step of the format, with the rest of the input still to come. */
  lemma StepLeads(c0: Config, c: Config, src: seq<Byte>)
    requires Leads(c0, Feed(c, src)) && StageOk(c.stage) && Advance(c).Go?
    ensures Leads(c0, Feed(Advance(c).next, src))
  {
    hide Advance, Leads, Run;
    LeadsRefl(c);
    LeadsByStep(c, c);
    LeadsFed(c, Advance(c).next, src);
    LeadsTransitive(c0, Feed(c, src), Feed(Advance(c).next, src));
  }

  lemma LeadsRefl(c: Config)
    requires StageOk(c.stage)
    ensures Leads(c, c)
  {
  }

  /** The format's step at a symbol. */
  lemma SymbolSteps(b: CodedBlock, t: seq<Byte>, all: seq<bool>, s: nat)
    requires TreesOk(b.trees) && Next(b.trees.lit, all) == Some(s)
    ensures var step := Advance(Config(Symbol(b.last, b.trees), t, all));
            var rest := all[b.trees.lit[s]..];
            && (s < 256 ==> step == Go(Config(Symbol(b.last, b.trees), t + [s], rest)))
            && (s == 256 ==> step == AfterBlock(b.last, t, rest))
            && (257 <= s < 286 ==> step == Go(Config(LengthExtra(b.last, b.trees, s - 257), t, rest)))
            && (286 <= s ==> step == Stop(BadCode))
  {
  }

  /** What to do with a symbol, from its entry. */
  method ActOnSymbol(l: Locals, src: seq<Byte>, ghost ri: nat, ghost c0: Config, ghost b: CodedBlock, ghost t: seq<Byte>,
                     ghost all: seq<bool>, ghost s: nat)
    returns (l': Locals, o: Outcome, ghost m: Meaning)
    requires BlockOk(b) && Next(b.trees.lit, all) == Some(s) && LitFields(l.entry, s) && EntryKind(l.entry) != 1
    requires Has(Input(l.bits, l.nBits, ri), src, all[b.trees.lit[s]..]) && l.nBits < 8
    requires Leads(c0, Feed(Config(Symbol(b.last, b.trees), t, all), src[ri..]))
    ensures l'.bits == l.bits && l'.nBits == l.nBits
    ensures o != Onward ==> o == EndOfBlock || o == BadHuffmanCode
    ensures After(c0, l', m, b, src, ri, t, o)
    ensures o == Onward ==> l'.pc != OnCopy
  {
    hide Leads, Feed, TableFor, ReadMsb, Code, EntryKind, Advance, LengthBase, ExtraLengthBits, ToNat;
    ghost var c := Config(Symbol(b.last, b.trees), t, all);
    ghost var held := all[b.trees.lit[s]..];
    m, l' := Meaning(c, [], held), l;
    SymbolSteps(b, t, all, s);
    if l.entry / 0x8000_0000 != 0 {
      StepLeads(c0, c, src[ri..]);
      m := Meaning(Advance(c).next, [], held);
      return l.(pc := OnLiteral), Onward, m;
    } else if l.entry / 0x4000_0000 != 0 {
      StepLeads(c0, c, src[ri..]);
      m := Meaning(Advance(c).next, [], held);
      l' := l.(pc := OnLengthExtra, length := l.entry / 256 % 32768);
      return l', Onward, m;
    } else if l.entry / 0x2000_0000 != 0 {
      return l, EndOfBlock, m;
    } else if l.entry / 0x1000_0000 != 0 {
      return l, BadState, m;
    } else if l.entry / 0x0800_0000 != 0 {
      return l, BadHuffmanCode, m;
    } else {
      return l, BadState, m;
    }
  }

  /** How much input there is, in bits. */
  function Remaining(l: Locals, src: seq<Byte>, ri: nat): nat
    requires ri <= |src|
  {
    8 * (|src| - ri) + l.nBits
  }

  /** Steps that use no bits come in this order. */
  function PcRank(pc: Pc): nat
  {
    match pc
    case OnLengthExtra => 4
    case OnDistance => 3
    case OnDistanceExtra => 2
    case OnCopy => 1
    case OnLiteral => 1
    case _ => 0
  }

  ghost predicate Progress(l: Locals, ri: nat, l': Locals, ri': nat, src: seq<Byte>)
  {
    && ri <= ri' <= |src|
    && (|| Remaining(l', src, ri') < Remaining(l, src, ri)
        || (Remaining(l', src, ri') == Remaining(l, src, ri) && PcRank(l'.pc) < PcRank(l.pc)))
  }

  lemma ReadKeepsRemaining(i: Input, held: seq<bool>, i': Input, all: seq<bool>, src: seq<Byte>)
    requires Has(i, src, held) && Has(i', src, all) && Read(i, held, i', all, src)
    ensures i.ri <= i'.ri && 8 * (|src| - i'.ri) + i'.nBits == 8 * (|src| - i.ri) + i.nBits
  {
  }

  /** Suspension point 1: the first look-up of a literal/length code. */
  method SymbolStep(l: Locals, huffs0: array<nat>, nb0: nat, src: seq<Byte>, ri: nat,
                    ghost c0: Config, ghost b: CodedBlock, ghost t: seq<Byte>, ghost m: Meaning)
    returns (l': Locals, ri': nat, o: Outcome, ghost m': Meaning)
    requires l.pc == OnSymbol && BlockOk(b) && huffs0[..] == b.huffs0 && nb0 == b.nb0
    requires Follows(c0, l, m, b, src, ri, t)
    ensures ri <= ri' && After(c0, l', m', b, src, ri', t, o)
    ensures ri <= ri' <= |src| && Remaining(l', src, ri') <= Remaining(l, src, ri)
    ensures o == Onward ==> Progress(l, ri, l', ri', src)
    ensures o == Onward ==> l'.pc != OnCopy
    ensures o == NeedsInput ==> l'.pc == l.pc
  {
    hide Leads, Feed, TableFor, Read, EntryBits, EntryKind, Low, ToNat, Value, ReadMsb, Code, Tight, Advance, LitFields;
    BlockFacts(b);
    ghost var i0 := Input(l.bits, l.nBits, ri);
    var found, entry, i, all, s := ReadRoot(huffs0, nb0, b.lit, Input(l.bits, l.nBits, ri), src, m.held);
    ReadKeepsRemaining(i0, m.held, i, all, src);
    ReadLeads(c0, Symbol(b.last, b.trees), t, i0, m.held, i, all, src);
    ghost var c := Config(Symbol(b.last, b.trees), t, all);
    ri' := i.ri;
    if !found {
      SymbolWaits(b, t, all);
      return l.(bits := i.bits, nBits := i.nBits), ri', NeedsInput, Meaning(c, [], all);
    }
    EntryTakesBits(b.huffs0, b.nb0, b.lit, all, s);
    var _, i' := Take(i, EntryBits(entry), src, all);
    l' := l.(bits := i'.bits, nBits := i'.nBits, entry := entry);
    if EntryKind(entry) == 1 {
      TakesRedirect(b.huffs0, b.nb0, b.lit, all, s);
      assert all[..9] + all[9..] == all;
      return l'.(pc := OnSymbolRedirect), ri', Onward, Meaning(c, all[..9], all[9..]);
    }
    TightLeavesLittle(b.trees.lit, all, s);
    LitEntry(b.lit, s, b.trees.lit[s]);
    l', o, m' := ActOnSymbol(l', src, ri', c0, b, t, all, s);
  }

  lemma BlockFacts(b: CodedBlock)
    requires BlockOk(b)
    ensures EntriesOf(b.lit) && EntriesOf(b.dist) && Lengths(b.trees.lit) && Lengths(b.trees.dist)
    ensures |b.huffs0| == TABLE_SIZE && |b.huffs1| == TABLE_SIZE
  {
  }

  lemma SymbolWaits(b: CodedBlock, t: seq<Byte>, all: seq<bool>)
    requires TreesOk(b.trees) && Next(b.trees.lit, all) == None
    ensures Advance(Config(Symbol(b.last, b.trees), t, all)) == Wait
  {
  }

  lemma EntryTakesBits(huffs: seq<nat>, nb: nat, call: Call, all: seq<bool>, s: nat)
    requires AtRoot(huffs, nb, call, all, s)
    ensures Coded(call.lens, s)
    ensures var e := huffs[Low(ToNat(all), nb)];
            if EntryKind(e) == 1 then EntryBits(e) == 9 < call.lens[s]
            else 1 <= EntryBits(e) == call.lens[s] <= 9 && e == Value(call, s, call.lens[s])
  {
  }

  /** Suspension point 3: the second look-up. */
  method SymbolRedirectStep(l: Locals, huffs0: array<nat>, nb0: nat, src: seq<Byte>, ri: nat,
                            ghost c0: Config, ghost b: CodedBlock, ghost t: seq<Byte>, ghost m: Meaning)
    returns (l': Locals, ri': nat, o: Outcome, ghost m': Meaning)
    requires l.pc == OnSymbolRedirect && BlockOk(b) && huffs0[..] == b.huffs0 && nb0 == b.nb0
    requires Follows(c0, l, m, b, src, ri, t)
    ensures ri <= ri' && After(c0, l', m', b, src, ri', t, o)
    ensures ri <= ri' <= |src| && Remaining(l', src, ri') <= Remaining(l, src, ri)
    ensures o == Onward ==> Progress(l, ri, l', ri', src)
    ensures o == Onward ==> l'.pc != OnCopy
    ensures o == NeedsInput ==> l'.pc == l.pc
  {
    hide Leads, Feed, TableFor, Read, EntryBits, EntryKind, Low, ToNat, Value, ReadMsb, Code, Tight, Advance, LitFields, Redirected;
    BlockFacts(b);
    ghost var i0 := Input(l.bits, l.nBits, ri);
    var found, entry, i, all, s := ReadSub(huffs0, nb0, b.lit, l.entry, Input(l.bits, l.nBits, ri), src, m.pre, m.held);
    ReadKeepsRemaining(i0, m.held, i, all, src);
    ReadLeadsAfter(c0, Symbol(b.last, b.trees), t, m.pre, i0, m.held, i, all, src);
    ghost var whole := m.pre + all;
    ghost var c := Config(Symbol(b.last, b.trees), t, whole);
    ri' := i.ri;
    if !found {
      SymbolWaits(b, t, whole);
      return l.(bits := i.bits, nBits := i.nBits), ri', NeedsInput, Meaning(c, m.pre, all);
    }
    RedirectedBits(b.huffs0, b.nb0, m.pre, l.entry);
    var _, i' := Take(i, EntryBits(entry), src, all);
    l' := l.(bits := i'.bits, nBits := i'.nBits, entry := entry);
    DropBoth(m.pre, all, b.trees.lit[s]);
    TightLeavesLittle(b.trees.lit, whole, s);
    LitEntry(b.lit, s, b.trees.lit[s] - 9);
    l', o, m' := ActOnSymbol(l', src, ri', c0, b, t, whole, s);
  }

  lemma RedirectedBits(huffs: seq<nat>, nb: nat, pre: seq<bool>, redirect: nat)
    requires Redirected(huffs, nb, pre, redirect)
    ensures |pre| == 9
  {
  }

  lemma DropBoth(pre: seq<bool>, all: seq<bool>, n: nat)
    requires |pre| <= n <= |pre| + |all|
    ensures (pre + all)[n..] == all[n - |pre|..]
  {
  }

  /** Reading with the bits of a redirect set aside. */
  lemma ReadLeadsAfter(c0: Config, stage: Stage, out: seq<Byte>, pre: seq<bool>, i: Input, held: seq<bool>, i': Input, all: seq<bool>, src: seq<Byte>)
    requires Read(i, held, i', all, src) && Leads(c0, Feed(Config(stage, out, pre + held), src[i.ri..]))
    ensures Leads(c0, Feed(Config(stage, out, pre + all), src[i'.ri..]))
  {
    hide Leads, Feed;
    Associates(pre, held, Stream(src[i.ri..i'.ri]));
    ReadLeads(c0, stage, out, i, pre + held, i', pre + all, src);
  }

  // ---------------- Extra bits

  /** Suspension point 5: the extra bits of a length. */
  method LengthExtraStep(l: Locals, src: seq<Byte>, ri: nat,
                         ghost c0: Config, ghost b: CodedBlock, ghost t: seq<Byte>, ghost m: Meaning)
    returns (l': Locals, ri': nat, o: Outcome, ghost m': Meaning)
    requires l.pc == OnLengthExtra && BlockOk(b) && Follows(c0, l, m, b, src, ri, t)
    ensures ri <= ri' && After(c0, l', m', b, src, ri', t, o)
    ensures ri <= ri' <= |src| && Remaining(l', src, ri') <= Remaining(l, src, ri)
    ensures o == Onward ==> Progress(l, ri, l', ri', src)
    ensures o == Onward ==> l'.pc != OnCopy
    ensures o == NeedsInput ==> l'.pc == l.pc
  {
    hide Leads, Feed, TableFor, Read, ToNat, Tight, Advance, LengthBase, ExtraLengthBits;
    ghost var i0, k := Input(l.bits, l.nBits, ri), m.c.stage.i;
    var n := l.entry / 16 % 16;
    var i, all := Fill(Input(l.bits, l.nBits, ri), n, src, m.held);
    ReadKeepsRemaining(i0, m.held, i, all, src);
    ReadLeads(c0, m.c.stage, t, i0, m.held, i, all, src);
    ghost var c := Config(m.c.stage, t, all);
    ri' := i.ri;
    LengthExtraSteps(b, k, t, all);
    if i.nBits < n {
      return l.(bits := i.bits, nBits := i.nBits), ri', NeedsInput, Meaning(c, [], all);
    }
    var x, i' := Take(i, n, src, all);
    StepLeads(c0, c, src[ri'..]);
    var length := MaskLength(l.length + x);
    l' := l.(pc := OnDistance, bits := i'.bits, nBits := i'.nBits, length := length);
    m' := Meaning(Advance(c).next, [], all[n..]);
    FewAreTight(b.trees.dist, all[n..]);
    o := Onward;
  }

  /** `x & 32767` leaves lengths and distances alone. */
  method MaskLength(x: nat) returns (r: nat)
    requires x < 32768
    ensures r == x
  {
    MaskIsSlot(x);
    SlotIs(x, 0, x);
    r := AndNat(x, 32767);
  }

  lemma FewAreTight(lens: seq<nat>, bits: seq<bool>)
    requires |bits| < 8
    ensures Tight(lens, bits)
  {
  }

  lemma LengthExtraSteps(b: CodedBlock, k: nat, t: seq<Byte>, all: seq<bool>)
    requires TreesOk(b.trees) && k < 29
    ensures var n := ExtraLengthBits(k);
            var c := Config(LengthExtra(b.last, b.trees, k), t, all);
            && n <= 5
            && (|all| < n ==> Advance(c) == Wait)
            && (|all| >= n ==>
                  && 3 <= LengthBase(k) + ToNat(all[..n]) <= 258
                  && Advance(c) == Go(Config(Distance(b.last, b.trees, LengthBase(k) + ToNat(all[..n])), t, all[n..])))
  {
    hide LengthBase, ExtraLengthBits, ToNat, Pow2;
    var n := ExtraLengthBits(k);
    LengthFits(k);
    if |all| >= n { ToNatBound(all[..n]); }
  }

  lemma LengthFits(k: nat)
    requires k < 29
    ensures ExtraLengthBits(k) <= 5 && 3 <= LengthBase(k) && LengthBase(k) + Pow2(ExtraLengthBits(k)) - 1 <= 258
  {
    Pow2Values();
  }

  // ---------------- Distances

  lemma DistanceSteps(b: CodedBlock, length: nat, t: seq<Byte>, all: seq<bool>)
    requires TreesOk(b.trees)
    ensures var step := Advance(Config(Distance(b.last, b.trees, length), t, all));
            match Next(b.trees.dist, all)
            case None => step == Wait
            case Some(d) =>
              if d < 30 then step == Go(Config(DistanceExtra(b.last, b.trees, length, d), t, all[b.trees.dist[d]..]))
              else step == Stop(BadCode)
  {
  }

  /** What to do with a distance code, from its entry. */
  method ActOnDistance(l: Locals, src: seq<Byte>, ghost ri: nat, ghost c0: Config, ghost b: CodedBlock, ghost t: seq<Byte>,
                       ghost all: seq<bool>, ghost d: nat)
    returns (l': Locals, o: Outcome, ghost m: Meaning)
    requires BlockOk(b) && Next(b.trees.dist, all) == Some(d) && DistFields(l.entry, d) && 3 <= l.length <= 258
    requires Has(Input(l.bits, l.nBits, ri), src, all[b.trees.dist[d]..]) && l.nBits < 8
    requires Leads(c0, Feed(Config(Distance(b.last, b.trees, l.length), t, all), src[ri..]))
    ensures l'.bits == l.bits && l'.nBits == l.nBits
    ensures o == Onward || o == BadHuffmanCode
    ensures After(c0, l', m, b, src, ri, t, o)
    ensures o == Onward ==> l'.pc != OnCopy
  {
    hide Leads, Feed, TableFor, ReadMsb, Code, Advance, DistanceBase, ExtraDistanceBits, ToNat;
    ghost var c := Config(Distance(b.last, b.trees, l.length), t, all);
    ghost var held := all[b.trees.dist[d]..];
    m := Meaning(c, [], held);
    DistanceSteps(b, l.length, t, all);
    if l.entry / 0x0100_0000 != 64 {
      if l.entry / 0x0100_0000 == 8 {
        return l, BadHuffmanCode, m;
      }
      return l, BadState, m;
    }
    StepLeads(c0, c, src[ri..]);
    m := Meaning(Advance(c).next, [], held);
    l' := l.(pc := OnDistanceExtra, distance := l.entry / 256 % 32768 + 1);
    o := Onward;
  }

  /** Suspension point 6: the first look-up of a distance code. */
  method DistanceStep(l: Locals, huffs1: array<nat>, nb1: nat, src: seq<Byte>, ri: nat,
                      ghost c0: Config, ghost b: CodedBlock, ghost t: seq<Byte>, ghost m: Meaning)
    returns (l': Locals, ri': nat, o: Outcome, ghost m': Meaning)
    requires l.pc == OnDistance && BlockOk(b) && huffs1[..] == b.huffs1 && nb1 == b.nb1
    requires Follows(c0, l, m, b, src, ri, t)
    ensures ri <= ri' && After(c0, l', m', b, src, ri', t, o)
    ensures ri <= ri' <= |src| && Remaining(l', src, ri') <= Remaining(l, src, ri)
    ensures o == Onward ==> Progress(l, ri, l', ri', src)
    ensures o == Onward ==> l'.pc != OnCopy
    ensures o == NeedsInput ==> l'.pc == l.pc
  {
    hide Leads, Feed, TableFor, Read, EntryBits, EntryKind, Low, ToNat, Value, ReadMsb, Code, Tight, Advance, DistFields;
    BlockFacts(b);
    ghost var i0 := Input(l.bits, l.nBits, ri);
    var found, entry, i, all, d := ReadRoot(huffs1, nb1, b.dist, Input(l.bits, l.nBits, ri), src, m.held);
    ReadKeepsRemaining(i0, m.held, i, all, src);
    ReadLeads(c0, Distance(b.last, b.trees, l.length), t, i0, m.held, i, all, src);
    ghost var c := Config(Distance(b.last, b.trees, l.length), t, all);
    ri' := i.ri;
    if !found {
      DistanceSteps(b, l.length, t, all);
      return l.(bits := i.bits, nBits := i.nBits), ri', NeedsInput, Meaning(c, [], all);
    }
    EntryTakesBits(b.huffs1, b.nb1, b.dist, all, d);
    var _, i' := Take(i, EntryBits(entry), src, all);
    l' := l.(bits := i'.bits, nBits := i'.nBits, entry := entry);
    if EntryKind(entry) == 1 {
      TakesRedirect(b.huffs1, b.nb1, b.dist, all, d);
      assert all[..9] + all[9..] == all;
      return l'.(pc := OnDistanceRedirect), ri', Onward, Meaning(c, all[..9], all[9..]);
    }
    TightLeavesLittle(b.trees.dist, all, d);
    DistEntry(b.dist, d, b.trees.dist[d]);
    l', o, m' := ActOnDistance(l', src, ri', c0, b, t, all, d);
  }

  /** Suspension point 7: the second look-up. */
  method DistanceRedirectStep(l: Locals, huffs1: array<nat>, nb1: nat, src: seq<Byte>, ri: nat,
                              ghost c0: Config, ghost b: CodedBlock, ghost t: seq<Byte>, ghost m: Meaning)
    returns (l': Locals, ri': nat, o: Outcome, ghost m': Meaning)
    requires l.pc == OnDistanceRedirect && BlockOk(b) && huffs1[..] == b.huffs1 && nb1 == b.nb1
    requires Follows(c0, l, m, b, src, ri, t)
    ensures ri <= ri' && After(c0, l', m', b, src, ri', t, o)
    ensures ri <= ri' <= |src| && Remaining(l', src, ri') <= Remaining(l, src, ri)
    ensures o == Onward ==> Progress(l, ri, l', ri', src)
    ensures o == Onward ==> l'.pc != OnCopy
    ensures o == NeedsInput ==> l'.pc == l.pc
  {
    hide Leads, Feed, TableFor, Read, EntryBits, EntryKind, Low, ToNat, Value, ReadMsb, Code, Tight, Advance, DistFields, Redirected;
    BlockFacts(b);
    ghost var i0 := Input(l.bits, l.nBits, ri);
    var found, entry, i, all, d := ReadSub(huffs1, nb1, b.dist, l.entry, Input(l.bits, l.nBits, ri), src, m.pre, m.held);
    ReadKeepsRemaining(i0, m.held, i, all, src);
    ReadLeadsAfter(c0, Distance(b.last, b.trees, l.length), t, m.pre, i0, m.held, i, all, src);
    ghost var whole := m.pre + all;
    ghost var c := Config(Distance(b.last, b.trees, l.length), t, whole);
    ri' := i.ri;
    if !found {
      DistanceSteps(b, l.length, t, whole);
      return l.(bits := i.bits, nBits := i.nBits), ri', NeedsInput, Meaning(c, m.pre, all);
    }
    RedirectedBits(b.huffs1, b.nb1, m.pre, l.entry);
    var _, i' := Take(i, EntryBits(entry), src, all);
    l' := l.(bits := i'.bits, nBits := i'.nBits, entry := entry);
    DropBoth(m.pre, all, b.trees.dist[d]);
    TightLeavesLittle(b.trees.dist, whole, d);
    DistEntry(b.dist, d, b.trees.dist[d] - 9);
    l', o, m' := ActOnDistance(l', src, ri', c0, b, t, whole, d);
  }

  /** Suspension point 8: the extra bits of a distance. What follows is a copy that has yet to start. */
  method DistanceExtraStep(l: Locals, src: seq<Byte>, ri: nat,
                           ghost c0: Config, ghost b: CodedBlock, ghost t: seq<Byte>, ghost m: Meaning)
    returns (l': Locals, ri': nat, o: Outcome, ghost m': Meaning)
    requires l.pc == OnDistanceExtra && BlockOk(b) && Follows(c0, l, m, b, src, ri, t)
    ensures ri <= ri' && After(c0, l', m', b, src, ri', t, o)
    ensures ri <= ri' <= |src| && Remaining(l', src, ri') <= Remaining(l, src, ri)
    ensures o == Onward ==> Progress(l, ri, l', ri', src)
    ensures o == Onward ==>
              && l'.pc == OnCopy && l'.copying == Copying(Top, l.length, l'.copying.distance, 0, l'.copying.hdist)
              && 1 <= l'.copying.distance <= RING && 3 <= l.length <= 258
    ensures o == Onward || (o == NeedsInput && l'.pc == OnDistanceExtra)
  {
    hide Leads, Feed, TableFor, Read, ToNat, Tight, Advance, DistanceBase, ExtraDistanceBits;
    ghost var i0, k := Input(l.bits, l.nBits, ri), m.c.stage.d;
    var n := l.entry / 16 % 16;
    var i, all := Fill(Input(l.bits, l.nBits, ri), n, src, m.held);
    ReadKeepsRemaining(i0, m.held, i, all, src);
    ReadLeads(c0, m.c.stage, t, i0, m.held, i, all, src);
    ghost var c := Config(m.c.stage, t, all);
    ri' := i.ri;
    DistanceExtraSteps(b, l.length, k, t, all);
    if i.nBits < n {
      return l.(bits := i.bits, nBits := i.nBits), ri', NeedsInput, Meaning(c, [], all);
    }
    var x, i' := Take(i, n, src, all);
    StepLeads(c0, c, src[ri'..]);
    var distMinus1 := MaskLength(l.distance - 1 + x);
    l' := l.(pc := OnCopy, bits := i'.bits, nBits := i'.nBits, copying := Copying(Top, l.length, distMinus1 + 1, 0, 0));
    m' := Meaning(Advance(c).next, [], all[n..]);
    o := Onward;
  }

  lemma DistanceExtraSteps(b: CodedBlock, length: nat, k: nat, t: seq<Byte>, all: seq<bool>)
    requires TreesOk(b.trees) && k < 30
    ensures var n := ExtraDistanceBits(k);
            var c := Config(DistanceExtra(b.last, b.trees, length, k), t, all);
            && n <= 13
            && (|all| < n ==> Advance(c) == Wait)
            && (|all| >= n ==>
                  && 1 <= DistanceBase(k) && DistanceBase(k) + ToNat(all[..n]) <= 32768
                  && Advance(c) == Go(Config(Move(b.last, b.trees, length, DistanceBase(k) + ToNat(all[..n])), t, all[n..])))
  {
    hide DistanceBase, ExtraDistanceBits, ToNat, Pow2;
    var n := ExtraDistanceBits(k);
    DistanceFits(k);
    if |all| >= n { ToNatBound(all[..n]); }
  }

  lemma DistanceFits(k: nat)
    requires k < 30
    ensures ExtraDistanceBits(k) <= 13 && 1 <= DistanceBase(k) && DistanceBase(k) + Pow2(ExtraDistanceBits(k)) - 1 <= 32768
  {
    Pow2Values();
    Pow2Add(5, 5);
    Pow2Add(5, 6);
    Pow2Add(6, 6);
    Pow2Add(6, 7);
  }

  // ---------------- Output

  /** The format's copy, n bytes of it. */
  lemma {:induction false} MoveLeads(c0: Config, b: CodedBlock, left: nat, distance: nat, t: seq<Byte>, n: nat, held: seq<bool>, src: seq<Byte>)
    requires TreesOk(b.trees) && n <= left && (n > 0 ==> 0 < distance <= |t|)
    requires Leads(c0, Feed(Config(Move(b.last, b.trees, left, distance), t, held), src))
    ensures Leads(c0, Feed(Config(Move(b.last, b.trees, left - n, distance), Expanded(t, distance, n), held), src))
    decreases n
  {
    hide Leads, Feed;
    if n > 0 {
      MoveLeads(c0, b, left, distance, t, n - 1, held, src);
      ExpandedTwice(t, distance, n - 1, 1);
      var c := Config(Move(b.last, b.trees, left - n + 1, distance), Expanded(t, distance, n - 1), held);
      MoveSteps(b, left - n + 1, distance, c.out, held);
      StepLeads(c0, c, src);
    }
  }

  lemma MoveSteps(b: CodedBlock, left: nat, distance: nat, t: seq<Byte>, held: seq<bool>)
    requires TreesOk(b.trees)
    ensures var step := Advance(Config(Move(b.last, b.trees, left, distance), t, held));
            if left == 0 then step == Go(Config(Symbol(b.last, b.trees), t, held))
            else if 0 < distance <= |t| then
              step == Go(Config(Move(b.last, b.trees, left - 1, distance), Expanded(t, distance, 1), held))
            else step == Stop(Verdict.BadDistance)
  {
    if left > 0 && 0 < distance <= |t| {
      assert Copied(t, distance, 0) == t;
    }
  }

  datatype SlowStatus = BlockEnded | ShortRead | NoRoom | BadCodeFound | BadDistanceFound

  ghost predicate CopyReady(l: Locals, ring: Ring, dst: Writer)
    reads ring, ring.history, dst
  {
    && ring.Valid() && dst.Valid() && ring.history != dst.buf
    && (l.pc == OnCopy ==> Ready(l.copying, ring, dst) && 0 < Left(l.copying))
  }

  /** Suspension points 2 and 4: a literal. */
  method LiteralStep(l: Locals, ring: Ring, dst: Writer, ghost src: seq<Byte>, ghost ri: nat,
                     ghost c0: Config, ghost b: CodedBlock, ghost m: Meaning)
    returns (l': Locals, done: bool)
    requires l.pc == OnLiteral && CopyReady(l, ring, dst) && Follows(c0, l, m, b, src, ri, Total(ring, dst))
    modifies dst`wi, dst.buf
    ensures CopyReady(l', ring, dst) && Follows(c0, l', m, b, src, ri, Total(ring, dst))
    ensures if done then l' == l.(pc := OnSymbol) && dst.wi == old(dst.wi) + 1 else l' == l && dst.Room() == 0 && dst.wi == old(dst.wi)
  {
    hide Leads, Feed, LiteralOf;
    if dst.Room() == 0 {
      return l, false;
    }
    ghost var h, w := ring.recorded, dst.Written();
    FewAreTight(b.trees.lit, m.held);
    dst.Put(LiteralOf(l.entry));
    Associate(h, w, [LiteralOf(l.entry)]);
    l', done := l.(pc := OnSymbol), true;
  }

  /** Suspension points 9 to 11: a copy. */
  method CopyStep(l: Locals, ring: Ring, dst: Writer, ghost src: seq<Byte>, ghost ri: nat,
                  ghost c0: Config, ghost b: CodedBlock, ghost m: Meaning)
    returns (l': Locals, status: CopyStatus, ghost m': Meaning)
    requires l.pc == OnCopy && BlockOk(b) && CopyReady(l, ring, dst) && Follows(c0, l, m, b, src, ri, Total(ring, dst))
    modifies dst`wi, dst.buf
    ensures ring.Valid() && dst.Valid()
    ensures l'.bits == l.bits && l'.nBits == l.nBits
    ensures status != CopyStatus.BadDistance ==> CopyReady(l', ring, dst) && Follows(c0, l', m', b, src, ri, Total(ring, dst))
    ensures status == Finished ==> l'.pc == OnSymbol
    ensures status == CopyStatus.ShortWrite ==> l'.pc == OnCopy
    ensures old(dst.wi) <= dst.wi
    ensures status == CopyStatus.ShortWrite ==> dst.Room() == 0 || old(dst.wi) < dst.wi
    ensures status == CopyStatus.BadDistance ==>
              && Leads(c0, Feed(m'.c, src[ri..])) && Advance(m'.c) == Stop(Verdict.BadDistance)
              && m'.c.out == Total(ring, dst)
    ensures status != CopyStatus.Inconsistent
  {
    hide Leads, Feed, TableFor, Advance, Expanded, Copied, CopyOk;
    ghost var t := Total(ring, dst);
    var c := l.copying;
    CopyFacts(c, ring.index, |ring.recorded|, dst.wi - dst.mark);
    var c', st := CopyBackReference(c, ring, dst);
    status := st;
    l' := l.(copying := c');
    ghost var n := Left(c) - Left(c');
    if st == CopyStatus.BadDistance {
      NoneExpanded(t, c.distance);
      MoveSteps(b, Left(c), c.distance, t, m.held);
      m' := m;
      return;
    }
    MoveLeads(c0, b, Left(c), c.distance, t, n, m.held, src[ri..]);
    ghost var next := Config(Move(b.last, b.trees, Left(c'), c.distance), Total(ring, dst), m.held);
    m' := Meaning(next, [], m.held);
    if st == Finished {
      MoveSteps(b, 0, c.distance, Total(ring, dst), m.held);
      StepLeads(c0, next, src[ri..]);
      m' := Meaning(Advance(next).next, [], m.held);
      FewAreTight(b.trees.lit, m.held);
      l' := l'.(pc := OnSymbol);
    }
  }

  // ---------------- The coroutine

  /** What is promised of a call that returns with this status. */
  ghost predicate SlowDone(c0: Config, l: Locals, m: Meaning, b: CodedBlock, src: seq<Byte>, ri: nat, ring: Ring, dst: Writer, status: SlowStatus)
    reads ring, ring.history, dst, dst.buf
  {
    && ri <= |src| && ring.Valid() && dst.Valid() && Leads(c0, Feed(m.c, src[ri..]))
    && match status
       case BlockEnded =>
         && Has(Input(l.bits, l.nBits, ri), src, m.held) && l.nBits < 8
         && Advance(m.c) == AfterBlock(b.last, Total(ring, dst), m.held) && m.c.out == Total(ring, dst)
       case ShortRead =>
         && CopyReady(l, ring, dst) && Follows(c0, l, m, b, src, ri, Total(ring, dst))
         && ri == |src| && Advance(m.c).Wait? && l.pc != OnLiteral
       case NoRoom => CopyReady(l, ring, dst) && Follows(c0, l, m, b, src, ri, Total(ring, dst)) && (l.pc == OnLiteral || l.pc == OnCopy)
       case BadCodeFound => Advance(m.c) == Stop(BadCode) && m.c.out == Total(ring, dst)
       case BadDistanceFound => Advance(m.c) == Stop(Verdict.BadDistance) && m.c.out == Total(ring, dst)
  }

  /** One step that only reads. */
  method ReadingStep(l: Locals, huffs0: array<nat>, nb0: nat, huffs1: array<nat>, nb1: nat, src: seq<Byte>, ri: nat,
                     ghost c0: Config, ghost b: CodedBlock, ghost t: seq<Byte>, ghost m: Meaning)
    returns (l': Locals, ri': nat, o: Outcome, ghost m': Meaning)
    requires BlockOk(b) && huffs0[..] == b.huffs0 && nb0 == b.nb0 && huffs1[..] == b.huffs1 && nb1 == b.nb1
    requires l.pc != OnLiteral && l.pc != OnCopy && Follows(c0, l, m, b, src, ri, t)
    ensures ri <= ri' && After(c0, l', m', b, src, ri', t, o)
    ensures ri <= ri' <= |src| && Remaining(l', src, ri') <= Remaining(l, src, ri)
    ensures o == Onward ==> Progress(l, ri, l', ri', src)
    ensures o == Onward && l'.pc == OnCopy ==> FreshCopy(l'.copying)
    ensures o == NeedsInput ==> l'.pc != OnCopy && l'.pc != OnLiteral
  {
    hide After, Follows, BlockOk, Progress;
    match l.pc {
      case OnSymbol => l', ri', o, m' := SymbolStep(l, huffs0, nb0, src, ri, c0, b, t, m);
      case OnSymbolRedirect => l', ri', o, m' := SymbolRedirectStep(l, huffs0, nb0, src, ri, c0, b, t, m);
      case OnLengthExtra => l', ri', o, m' := LengthExtraStep(l, src, ri, c0, b, t, m);
      case OnDistance => l', ri', o, m' := DistanceStep(l, huffs1, nb1, src, ri, c0, b, t, m);
      case OnDistanceRedirect => l', ri', o, m' := DistanceRedirectStep(l, huffs1, nb1, src, ri, c0, b, t, m);
      case OnDistanceExtra => l', ri', o, m' := DistanceExtraStep(l, src, ri, c0, b, t, m);
    }
  }

  /** A copy that has yet to start. */
  predicate FreshCopy(c: Copying)
  {
    c.point == Top && c.hlen == 0 && 1 <= c.distance <= RING && 0 < c.length <= 258
  }

  /** One step that writes. */
  method WritingStep(l: Locals, ring: Ring, dst: Writer, ghost src: seq<Byte>, ghost ri: nat,
                     ghost c0: Config, ghost b: CodedBlock, ghost m: Meaning)
    returns (l': Locals, stop: bool, status: SlowStatus, ghost m': Meaning)
    requires BlockOk(b) && (l.pc == OnLiteral || l.pc == OnCopy)
    requires CopyReady(l, ring, dst) && Follows(c0, l, m, b, src, ri, Total(ring, dst))
    modifies dst`wi, dst.buf
    ensures l'.nBits == l.nBits && old(dst.wi) <= dst.wi
    ensures stop ==> SlowDone(c0, l', m', b, src, ri, ring, dst, status)
    ensures stop && status == NoRoom ==> dst.Room() == 0 || old(dst.wi) < dst.wi
    ensures !stop ==>
              && CopyReady(l', ring, dst) && Follows(c0, l', m', b, src, ri, Total(ring, dst))
              && l'.pc == OnSymbol && l'.nBits == l.nBits
  {
    hide BlockOk, Leads, Means, CopyOk, Advance;
    m', status := m, NoRoom;
    if l.pc == OnLiteral {
      var done;
      l', done := LiteralStep(l, ring, dst, src, ri, c0, b, m);
      stop := !done;
    } else {
      var st;
      l', st, m' := CopyStep(l, ring, dst, src, ri, c0, b, m);
      stop := st != Finished;
      if st == CopyStatus.BadDistance {
        status := BadDistanceFound;
      }
    }
  }

  /** decode_huffman_slow, from wherever it was: the output and the input left lead where the
      output and the input before led. */
  method DecodeHuffmanSlow(l: Locals, huffs0: array<nat>, nb0: nat, huffs1: array<nat>, nb1: nat,
                           ring: Ring, dst: Writer, src: seq<Byte>, ri: nat,
                           ghost c0: Config, ghost b: CodedBlock, ghost m: Meaning)
    returns (l': Locals, ri': nat, status: SlowStatus, ghost m': Meaning)
    requires BlockOk(b) && huffs0[..] == b.huffs0 && nb0 == b.nb0 && huffs1[..] == b.huffs1 && nb1 == b.nb1
    requires CopyReady(l, ring, dst) && Follows(c0, l, m, b, src, ri, Total(ring, dst))
    modifies dst`wi, dst.buf
    ensures ri <= ri' && SlowDone(c0, l', m', b, src, ri', ring, dst, status)
    ensures old(dst.wi) <= dst.wi && (status == NoRoom ==> dst.Room() == 0 || old(dst.wi) < dst.wi)
    ensures ri' <= |src| && Remaining(l', src, ri') <= Remaining(l, src, ri)
  {
    hide BlockOk, Leads, Means, Ready, Advance, Holding;
    l', ri', m', status := l, ri, m, ShortRead;
    while true
      invariant ri <= ri' <= |src| && CopyReady(l', ring, dst) && Follows(c0, l', m', b, src, ri', Total(ring, dst))
      invariant huffs0[..] == b.huffs0 && huffs1[..] == b.huffs1 && old(dst.wi) <= dst.wi
      invariant Remaining(l', src, ri') <= Remaining(l, src, ri)
      decreases Remaining(l', src, ri'), PcRank(l'.pc)
    {
      if l'.pc == OnLiteral || l'.pc == OnCopy {
        var stop;
        l', stop, status, m' := WritingStep(l', ring, dst, src, ri', c0, b, m');
        if stop {
          return;
        }
      } else {
        var o;
        l', ri', o, m' := ReadingStep(l', huffs0, nb0, huffs1, nb1, src, ri', c0, b, Total(ring, dst), m');
        if o == Onward {
          FreshCopyReady(l', ring, dst);
        } else {
          status := match o case NeedsInput => ShortRead case EndOfBlock => BlockEnded case _ => BadCodeFound;
          return;
        }
      }
    }
  }

  lemma FreshCopyReady(l: Locals, ring: Ring, dst: Writer)
    requires ring.Valid() && dst.Valid() && ring.history != dst.buf
    requires l.pc == OnCopy ==> FreshCopy(l.copying)
    ensures CopyReady(l, ring, dst)
  {
  }
}
