/** decode_blocks and decode (gen/c/std/deflate.c): the whole DEFLATE decoder, suspended and resumed
    wherever the input or the destination runs out, against the format. */
module Deflate {
  import opened Bits
  import opened Words
  import opened BitStream
  import opened HuffTable
  import opened Inflate
  import opened Lookups
  import opened HuffRead
  import opened Writers
  import opened History
  import opened BackRefs
  import opened HuffSlow
  import opened HuffFast
  import opened StoredBlocks
  import opened DynamicBlocks
  import opened FixedCodes

  const START := Config(Header, [], [])

  /** What the format says the input decodes to. */
  ghost function Decoded(input: seq<Byte>): Inflate.Outcome
  {
    Run(Feed(START, input))
  }

  // ---------------- The decoder's state

  /** Where decode_blocks resumes: suspension points 1, 2, 4 and 6. */
  datatype BlocksPc = OnHeader | OnStored | OnDynamic | OnCoded

  datatype Status = Finished | ShortRead | ShortWrite | Fails(verdict: Verdict)

  /** The decoder's scalar fields and the saved variables of its coroutines. */
  datatype State = State(bits: nat, nBits: nat, nb0: nat, nb1: nat,
                         pc: BlocksPc, last: bool, stored: StoredLocals, dyn: DynLocals, slow: Locals)

  /** What they stand for. */
  datatype Shadow = Shadow(c: Config, dyn: DynMeaning, slow: Meaning, block: CodedBlock)

  /** The decoder's tables. */
  class Tables {
    const huffs0: array<nat>
    const huffs1: array<nat>
    const codeLengths: array<nat>

    constructor ()
      ensures Shaped() && fresh(huffs0) && fresh(huffs1) && fresh(codeLengths)
    {
      huffs0, huffs1 := new nat[TABLE_SIZE](_ => 0), new nat[TABLE_SIZE](_ => 0);
      codeLengths := new nat[320](_ => 0);
    }

    predicate Shaped()
    {
      && huffs0.Length == TABLE_SIZE && huffs1.Length == TABLE_SIZE && codeLengths.Length == 320
      && huffs0 != huffs1 && codeLengths != huffs0 && codeLengths != huffs1
    }
  }

  /** The state is at configuration sh.c, with output t, of which nW bytes are not yet in the ring. */
  ghost predicate Stands(st: State, sh: Shadow, tab: Tables, t: seq<Byte>, index: nat, nH: nat, nW: nat)
    reads tab.huffs0, tab.huffs1, tab.codeLengths
  {
    match st.pc
    case OnHeader => sh.c == Config(Header, t, sh.c.bits) && Holding(st.bits, st.nBits, sh.c.bits) && st.nBits < 11 && !st.last
    case OnStored => StoredMeans(st.stored, sh.c, st.last, t) && st.nBits == 0 && st.bits == 0
    case OnDynamic =>
      && sh.c == sh.dyn.c && Holding(st.dyn.bits, st.dyn.nBits, sh.dyn.held)
      && DynMeans(st.dyn, sh.dyn, st.last, t, tab.codeLengths[..], tab.huffs0[..], st.nb0)
    case OnCoded =>
      && sh.c == sh.slow.c && Holding(st.slow.bits, st.slow.nBits, sh.slow.held)
      && BuiltFor(sh.block, st.last, tab.huffs0[..], st.nb0, tab.huffs1[..], st.nb1) && Means(st.slow, sh.slow, sh.block, t)
      && (st.slow.pc == OnCopy ==> CopyOk(st.slow.copying, index, nH, nW) && 0 < Left(st.slow.copying))
  }

  /** Nothing is wrong with the buffers. */
  ghost predicate Sound(tab: Tables, ring: Ring, dst: Writer)
    reads ring, ring.history, dst
  {
    tab.Shaped() && ring.Valid() && dst.Valid() && ring.history != dst.buf
  }

  /** During a call: what is left of the input leads where c0 leads. */
  ghost predicate At(c0: Config, st: State, sh: Shadow, tab: Tables, ring: Ring, dst: Writer, src: seq<Byte>, ri: nat)
    reads tab.huffs0, tab.huffs1, tab.codeLengths, ring, ring.history, dst, dst.buf
  {
    && Sound(tab, ring, dst) && ri <= |src|
    && Stands(st, sh, tab, Total(ring, dst), ring.index, |ring.recorded|, dst.wi - dst.mark)
    && StageOk(sh.c.stage) && Leads(c0, Feed(sh.c, src[ri..]))
  }

  /** How much input there is, in bits: what the coroutine in charge holds, and the bytes. */
  function Ahead(st: State, src: seq<Byte>, ri: nat): int
  {
    8 * (|src| - ri) + match st.pc
                       case OnHeader => st.nBits
                       case OnStored => 0
                       case OnDynamic => st.dyn.nBits
                       case OnCoded => st.slow.nBits
  }

  /** What is promised of a call that returns with this status. */
  ghost predicate Returns(c0: Config, st: State, sh: Shadow, tab: Tables, ring: Ring, dst: Writer, src: seq<Byte>, ri: nat, status: Status)
    reads tab.huffs0, tab.huffs1, tab.codeLengths, ring, ring.history, dst, dst.buf
  {
    && Sound(tab, ring, dst) && ri <= |src| && StageOk(sh.c.stage) && Leads(c0, Feed(sh.c, src[ri..]))
    && match status
       case Finished =>
         st.nBits < 8 && Advance(sh.c) == Stop(Done(BitsOf(st.bits, st.nBits))) && sh.c.out == Total(ring, dst)
       case ShortRead =>
         At(c0, st, sh, tab, ring, dst, src, ri) && ri == |src| && Advance(sh.c).Wait? && sh.c.out == Total(ring, dst)
       case ShortWrite => At(c0, st, sh, tab, ring, dst, src, ri)
       case Fails(v) => Advance(sh.c) == Stop(v) && sh.c.out == Total(ring, dst) && !v.Done?
  }

  /** A block is over: its last step has yet to be taken, and less than a byte of bits is held. */
  ghost predicate Over(c0: Config, st: State, sh: Shadow, tab: Tables, ring: Ring, dst: Writer, src: seq<Byte>, ri: nat)
    reads ring, ring.history, dst, dst.buf
  {
    && Sound(tab, ring, dst) && ri <= |src| && st.nBits < 8 && Holding(st.bits, st.nBits, BitsOf(st.bits, st.nBits))
    && StageOk(sh.c.stage) && Leads(c0, Feed(sh.c, src[ri..]))
    && Advance(sh.c) == AfterBlock(st.last, Total(ring, dst), BitsOf(st.bits, st.nBits)) && sh.c.out == Total(ring, dst)
  }

  /** What a step of decode_blocks comes to. */
  datatype BlockStep = Goes | BlockOver | Suspends(status: Status)

  ghost predicate Stepped(c0: Config, st: State, sh: Shadow, tab: Tables, ring: Ring, dst: Writer, src: seq<Byte>, ri: nat,
                          r: BlockStep, ahead: int)
    reads tab.huffs0, tab.huffs1, tab.codeLengths, ring, ring.history, dst, dst.buf
  {
    match r
    case Goes => At(c0, st, sh, tab, ring, dst, src, ri) && Ahead(st, src, ri) <= ahead
    case BlockOver => Over(c0, st, sh, tab, ring, dst, src, ri) && 8 * (|src| - ri) + st.nBits <= ahead
    case Suspends(status) => Returns(c0, st, sh, tab, ring, dst, src, ri, status)
  }

  lemma HeldFacts(bits: nat, nBits: nat, held: seq<bool>)
    requires Holding(bits, nBits, held)
    ensures |held| == nBits && held == BitsOf(bits, nBits)
  {
    HoldingBound(bits, nBits, held);
  }

  lemma LeadsStage(c0: Config, c: Config, src: seq<Byte>)
    requires Leads(c0, Feed(c, src))
    ensures StageOk(c.stage)
  {
  }

  // ---------------- Coded blocks

  /** The codes of a block are ready: decode as much as possible fast, and prepare the slow decoder for the rest. */
  method StartCoded(st: State, tab: Tables, ring: Ring, dst: Writer, src: seq<Byte>, ri: nat,
                    ghost c0: Config, ghost sh: Shadow, ghost b: CodedBlock, ghost held: seq<bool>)
    returns (st': State, ri': nat, r: BlockStep, ghost sh': Shadow)
    requires Sound(tab, ring, dst) && BuiltFor(b, st.last, tab.huffs0[..], st.nb0, tab.huffs1[..], st.nb1)
    requires Has(Input(st.bits, st.nBits, ri), src, held) && st.nBits < 8
    requires Leads(c0, Feed(Config(Symbol(b.last, b.trees), Total(ring, dst), held), src[ri..]))
    modifies dst`wi, dst.buf
    ensures ri <= ri' <= |src| && Sound(tab, ring, dst)
    ensures old(dst.wi) <= dst.wi && (r == Suspends(Status.ShortWrite) ==> dst.Room() == 0 || old(dst.wi) < dst.wi)
    ensures Stepped(c0, st', sh', tab, ring, dst, src, ri', r, 8 * (|src| - ri) + st.nBits)
    ensures r == Goes ==> st'.pc == OnCoded
  {
    hide Leads, Feed, Advance, BlockOk, Holding, BitsOf, RingOk, Tight;
    var status, i;
    ghost var c', held';
    status, i, c', held' := DecodeHuffmanFast(st.bits, st.nBits, tab.huffs0, st.nb0, tab.huffs1, st.nb1, ring, dst, src, ri, c0, b, held);
    ri', st', sh' := i.ri, st, sh.(c := c', block := b);
    match status {
      case Onwards =>
        st' := st.(pc := OnCoded, slow := Locals(OnSymbol, i.bits, i.nBits, 0, 0, 0, Copying(Top, 0, 0, 0, 0)));
        sh' := sh'.(slow := Meaning(c', [], held'));
        HeldFacts(i.bits, i.nBits, held');
        FewAreTight(b.trees.lit, held');
        r := Goes;
      case Ended =>
        st' := st.(bits := i.bits, nBits := i.nBits);
        HeldFacts(i.bits, i.nBits, held');
        r := BlockOver;
      case BadCodes => r := Suspends(Fails(BadCode));
      case BadDistances => r := Suspends(Fails(Verdict.BadDistance));
      case Inconsistency => assert false;
    }
  }

  /** Suspension point 6. */
  method SlowStep(st: State, tab: Tables, ring: Ring, dst: Writer, src: seq<Byte>, ri: nat, ghost c0: Config, ghost sh: Shadow)
    returns (st': State, ri': nat, r: BlockStep, ghost sh': Shadow)
    requires st.pc == OnCoded && At(c0, st, sh, tab, ring, dst, src, ri)
    modifies dst`wi, dst.buf
    ensures ri <= ri' <= |src| && Sound(tab, ring, dst)
    ensures old(dst.wi) <= dst.wi && (r == Suspends(Status.ShortWrite) ==> dst.Room() == 0 || old(dst.wi) < dst.wi)
    ensures Stepped(c0, st', sh', tab, ring, dst, src, ri', r, Ahead(st, src, ri)) && r != Goes
  {
    hide Leads, Feed, Advance, BlockOk, Holding, BitsOf, RingOk, Means, CopyOk;
    var l, status;
    ghost var m;
    l, ri', status, m := DecodeHuffmanSlow(st.slow, tab.huffs0, st.nb0, tab.huffs1, st.nb1, ring, dst, src, ri, c0, sh.block, sh.slow);
    st', sh' := st.(slow := l), sh.(c := m.c, slow := m);
    LeadsStage(c0, m.c, src[ri'..]);
    match status {
      case BlockEnded =>
        st' := st'.(bits := l.bits, nBits := l.nBits);
        HeldFacts(l.bits, l.nBits, m.held);
        r := BlockOver;
      case ShortRead =>
        WaitingOut(l, m, sh.block, Total(ring, dst));
        r := Suspends(Status.ShortRead);
      case NoRoom => r := Suspends(Status.ShortWrite);
      case BadCodeFound => r := Suspends(Fails(BadCode));
      case BadDistanceFound => r := Suspends(Fails(Verdict.BadDistance));
    }
  }

  /** While the slow decoder waits for input, nothing is left to be written. */
  lemma WaitingOut(l: Locals, m: Meaning, b: CodedBlock, t: seq<Byte>)
    requires Means(l, m, b, t) && l.pc != OnLiteral
    ensures m.c.out == t
  {
  }

  // ---------------- Other blocks

  /** Suspension point 2. */
  method StoredStep(st: State, tab: Tables, ring: Ring, dst: Writer, src: seq<Byte>, ri: nat, ghost c0: Config, ghost sh: Shadow)
    returns (st': State, ri': nat, r: BlockStep, ghost sh': Shadow)
    requires st.pc == OnStored && At(c0, st, sh, tab, ring, dst, src, ri)
    modifies dst`wi, dst.buf
    ensures ri <= ri' <= |src| && Sound(tab, ring, dst)
    ensures old(dst.wi) <= dst.wi && (r == Suspends(Status.ShortWrite) ==> dst.Room() == 0 || old(dst.wi) < dst.wi)
    ensures Stepped(c0, st', sh', tab, ring, dst, src, ri', r, Ahead(st, src, ri)) && r != Goes
  {
    hide Leads, Feed, Advance, RingOk;
    var l, status;
    ghost var c';
    l, ri', status, c' := DecodeUncompressed(st.stored, ring, dst, src, ri, c0, sh.c, st.last);
    st', sh' := st.(stored := l), sh.(c := c');
    match status {
      case StoredEnded =>
        NothingHeld();
        r := BlockOver;
      case StoredShortRead => r := Suspends(Status.ShortRead);
      case StoredShortWrite => r := Suspends(Status.ShortWrite);
      case StoredBadLength => r := Suspends(Fails(BadStoredLength));
    }
  }

  lemma NothingHeld()
    ensures Holding(0, 0, BitsOf(0, 0)) && BitsOf(0, 0) == []
  {
  }

  /** Suspension point 4, and what follows when the codes are known. */
  method DynamicStep(st: State, tab: Tables, ring: Ring, dst: Writer, src: seq<Byte>, ri: nat, ghost c0: Config, ghost sh: Shadow)
    returns (st': State, ri': nat, r: BlockStep, ghost sh': Shadow)
    requires st.pc == OnDynamic && At(c0, st, sh, tab, ring, dst, src, ri)
    modifies tab.codeLengths, tab.huffs0, tab.huffs1, dst`wi, dst.buf
    ensures ri <= ri' <= |src| && Sound(tab, ring, dst)
    ensures old(dst.wi) <= dst.wi && (r == Suspends(Status.ShortWrite) ==> dst.Room() == 0 || old(dst.wi) < dst.wi)
    ensures Stepped(c0, st', sh', tab, ring, dst, src, ri', r, Ahead(st, src, ri))
    ensures r == Goes ==> st'.pc == OnCoded
  {
    hide Leads, Feed, Advance, BlockOk, Holding, BitsOf, RingOk, DynMeans;
    var l, nb0, nb1, status;
    ghost var m, b;
    l, ri', nb0, nb1, status, m, b :=
      InitDynamicHuffman(st.dyn, tab.codeLengths, tab.huffs0, st.nb0, tab.huffs1, st.nb1, src, ri, c0, st.last, Total(ring, dst), sh.dyn);
    st', sh' := st.(dyn := l, nb0 := nb0, nb1 := nb1), sh.(c := m.c, dyn := m);
    match status {
      case TreesBuilt =>
        st' := st'.(bits := l.bits, nBits := l.nBits);
        st', ri', r, sh' := StartCoded(st', tab, ring, dst, src, ri', c0, sh', b, m.held);
      case DynShortRead =>
        DynWaitingOut(l, m, st.last, Total(ring, dst), tab.codeLengths[..], tab.huffs0[..], nb0);
        r := Suspends(Status.ShortRead);
      case DynFails(v) => r := Suspends(Fails(v));
    }
  }

  lemma DynWaitingOut(l: DynLocals, m: DynMeaning, last: bool, t: seq<Byte>, lens: seq<nat>, huffs: seq<nat>, nb: nat)
    requires DynMeans(l, m, last, t, lens, huffs, nb)
    ensures m.c.out == t
  {
  }

  // ---------------- Block headers

  lemma HeaderWaits(t: seq<Byte>, bits: seq<bool>)
    requires |bits| < 3
    ensures Advance(Config(Header, t, bits)) == Wait
  {
  }

  lemma HeaderSteps(t: seq<Byte>, bits: seq<bool>)
    requires 3 <= |bits| < 11
    ensures var last, kind := ToNat(bits[..1]) == 1, ToNat(bits[1..][..2]);
            && kind <= 3
            && Advance(Config(Header, t, bits)) ==
               (if kind == 0 then Go(Config(StoredHeader(last), t, []))
                else if kind == 1 then Go(Config(Symbol(last, FixedTrees()), t, bits[3..]))
                else if kind == 2 then Go(Config(CodeCounts(last), t, bits[3..]))
                else Stop(BadBlock))
  {
    hide FixedTrees;
    assert bits[1..][..2] == bits[1..3];
    ToNatBound(bits[1..3]);
    Pow2Values();
    assert bits[..1] == [bits[0]];
    assert ToNat(bits[..1]) == if bits[0] then 1 else 0;
    var rest := bits[3..];
    assert |rest| % 8 == |rest|;
    assert rest[|rest|..] == [];
  }

  /** Suspension point 1: the three bits of a block header. */
  method HeaderStep(st: State, tab: Tables, ring: Ring, dst: Writer, src: seq<Byte>, ri: nat, ghost c0: Config, ghost sh: Shadow)
    returns (st': State, ri': nat, r: BlockStep, ghost sh': Shadow)
    requires st.pc == OnHeader && At(c0, st, sh, tab, ring, dst, src, ri)
    modifies tab.codeLengths, tab.huffs0, tab.huffs1, dst`wi, dst.buf
    ensures ri <= ri' <= |src| && Sound(tab, ring, dst)
    ensures old(dst.wi) <= dst.wi && (r == Suspends(Status.ShortWrite) ==> dst.Room() == 0 || old(dst.wi) < dst.wi)
    ensures Stepped(c0, st', sh', tab, ring, dst, src, ri', r, Ahead(st, src, ri) - 3)
  {
    hide Leads, Feed, Advance, Read, ToNat, BlockOk, FixedTrees, BitsOf, RingOk;
    ghost var i0, held, t := Input(st.bits, st.nBits, ri), sh.c.bits, Total(ring, dst);
    var i, all := Fill(Input(st.bits, st.nBits, ri), 3, src, held);
    ReadKeepsRemaining(i0, held, i, all, src);
    ReadLeads(c0, Header, t, i0, held, i, all, src);
    ri', st', sh' := i.ri, st.(bits := i.bits, nBits := i.nBits), sh.(c := Config(Header, t, all));
    if i.nBits < 3 {
      HeaderWaits(t, all);
      r := Suspends(Status.ShortRead);
      return;
    }
    HeaderSteps(t, all);
    var final, i1 := Take(i, 1, src, all);
    var kind, i2 := Take(i1, 2, src, all[1..]);
    st' := st.(bits := i2.bits, nBits := i2.nBits, last := final == 1);
    assert all[1..][2..] == all[3..];
    if kind > 2 {
      r := Suspends(Fails(BadBlock));
      return;
    }
    StepLeads(c0, sh'.c, src[ri'..]);
    sh' := sh'.(c := Advance(sh'.c).next);
    st', ri', r, sh' := StartBlock(kind, st', tab, ring, dst, src, ri', c0, sh', all[3..]);
  }

  /** What a block of each kind starts with. For a stored block, the bits up to the byte boundary are dropped;
      there are less than eight of them. */
  method StartBlock(kind: nat, st: State, tab: Tables, ring: Ring, dst: Writer, src: seq<Byte>, ri: nat,
                    ghost c0: Config, ghost sh: Shadow, ghost held: seq<bool>)
    returns (st': State, ri': nat, r: BlockStep, ghost sh': Shadow)
    requires Sound(tab, ring, dst) && kind <= 2
    requires Has(Input(st.bits, st.nBits, ri), src, held) && st.nBits < 8 && Leads(c0, Feed(sh.c, src[ri..]))
    requires sh.c == if kind == 0 then Config(StoredHeader(st.last), Total(ring, dst), [])
                     else if kind == 1 then Config(Symbol(st.last, FixedTrees()), Total(ring, dst), held)
                     else Config(CodeCounts(st.last), Total(ring, dst), held)
    modifies tab.codeLengths, tab.huffs0, tab.huffs1, dst`wi, dst.buf
    ensures ri <= ri' <= |src| && Sound(tab, ring, dst)
    ensures old(dst.wi) <= dst.wi && (r == Suspends(Status.ShortWrite) ==> dst.Room() == 0 || old(dst.wi) < dst.wi)
    ensures Stepped(c0, st', sh', tab, ring, dst, src, ri', r, 8 * (|src| - ri) + st.nBits)
  {
    hide Leads, Feed, Advance, ToNat, BlockOk, FixedTrees, BitsOf, RingOk;
    LeadsStage(c0, sh.c, src[ri..]);
    ri', sh' := ri, sh;
    if kind == 0 {
      st' := st.(bits := 0, nBits := 0, stored := Gathering(0, 0), pc := OnStored);
      NothingTaken();
      r := Goes;
    } else if kind == 1 {
      var ok, nb0, nb1;
      ghost var b;
      ok, nb0, nb1, b := InitFixedHuffman(tab.codeLengths, tab.huffs0, tab.huffs1, st.last);
      st', ri', r, sh' := StartCoded(st.(nb0 := nb0, nb1 := nb1), tab, ring, dst, src, ri', c0, sh, b, held);
    } else {
      st' := st.(dyn := Dyn(OnCounts, st.bits, st.nBits, 0, 0, 0, 0, 0), pc := OnDynamic);
      sh' := sh.(dyn := sh.dyn.(c := sh.c, held := held));
      r := Goes;
    }
  }

  /** After a block: stop, or go on with the next header. */
  method EndBlock(st: State, ghost tab: Tables, ghost ring: Ring, ghost dst: Writer, ghost src: seq<Byte>, ghost ri: nat,
                  ghost c0: Config, ghost sh: Shadow)
    returns (st': State, done: bool, ghost sh': Shadow)
    requires Over(c0, st, sh, tab, ring, dst, src, ri)
    ensures done ==> Returns(c0, st', sh', tab, ring, dst, src, ri, Status.Finished)
    ensures !done ==>
              && At(c0, st', sh', tab, ring, dst, src, ri) && st'.pc == OnHeader
              && Ahead(st', src, ri) == 8 * (|src| - ri) + st.nBits
  {
    hide Leads, Feed, Advance, BitsOf, Holding, RingOk;
    st', sh', done := st, sh, true;
    if !st.last {
      StepLeads(c0, sh.c, src[ri..]);
      sh' := sh.(c := Advance(sh.c).next);
      LeadsStage(c0, sh'.c, src[ri..]);
      st' := st.(pc := OnHeader);
      done := false;
    }
  }

  // ---------------- decode_blocks

  /** One step of decode_blocks. */
  method BlocksStep(st: State, tab: Tables, ring: Ring, dst: Writer, src: seq<Byte>, ri: nat, ghost c0: Config, ghost sh: Shadow)
    returns (st': State, ri': nat, r: BlockStep, ghost sh': Shadow)
    requires At(c0, st, sh, tab, ring, dst, src, ri)
    modifies tab.codeLengths, tab.huffs0, tab.huffs1, dst`wi, dst.buf
    ensures ri <= ri' <= |src| && Sound(tab, ring, dst)
    ensures old(dst.wi) <= dst.wi && (r == Suspends(Status.ShortWrite) ==> dst.Room() == 0 || old(dst.wi) < dst.wi)
    ensures Stepped(c0, st', sh', tab, ring, dst, src, ri', r, Ahead(st, src, ri) - if st.pc == OnHeader then 3 else 0)
    ensures r == Goes && st.pc != OnHeader ==> st.pc == OnDynamic && st'.pc == OnCoded
  {
    hide Leads, Stands, RingOk, Stepped;
    match st.pc {
      case OnHeader => st', ri', r, sh' := HeaderStep(st, tab, ring, dst, src, ri, c0, sh);
      case OnStored => st', ri', r, sh' := StoredStep(st, tab, ring, dst, src, ri, c0, sh);
      case OnDynamic => st', ri', r, sh' := DynamicStep(st, tab, ring, dst, src, ri, c0, sh);
      case OnCoded => st', ri', r, sh' := SlowStep(st, tab, ring, dst, src, ri, c0, sh);
    }
  }

  function BlocksRank(pc: BlocksPc): nat { if pc == OnDynamic then 2 else if pc == OnHeader then 0 else 1 }

  /** decode_blocks, from wherever it was. */
  method DecodeBlocks(st: State, tab: Tables, ring: Ring, dst: Writer, src: seq<Byte>, ri: nat, ghost c0: Config, ghost sh: Shadow)
    returns (st': State, ri': nat, status: Status, ghost sh': Shadow)
    requires At(c0, st, sh, tab, ring, dst, src, ri) && ri <= |src|
    modifies tab.codeLengths, tab.huffs0, tab.huffs1, dst`wi, dst.buf
    ensures ri <= ri' && Returns(c0, st', sh', tab, ring, dst, src, ri', status)
    ensures old(dst.wi) <= dst.wi && (status == Status.ShortWrite ==> dst.Room() == 0 || old(dst.wi) < dst.wi)
  {
    hide At, Returns, Over;
    st', sh', ri' := st, sh, ri;
    while true
      invariant ri <= ri' <= |src| && At(c0, st', sh', tab, ring, dst, src, ri') && old(dst.wi) <= dst.wi
      decreases Ahead(st', src, ri'), BlocksRank(st'.pc)
    {
      var r;
      st', ri', r, sh' := BlocksStep(st', tab, ring, dst, src, ri', c0, sh');
      if r.Suspends? {
        status := r.status;
        return;
      }
      if r.BlockOver? {
        var done;
        st', done, sh' := EndBlock(st', tab, ring, dst, src, ri', c0, sh');
        if done {
          status := Status.Finished;
          return;
        }
      }
    }
  }

  // ---------------- decode

  lemma LeadsNow(c0: Config, c: Config)
    requires Leads(c0, c)
    ensures Run(c0) == Run(c)
  {
    NoMore(c0);
    NoMore(c);
    assert Run(Feed(c0, [])) == Run(Feed(c, []));
  }

  lemma NoMore(c: Config)
    ensures Feed(c, []) == c
  {
    assert c.bits + Stream([]) == c.bits;
  }

  /** Output is only ever added. */
  lemma {:induction false} RunExtends(c: Config)
    requires StageOk(c.stage)
    ensures c.out <= Run(c).out
    decreases |c.bits|, StageRank(c.stage), Size(c.stage)
  {
    if Advance(c).Go? {
      StepExtends(c);
      RunExtends(Advance(c).next);
    }
  }

  lemma StepExtends(c: Config)
    requires StageOk(c.stage) && Advance(c).Go?
    ensures c.out <= Advance(c).next.out
  {
  }

  /** More input adds to the outcome of an incomplete stream, and is left over by a finished one. */
  lemma {:induction false} RunMore(c: Config, more: seq<bool>)
    requires StageOk(c.stage) && |more| % 8 == 0
    ensures var r, r' := Run(c), Run(c.(bits := c.bits + more));
            match r.verdict
            case Incomplete => r.out <= r'.out
            case Done(rest) => r' == Inflate.Outcome(r.out, Done(rest + more))
            case _ => r' == r
    decreases |c.bits|, StageRank(c.stage), Size(c.stage)
  {
    hide Advance;
    var c' := c.(bits := c.bits + more);
    match Advance(c)
    case Wait => RunExtends(c');
    case Stop(v) =>
      AdvanceMore(c, more);
      StopsComplete(c);
    case Go(n) =>
      AdvanceMore(c, more);
      NextStageOk(c);
      LaterNext(c);
      RunMore(n, more);
  }

  lemma StopsComplete(c: Config)
    requires StageOk(c.stage) && Advance(c).Stop?
    ensures Advance(c).verdict != Incomplete
  {
  }

  lemma LaterNext(c: Config)
    requires StageOk(c.stage) && Advance(c).Go?
    ensures Later(Advance(c).next, c)
  {
  }

  /** More input. */
  lemma Supply(supplied: seq<Byte>, c: Config, unread: seq<Byte>, src: seq<Byte>)
    requires unread <= src && Leads(Feed(START, supplied), Feed(c, unread))
    ensures Leads(Feed(START, supplied + src[|unread|..]), Feed(c, src))
  {
    hide Leads, Feed;
    var new_ := src[|unread|..];
    LeadsFed(Feed(START, supplied), Feed(c, unread), new_);
    FeedTwice(START, supplied, new_);
    FeedTwice(c, unread, new_);
    assert unread + new_ == src;
  }

  /** What the caller learns from a call of decode: how the output relates to what the input decodes to. */
  ghost predicate Tells(status: Status, st: State, input: seq<Byte>, rest: seq<Byte>, out: seq<Byte>)
  {
    match status
    case Finished => st.nBits < 8 && Decoded(input) == Inflate.Outcome(out, Done(BitsOf(st.bits, st.nBits) + Stream(rest)))
    case ShortRead => rest == [] && Decoded(input) == Inflate.Outcome(out, Incomplete)
    case ShortWrite => out <= Decoded(input).out
    case Fails(v) => Decoded(input) == Inflate.Outcome(out, v) && !v.Done? && v != Incomplete
  }

  lemma Conclude(input: seq<Byte>, st: State, sh: Shadow, tab: Tables, ring: Ring, dst: Writer, src: seq<Byte>, ri: nat, status: Status)
    requires Returns(Feed(START, input), st, sh, tab, ring, dst, src, ri, status)
    ensures Tells(status, st, input, src[ri..], Total(ring, dst))
  {
    hide Leads, Stands, Run, Advance, BitsOf, Stream;
    var c0, rest := Feed(START, input), src[ri..];
    var now := Feed(sh.c, rest);
    match status {
      case ShortWrite =>
        LeadsNow(c0, now);
        RunExtends(now);
        StandsOut(st, sh, tab, Total(ring, dst), ring.index, |ring.recorded|, dst.wi - dst.mark);
      case ShortRead =>
        NoMore(sh.c);
        LeadsToStop(c0, now);
      case _ =>
        StopsComplete(sh.c);
        StreamLength(rest);
        AdvanceMore(sh.c, Stream(rest));
        LeadsToStop(c0, now);
    }
  }

  lemma Leaves(c0: Config, st: State, sh: Shadow, tab: Tables, ring: Ring, dst: Writer, src: seq<Byte>, ri: nat, status: Status)
    requires Returns(c0, st, sh, tab, ring, dst, src, ri, status)
    ensures Sound(tab, ring, dst) && ri <= |src| && StageOk(sh.c.stage) && Leads(c0, Feed(sh.c, src[ri..]))
    ensures status == Status.ShortRead || status == Status.ShortWrite ==> At(c0, st, sh, tab, ring, dst, src, ri)
  {
    hide Leads, Stands, RingOk, Advance;
  }

  /** At most one literal of the configuration's output has yet to be written. */
  lemma StandsOut(st: State, sh: Shadow, tab: Tables, t: seq<Byte>, index: nat, nH: nat, nW: nat)
    requires Stands(st, sh, tab, t, index, nH, nW)
    ensures t <= sh.c.out
  {
    hide Holding, BuiltFor, CopyOk, Tight, Redirected, ClenTable;
  }

  /** Before a suspension is returned, the bytes written are recorded. */
  method Suspend(ghost c0: Config, ghost st: State, ghost sh: Shadow, ghost tab: Tables, ring: Ring, dst: Writer, ghost src: seq<Byte>, ghost ri: nat)
    requires At(c0, st, sh, tab, ring, dst, src, ri)
    modifies ring, ring.history
    ensures ring.Valid() && ring.recorded == old(Total(ring, dst))
    ensures Stands(st, sh, tab, ring.recorded, ring.index, |ring.recorded|, 0)
  {
    hide RingOk, BuiltFor, Means, DynMeans, CopyOk, History.Slot;
    ghost var nH, nW, index, history := |ring.recorded|, dst.wi - dst.mark, ring.index, ring.history[..];
    ring.Record(dst.buf[dst.mark..dst.wi]);
    if st.pc == OnCoded && st.slow.pc == OnCopy {
      CopyOkRecorded(st.slow.copying, history, index, nH, nW, ring.history[..], ring.index, ring.recorded);
    }
  }

  class Decoder {
    const tables: Tables
    const ring: Ring
    var state: State
    ghost var shadow: Shadow

    /** All input supplied so far, the part of it not yet consumed, and all output written. */
    ghost var supplied: seq<Byte>
    ghost var unread: seq<Byte>
    ghost var produced: seq<Byte>

    constructor ()
      ensures Valid() && supplied == [] && unread == [] && produced == []
      ensures fresh(ring) && fresh(ring.history) && fresh(tables.huffs0) && fresh(tables.huffs1) && fresh(tables.codeLengths)
    {
      tables := new Tables();
      ring := new Ring();
      state := State(0, 0, 0, 0, OnHeader, false, Gathering(0, 0), Dyn(OnCounts, 0, 0, 0, 0, 0, 0, 0),
                     Locals(OnSymbol, 0, 0, 0, 0, 0, Copying(Top, 0, 0, 0, 0)));
      ghost var sh: Shadow := *;
      shadow := sh.(c := START);
      supplied, unread, produced := [], [], [];
    }

    /** Between two calls: all output is recorded in the ring, and the state and the unread input decode to what
        all the input decodes to. */
    ghost predicate Valid()
      reads this, tables.huffs0, tables.huffs1, tables.codeLengths, ring, ring.history
    {
      && tables.Shaped() && ring.Valid() && ring.recorded == produced
      && Stands(state, shadow, tables, produced, ring.index, |ring.recorded|, 0)
      && StageOk(shadow.c.stage) && Leads(Feed(START, supplied), Feed(shadow.c, unread))
    }

    lemma Resume(input: seq<Byte>, dst: Writer, src: seq<Byte>)
      requires Valid() && unread <= src && input == supplied + src[|unread|..]
      requires dst.Valid() && dst.wi == dst.mark && dst.buf != ring.history
      ensures At(Feed(START, input), state, shadow, tables, ring, dst, src, 0)
    {
      hide Leads, Stands, RingOk;
      Supply(supplied, shadow.c, unread, src);
      assert src[0..] == src;
      assert Total(ring, dst) == produced;
    }

    /** decode: one call, with a source that starts with the input not yet read and a destination with room from wi
        to end. Whatever the sizes of the buffers in this and the earlier calls, the output so far is what the
        format makes of the input so far. */
    method Decode(buf: array<Byte>, wi: nat, end: nat, src: seq<Byte>) returns (ri: nat, wi': nat, status: Status)
      requires Valid() && unread <= src && wi <= end <= buf.Length && buf != ring.history
      modifies this, tables.codeLengths, tables.huffs0, tables.huffs1, ring, ring.history, buf
      ensures ri <= |src| && wi <= wi' <= end
      ensures supplied == old(supplied) + src[|old(unread)|..] && unread == src[ri..]
      ensures produced == old(produced) + buf[wi..wi']
      ensures Tells(status, state, supplied, unread, produced)
      ensures status == Status.ShortRead || status == Status.ShortWrite ==> Valid()
      ensures status == Status.ShortWrite ==> wi' == end || wi < wi'
    {
      hide Leads, Stands, RingOk, Tells, At, Returns;
      ghost var input := supplied + src[|unread|..];
      var dst := new Writer(buf, wi, end);
      Resume(input, dst, src);
      var st;
      ghost var sh;
      st, ri, status, sh := DecodeBlocks(state, tables, ring, dst, src, 0, Feed(START, input), shadow);
      wi' := dst.wi;
      Leaves(Feed(START, input), st, sh, tables, ring, dst, src, ri, status);
      assert Total(ring, dst) == old(produced) + buf[wi..wi'];
      Leave(input, st, sh, dst, src, ri, status);
    }

    /** The end of a call. */
    method Leave(ghost input: seq<Byte>, st: State, ghost sh: Shadow, dst: Writer, ghost src: seq<Byte>, ghost ri: nat, status: Status)
      requires Returns(Feed(START, input), st, sh, tables, ring, dst, src, ri, status) && dst.Valid() && ri <= |src|
      modifies this, ring, ring.history
      ensures supplied == input && unread == src[ri..] && produced == old(Total(ring, dst))
      ensures Tells(status, state, supplied, unread, produced)
      ensures status == Status.ShortRead || status == Status.ShortWrite ==> Valid()
    {
      hide Leads, Stands, RingOk, Tells, At, Returns;
      Conclude(input, st, sh, tables, ring, dst, src, ri, status);
      Leaves(Feed(START, input), st, sh, tables, ring, dst, src, ri, status);
      state, shadow, supplied, unread, produced := st, sh, input, src[ri..], Total(ring, dst);
      if status == Status.ShortRead || status == Status.ShortWrite {
        Suspend(Feed(START, input), st, sh, tables, ring, dst, src, ri);
      }
    }
  }
}
