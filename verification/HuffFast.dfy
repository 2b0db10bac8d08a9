/** decode_huffman_fast (gen/c/std/deflate.c): decoding symbols while there are at least 12 bytes of
    input and 258 bytes of room, two bytes of input at a time, and giving back the input that
    was read too far. */
module HuffFast {
  import opened Options
  import opened Bits
  import opened Words
  import opened BitStream
  import opened Codes
  import opened Entries
  import opened HuffTable
  import opened Inflate
  import opened Lookups
  import opened HuffRead
  import opened Writers
  import opened History
  import opened BackRefs
  import opened HuffSlow

  // ---------------- Input

  /** Where a call started: the bits held then, and the position in the input. */
  datatype Origin = Origin(c0: Config, held: seq<bool>, ri: nat)

  /** The bits held are the latest ones read, among those held at the start and those of the
      bytes read since. */
  ghost predicate Latest(held: seq<bool>, src: seq<Byte>, o: Origin, ri: nat)
  {
    && o.ri <= ri <= |src|
    && var read := o.held + Stream(src[o.ri..ri]);
       |held| <= |read| && held == read[|read| - |held|..]
  }

  /** After the first bits `pre` of it have been used, c continues with the bits held. */
  ghost predicate FastOk(o: Origin, c: Config, pre: seq<bool>, held: seq<bool>, i: Input, src: seq<Byte>)
  {
    && Has(i, src, held) && Latest(held, src, o, i.ri) && i.nBits <= 30
    && c.bits == pre + held && Leads(o.c0, Feed(c, src[i.ri..]))
  }

  /** How much input there is, in bits. */
  function Ahead(i: Input, src: seq<Byte>): int { 8 * (|src| - i.ri) + i.nBits }

  lemma LatestRead(held: seq<bool>, src: seq<Byte>, o: Origin, ri: nat)
    requires Latest(held, src, o, ri) && ri < |src|
    ensures Latest(held + BitsOf(src[ri], 8), src, o, ri + 1)
  {
    hide BitsOf, Stream;
    OneByte(src, ri);
    StreamAppend(src[o.ri..ri], src[ri..ri + 1]);
    assert src[o.ri..ri] + src[ri..ri + 1] == src[o.ri..ri + 1];
    Associates(o.held, Stream(src[o.ri..ri]), BitsOf(src[ri], 8));
  }

  lemma LatestTaken(held: seq<bool>, src: seq<Byte>, o: Origin, ri: nat, n: nat)
    requires Latest(held, src, o, ri) && n <= |held|
    ensures Latest(held[n..], src, o, ri)
  {
  }

  method FastByte(i: Input, src: seq<Byte>, ghost o: Origin, ghost c: Config, ghost pre: seq<bool>, ghost held: seq<bool>)
    returns (i': Input, ghost c': Config, ghost held': seq<bool>)
    requires FastOk(o, c, pre, held, i, src) && i.ri < |src| && i.nBits <= 22
    ensures FastOk(o, c', pre, held', i', src) && c' == c.(bits := pre + held') && held' == held + BitsOf(src[i.ri], 8)
    ensures i'.ri == i.ri + 1 && i'.nBits == i.nBits + 8
  {
    hide Latest, Read, Leads, Feed, BitsOf;
    i', held' := ReadByte(i, src, held);
    c' := c.(bits := pre + held');
    LatestRead(held, src, o, i.ri);
    ReadLeadsAfter(o.c0, c.stage, c.out, pre, i, held, i', held', src);
  }

  /** `if (n_bits < 15)`: two more bytes. */
  method Refill(i: Input, src: seq<Byte>, ghost o: Origin, ghost c: Config, ghost pre: seq<bool>, ghost held: seq<bool>)
    returns (i': Input, ghost c': Config, ghost held': seq<bool>)
    requires FastOk(o, c, pre, held, i, src) && i.ri + 2 <= |src|
    ensures FastOk(o, c', pre, held', i', src) && c' == c.(bits := pre + held')
    ensures i.ri <= i'.ri <= i.ri + 2 && 15 <= i'.nBits && Ahead(i', src) == Ahead(i, src)
  {
    hide Latest, Leads, Feed, Holding;
    i', c', held' := i, c, held;
    if i.nBits < 15 {
      i', c', held' := FastByte(i', src, o, c', pre, held');
      i', c', held' := FastByte(i', src, o, c', pre, held');
    }
  }

  /** Using bits already held. */
  method FastTake(i: Input, n: nat, src: seq<Byte>, ghost o: Origin, ghost c: Config, ghost pre: seq<bool>, ghost held: seq<bool>)
    returns (x: nat, i': Input)
    requires FastOk(o, c, pre, held, i, src) && n <= i.nBits
    ensures x == ToNat(held[..n])
    ensures FastOk(o, c, pre + held[..n], held[n..], i', src) && i'.ri == i.ri && i'.nBits == i.nBits - n
  {
    hide Latest, Leads, Feed, ToNat;
    x, i' := Take(i, n, src, held);
    LatestTaken(held, src, o, i.ri, n);
    assert held == held[..n] + held[n..];
    Associates(pre, held[..n], held[n..]);
  }

  // ---------------- Codes

  /** Reading a whole code: up to four bytes, up to two look-ups. */
  method FastCode(huffs: array<nat>, nb: nat, ghost call: Call, i: Input, src: seq<Byte>,
                  ghost o: Origin, ghost c: Config, ghost held: seq<bool>)
    returns (entry: nat, i': Input, ghost c': Config, ghost held': seq<bool>, ghost s: nat)
    requires TableFor(huffs[..], nb, call) && FastOk(o, c, [], held, i, src) && i.ri + 4 <= |src|
    ensures Next(call.lens, c'.bits) == Some(s) && c' == c.(bits := c'.bits) && held' == c'.bits[call.lens[s]..]
    ensures FastOk(o, c', c'.bits[..call.lens[s]], held', i', src) && i.ri <= i'.ri <= i.ri + 4
    ensures Ahead(i', src) < Ahead(i, src)
    ensures exists cl :: 0 <= cl < 16 && entry == Value(call, s, cl) && EntryKind(entry) != 1
  {
    hide TableFor, Leads, Feed, Latest, Low, ToNat, EntryBits, EntryKind, RedirTop, RedirBits, Value, ReadMsb, Code;
    var used;
    i', c', held' := Refill(i, src, o, c, [], held);
    assert [] + held' == held';
    s := LookAtRoot(huffs[..], nb, call, held');
    var k := Mask(i'.bits, nb);
    entry := huffs[k];
    EntryTakesBits(huffs[..], nb, call, held', s);
    if EntryKind(entry) != 1 {
      ghost var all := held';
      used, i' := FastTake(i', EntryBits(entry), src, o, c', [], held');
      held' := all[EntryBits(entry)..];
      assert [] + all[..EntryBits(entry)] == all[..EntryBits(entry)];
      return;
    }
    TakesRedirect(huffs[..], nb, call, held', s);
    ghost var pre := held'[..9];
    used, i' := FastTake(i', EntryBits(entry), src, o, c', [], held');
    assert [] + pre == pre;
    i', c', held' := Refill(i', src, o, c', pre, held'[9..]);
    s := LookAtSub(huffs[..], nb, call, pre, held', entry);
    SubBits(huffs[..], nb, call, pre, entry, s);
    k := Mask(i'.bits, RedirBits(entry));
    entry := huffs[RedirTop(entry) + k];
    ghost var all := held';
    DropBoth(pre, all, call.lens[s]);
    assert (pre + all)[..call.lens[s]] == pre + all[..call.lens[s] - 9];
    used, i' := FastTake(i', EntryBits(entry), src, o, c', pre, held');
    held' := all[call.lens[s] - 9..];
  }

  // ---------------- Steps

  lemma FastStep(o: Origin, c: Config, pre: seq<bool>, held: seq<bool>, i: Input, src: seq<Byte>)
    requires FastOk(o, c, pre, held, i, src) && StageOk(c.stage) && Advance(c).Go? && Advance(c).next.bits == held
    ensures FastOk(o, Advance(c).next, [], held, i, src)
  {
    hide Leads, Feed, Latest, Holding, Advance;
    StepLeads(o.c0, c, src[i.ri..]);
    assert [] + held == held;
  }

  /** Extra bits, if there are any. */
  method FastExtra(i: Input, n: nat, src: seq<Byte>, ghost o: Origin, ghost c: Config, ghost held: seq<bool>)
    returns (x: nat, i': Input, ghost c': Config, ghost held': seq<bool>)
    requires FastOk(o, c, [], held, i, src) && n <= 15 && i.ri + 2 <= |src|
    ensures n <= |c'.bits| && c' == c.(bits := c'.bits) && x == ToNat(c'.bits[..n]) && held' == c'.bits[n..]
    ensures FastOk(o, c', c'.bits[..n], held', i', src) && i.ri <= i'.ri <= i.ri + 2
    ensures Ahead(i', src) <= Ahead(i, src)
  {
    hide Leads, Feed, Latest, ToNat;
    assert [] + held == held;
    if n > 0 {
      i', c', held' := Refill(i, src, o, c, [], held);
      assert [] + held' == held';
      ghost var all := held';
      x, i' := FastTake(i', n, src, o, c', [], held');
      held' := all[n..];
      assert [] + all[..n] == all[..n];
    } else {
      x, i', c', held' := 0, i, c, held;
      assert held[..0] == [] && held[0..] == held;
      NothingTaken();
    }
  }

  lemma NothingTaken()
    ensures ToNat([]) == 0
  {
  }

  /** The bits `pre` are the end-of-block code. */
  ghost predicate EndCode(b: CodedBlock, pre: seq<bool>)
  {
    Starts(b.trees.lit, 256, pre) && |pre| == b.trees.lit[256]
  }

  lemma EndSteps(b: CodedBlock, t: seq<Byte>, pre: seq<bool>, held: seq<bool>)
    requires TreesOk(b.trees) && EndCode(b, pre)
    ensures Advance(Config(Symbol(b.last, b.trees), t, pre + held)) == AfterBlock(b.last, t, held)
  {
    StartsMore(b.trees.lit, 256, pre, held);
    NextIs(b.trees.lit, 256, pre + held);
    SymbolSteps(b, t, pre + held, 256);
    assert (pre + held)[|pre|..] == held;
  }

  lemma CodeIsEnd(b: CodedBlock, bits: seq<bool>)
    requires TreesOk(b.trees) && Next(b.trees.lit, bits) == Some(256)
    ensures EndCode(b, bits[..b.trees.lit[256]])
  {
    var n := b.trees.lit[256];
    assert bits[..n] + bits[n..] == bits;
    StartsMore(b.trees.lit, 256, bits[..n], bits[n..]);
  }

  datatype FastStatus = Onwards | Ended | BadCodes | BadDistances | Inconsistency

  /** What the first part of a round comes to: a literal, a length, or the end. */
  datatype FastSymbol = Literal(b: Byte) | Length(n: nat) | End | Bad | Broken

  /** The literal or length of a round: at most six bytes. */
  method ReadSymbol(i: Input, huffs0: array<nat>, nb0: nat, src: seq<Byte>,
                    ghost o: Origin, ghost b: CodedBlock, ghost t: seq<Byte>, ghost c: Config, ghost held: seq<bool>)
    returns (r: FastSymbol, i': Input, ghost c': Config, ghost pre: seq<bool>, ghost held': seq<bool>)
    requires BlockOk(b) && huffs0[..] == b.huffs0 && nb0 == b.nb0
    requires FastOk(o, c, [], held, i, src) && c == Config(Symbol(b.last, b.trees), t, held) && i.ri + 6 <= |src|
    ensures i.ri <= i'.ri <= i.ri + 6 && Ahead(i', src) < Ahead(i, src)
    ensures match r
            case Literal(x) => FastOk(o, c', [], held', i', src) && c' == Config(Symbol(b.last, b.trees), t + [x], held')
            case Length(n) => FastOk(o, c', [], held', i', src) && c' == Config(Distance(b.last, b.trees, n), t, held') && 3 <= n <= 258
            case End => EndCode(b, pre) && FastOk(o, c', pre, held', i', src) && c' == Config(Symbol(b.last, b.trees), t, pre + held')
            case Bad => Leads(o.c0, Feed(c', src[i'.ri..])) && StageOk(c'.stage) && Advance(c') == Stop(BadCode) && c'.out == t
            case Broken => false
  {
    hide Leads, Feed, Latest, Holding, TableFor, Advance, EntryKind, Value, LengthBase, ExtraLengthBits, ToNat, ReadMsb, Code;
    BlockFacts(b);
    var entry, i1, c1, held1, s := FastCode(huffs0, nb0, b.lit, i, src, o, c, held);
    i', c', held' := i1, c1, held1;
    pre := c1.bits[..b.trees.lit[s]];
    ghost var cl: nat :| cl < 16 && entry == Value(b.lit, s, cl);
    LitEntry(b.lit, s, cl);
    SymbolSteps(b, t, c1.bits, s);
    if entry / 0x8000_0000 != 0 {
      FastStep(o, c1, pre, held1, i1, src);
      c' := Advance(c1).next;
      r := Literal(entry / 256 % 256);
      return;
    } else if entry / 0x4000_0000 != 0 {
    } else if entry / 0x2000_0000 != 0 {
      CodeIsEnd(b, c1.bits);
      r := End;
      return;
    } else if entry / 0x0800_0000 != 0 {
      r := Bad;
      return;
    } else {
      r := Broken;
      return;
    }
    FastStep(o, c1, pre, held1, i1, src);
    ghost var k := s - 257;
    var n := entry / 16 % 16;
    LengthFits(k);
    var x, i2, c2, held2 := FastExtra(i1, n, src, o, Advance(c1).next, held1);
    LengthExtraSteps(b, k, t, c2.bits);
    var length := MaskLength(entry / 256 % 32768 + x);
    if length > 258 {
      return Broken, i2, c2, [], held2;
    }
    FastStep(o, c2, c2.bits[..n], held2, i2, src);
    return Length(length), i2, Advance(c2).next, [], held2;
  }

  /** The distance of a round: at most six bytes. Zero stands for a code that is not a distance. */
  method ReadDistance(i: Input, length: nat, huffs1: array<nat>, nb1: nat, src: seq<Byte>,
                      ghost o: Origin, ghost b: CodedBlock, ghost t: seq<Byte>, ghost c: Config, ghost held: seq<bool>)
    returns (distance: nat, i': Input, ghost c': Config, ghost held': seq<bool>)
    requires BlockOk(b) && huffs1[..] == b.huffs1 && nb1 == b.nb1 && 3 <= length <= 258
    requires FastOk(o, c, [], held, i, src) && c == Config(Distance(b.last, b.trees, length), t, held) && i.ri + 6 <= |src|
    ensures i.ri <= i'.ri <= i.ri + 6 && Ahead(i', src) < Ahead(i, src)
    ensures distance == 0 ==> Leads(o.c0, Feed(c', src[i'.ri..])) && StageOk(c'.stage) && Advance(c') == Stop(BadCode) && c'.out == t
    ensures distance > 0 ==>
              && FastOk(o, c', [], held', i', src) && c' == Config(Move(b.last, b.trees, length, distance), t, held')
              && distance <= RING
  {
    hide Leads, Feed, Latest, Holding, TableFor, Advance, EntryKind, Value, DistanceBase, ExtraDistanceBits, ToNat, ReadMsb, Code;
    BlockFacts(b);
    var entry, i1, c1, held1, d := FastCode(huffs1, nb1, b.dist, i, src, o, c, held);
    ghost var cl: nat :| cl < 16 && entry == Value(b.dist, d, cl);
    DistEntry(b.dist, d, cl);
    DistanceSteps(b, length, t, c1.bits);
    if entry / 0x0100_0000 != 64 {
      return 0, i1, c1, held1;
    }
    FastStep(o, c1, c1.bits[..b.trees.dist[d]], held1, i1, src);
    var n := entry / 16 % 16;
    DistanceFits(d);
    var x, i2, c2, held2 := FastExtra(i1, n, src, o, Advance(c1).next, held1);
    DistanceExtraSteps(b, length, d, t, c2.bits);
    var distMinus1 := MaskLength(entry / 256 % 32768 + x);
    FastStep(o, c2, c2.bits[..n], held2, i2, src);
    return distMinus1 + 1, i2, Advance(c2).next, held2;
  }

  ghost predicate FastDone(o: Origin, b: CodedBlock, c: Config, pre: seq<bool>, held: seq<bool>, i: Input, src: seq<Byte>, t: seq<Byte>, status: FastStatus)
  {
    && i.ri <= |src|
    && match status
       case Onwards => FastOk(o, c, [], held, i, src) && c == Config(Symbol(b.last, b.trees), t, held)
       case Ended => EndCode(b, pre) && FastOk(o, c, pre, held, i, src) && c == Config(Symbol(b.last, b.trees), t, pre + held)
       case BadCodes => StageOk(c.stage) && Leads(o.c0, Feed(c, src[i.ri..])) && Advance(c) == Stop(BadCode) && c.out == t
       case BadDistances => StageOk(c.stage) && Leads(o.c0, Feed(c, src[i.ri..])) && Advance(c) == Stop(Verdict.BadDistance) && c.out == t
       case Inconsistency => false
  }

  /** A copy, for which there is room. */
  method FastCopy(length: nat, distance: nat, ring: Ring, dst: Writer, ghost i: Input, ghost src: seq<Byte>,
                  ghost o: Origin, ghost b: CodedBlock, ghost c: Config, ghost held: seq<bool>)
    returns (status: FastStatus, ghost c': Config)
    requires BlockOk(b) && ring.Valid() && dst.Valid() && ring.history != dst.buf && dst.Room() >= 258
    requires 3 <= length <= 258 && 1 <= distance <= RING
    requires FastOk(o, c, [], held, i, src) && c == Config(Move(b.last, b.trees, length, distance), Total(ring, dst), held)
    modifies dst`wi, dst.buf
    ensures ring.Valid() && dst.Valid() && old(dst.wi) <= dst.wi && (status == Onwards || status == BadDistances)
    ensures FastDone(o, b, c', [], held, i, src, Total(ring, dst), status)
  {
    hide Leads, Feed, Latest, Holding, TableFor, Advance, Copied;
    ghost var t := Total(ring, dst);
    var st := CopyFast(Copying(Top, length, distance, 0, 0), ring, dst);
    MoveSteps(b, length, distance, t, held);
    if st == CopyStatus.BadDistance {
      return BadDistances, c;
    }
    MoveLeads(o.c0, b, length, distance, t, length, held, src[i.ri..]);
    ghost var c1 := Config(Move(b.last, b.trees, 0, distance), Total(ring, dst), held);
    assert [] + held == held;
    MoveSteps(b, 0, distance, Total(ring, dst), held);
    FastStep(o, c1, [], held, i, src);
    return Onwards, Advance(c1).next;
  }

  /** One round of the loop: at most twelve bytes of input, at most 258 of output. */
  method FastRound(i: Input, huffs0: array<nat>, nb0: nat, huffs1: array<nat>, nb1: nat, ring: Ring, dst: Writer, src: seq<Byte>,
                   ghost o: Origin, ghost b: CodedBlock, ghost c: Config, ghost held: seq<bool>)
    returns (status: FastStatus, i': Input, ghost c': Config, ghost pre: seq<bool>, ghost held': seq<bool>)
    requires BlockOk(b) && huffs0[..] == b.huffs0 && nb0 == b.nb0 && huffs1[..] == b.huffs1 && nb1 == b.nb1
    requires ring.Valid() && dst.Valid() && ring.history != dst.buf && dst.Room() >= 258 && i.ri + 12 <= |src|
    requires FastDone(o, b, c, [], held, i, src, Total(ring, dst), Onwards)
    modifies dst`wi, dst.buf
    ensures ring.Valid() && dst.Valid() && i.ri <= i'.ri <= i.ri + 12 && Ahead(i', src) < Ahead(i, src)
    ensures old(dst.wi) <= dst.wi
    ensures FastDone(o, b, c', pre, held', i', src, Total(ring, dst), status)
  {
    hide BlockOk, Leads, Feed, FastOk, Advance, EndCode;
    var r;
    r, i', c', pre, held' := ReadSymbol(i, huffs0, nb0, src, o, b, Total(ring, dst), c, held);
    match r {
      case Literal(x) =>
        ghost var h, w := ring.recorded, dst.Written();
        dst.Put(x);
        Associate(h, w, [x]);
        status := Onwards;
      case Length(n) =>
        var distance;
        distance, i', c', held' := ReadDistance(i', n, huffs1, nb1, src, o, b, Total(ring, dst), c', held');
        if distance == 0 {
          status := BadCodes;
          return;
        }
        status, c' := FastCopy(n, distance, ring, dst, i', src, o, b, c', held');
      case End => status := Ended;
      case Bad => status := BadCodes;
      case Broken => status := Inconsistency;
    }
  }

  // ---------------- Giving back input

  /** Eight bits held, or more, end with a whole byte that was read in this call. */
  lemma LatestByte(held: seq<bool>, src: seq<Byte>, o: Origin, ri: nat)
    requires Latest(held, src, o, ri) && 8 <= |held| && |o.held| < 8
    ensures o.ri < ri && held == held[..|held| - 8] + BitsOf(src[ri - 1], 8)
    ensures Latest(held[..|held| - 8], src, o, ri - 1)
  {
    hide BitsOf, Stream;
    var n := |held| - 8;
    StreamLength(src[o.ri..ri]);
    var before := o.held + Stream(src[o.ri..ri - 1]);
    var read := o.held + Stream(src[o.ri..ri]);
    LastByte(src, o.ri, ri);
    Associates(o.held, Stream(src[o.ri..ri - 1]), BitsOf(src[ri - 1], 8));
    StreamLength(src[o.ri..ri - 1]);
    assert read == before + BitsOf(src[ri - 1], 8);
    SuffixOfSum(before, BitsOf(src[ri - 1], 8), held);
  }

  lemma StreamLength(src: seq<Byte>)
    ensures |Stream(src)| == 8 * |src|
  {
  }

  lemma LastByte(src: seq<Byte>, k: nat, ri: nat)
    requires k < ri <= |src|
    ensures Stream(src[k..ri]) == Stream(src[k..ri - 1]) + BitsOf(src[ri - 1], 8)
  {
    assert src[k..ri][..ri - k - 1] == src[k..ri - 1];
  }

  lemma SuffixOfSum(a: seq<bool>, b: seq<bool>, held: seq<bool>)
    requires |b| == 8 <= |held| <= |a| + 8 && held == (a + b)[|a + b| - |held|..]
    ensures held == held[..|held| - 8] + b
    ensures held[..|held| - 8] == a[|a| - (|held| - 8)..]
  {
  }

  lemma UnreadLeads(o: Origin, c: Config, pre: seq<bool>, held: seq<bool>, src: seq<Byte>, ri: nat)
    requires Latest(held, src, o, ri) && 8 <= |held| && |o.held| < 8
    requires Leads(o.c0, Feed(c.(bits := pre + held), src[ri..]))
    ensures o.ri < ri && Latest(held[..|held| - 8], src, o, ri - 1)
    ensures Leads(o.c0, Feed(c.(bits := pre + held[..|held| - 8]), src[ri - 1..]))
  {
    hide Leads, Feed, BitsOf, Latest;
    StartBound(o, held, src, ri);
    LatestByte(held, src, o, ri);
    var fewer := held[..|held| - 8];
    var c' := c.(bits := pre + fewer);
    FeedByte(c', src[ri - 1..]);
    Associates(pre, fewer, BitsOf(src[ri - 1], 8));
    assert src[ri - 1..][1..] == src[ri..];
  }

  /** The unread loop: it never goes back before the start of the call. */
  method Unread(i: Input, start: nat, src: seq<Byte>, ghost o: Origin, ghost c: Config, ghost pre: seq<bool>, ghost held: seq<bool>)
    returns (i': Input, beforeStart: bool, ghost held': seq<bool>)
    requires FastOk(o, c, pre, held, i, src) && |o.held| < 8 && start == o.ri
    ensures !beforeStart && o.ri <= i'.ri <= i.ri && i'.nBits < 8 && Ahead(i', src) == Ahead(i, src)
    ensures Has(i', src, held') && Leads(o.c0, Feed(c.(bits := pre + held'), src[i'.ri..]))
  {
    hide Leads, Feed, Latest, ToNat;
    var nBits, ri := i.nBits, i.ri;
    held' := held;
    beforeStart := false;
    StartBound(o, held, src, i.ri);
    assert c.(bits := pre + held) == c;
    while nBits >= 8
      invariant o.ri <= ri <= i.ri <= |src| && nBits == |held'| <= |held| && held' == held[..nBits]
      invariant 8 * (|src| - ri) + nBits == Ahead(i, src)
      invariant Latest(held', src, o, ri) && Leads(o.c0, Feed(c.(bits := pre + held'), src[ri..]))
    {
      UnreadLeads(o, c, pre, held', src, ri);
      nBits := nBits - 8;
      if ri == start {
        return i, true, held';
      }
      held' := held'[..nBits];
      ri := ri - 1;
    }
    var bits := Mask(i.bits, nBits);
    ToNatSplit(held, nBits);
    i' := Input(bits, nBits, ri);
  }

  lemma StartBound(o: Origin, held: seq<bool>, src: seq<Byte>, ri: nat)
    requires Latest(held, src, o, ri)
    ensures o.ri <= ri <= |src|
  {
  }

  // ---------------- The function

  /** What is promised of a call: what it returns leads where its arguments led, and less than a
      byte of bits is left over. */
  ghost predicate FastReturns(c0: Config, b: CodedBlock, c: Config, held: seq<bool>, i: Input, src: seq<Byte>, t: seq<Byte>, status: FastStatus)
  {
    && i.ri <= |src| && StageOk(c.stage) && Leads(c0, Feed(c, src[i.ri..]))
    && match status
       case Onwards => Has(i, src, held) && i.nBits < 8 && c == Config(Symbol(b.last, b.trees), t, held)
       case Ended => Has(i, src, held) && i.nBits < 8 && Advance(c) == AfterBlock(b.last, t, held) && c.out == t
       case BadCodes => Advance(c) == Stop(BadCode) && c.out == t
       case BadDistances => Advance(c) == Stop(Verdict.BadDistance) && c.out == t
       case Inconsistency => false
  }

  /** decode_huffman_fast: as many rounds as the input and the room allow. */
  method DecodeHuffmanFast(bits: nat, nBits: nat, huffs0: array<nat>, nb0: nat, huffs1: array<nat>, nb1: nat,
                           ring: Ring, dst: Writer, src: seq<Byte>, ri: nat, ghost c0: Config, ghost b: CodedBlock, ghost held: seq<bool>)
    returns (status: FastStatus, i': Input, ghost c': Config, ghost held': seq<bool>)
    requires BlockOk(b) && huffs0[..] == b.huffs0 && nb0 == b.nb0 && huffs1[..] == b.huffs1 && nb1 == b.nb1
    requires ring.Valid() && dst.Valid() && ring.history != dst.buf
    requires Has(Input(bits, nBits, ri), src, held) && nBits < 8
    requires Leads(c0, Feed(Config(Symbol(b.last, b.trees), Total(ring, dst), held), src[ri..]))
    modifies dst`wi, dst.buf
    ensures ring.Valid() && dst.Valid() && ri <= i'.ri && Ahead(i', src) <= Ahead(Input(bits, nBits, ri), src)
    ensures old(dst.wi) <= dst.wi
    ensures status == Onwards ==> dst.Room() < 258 || |src| - i'.ri < 12 + 4
    ensures FastReturns(c0, b, c', held', i', src, Total(ring, dst), status)
  {
    hide BlockOk, Leads, Feed, Latest, Holding, Advance, EndCode;
    i', held', status := Input(bits, nBits, ri), held, Onwards;
    c' := Config(Symbol(b.last, b.trees), Total(ring, dst), held);
    ghost var o := Origin(c0, held, ri);
    ghost var pre := [];
    StartLatest(o, src);
    HeldLength(bits, nBits, held);
    assert [] + held == held;
    if nBits >= 8 || bits / Pow2(nBits) != 0 {
      NoStrayBits(bits, nBits, held);
      assert false;
    }
    while status == Onwards && dst.Room() >= 258 && |src| - i'.ri >= 12
      invariant ring.Valid() && dst.Valid() && ri <= i'.ri && Ahead(i', src) <= Ahead(Input(bits, nBits, ri), src)
      invariant huffs0[..] == b.huffs0 && huffs1[..] == b.huffs1 && old(dst.wi) <= dst.wi
      invariant FastDone(o, b, c', pre, held', i', src, Total(ring, dst), status) && (status == Onwards ==> pre == [])
      decreases if status == Onwards then 1 else 0, Ahead(i', src)
    {
      status, i', c', pre, held' := FastRound(i', huffs0, nb0, huffs1, nb1, ring, dst, src, o, b, c', held');
      if status == Onwards {
        pre := [];
      }
    }
    if status == Onwards || status == Ended {
      var beforeStart;
      i', beforeStart, held' := Unread(i', ri, src, o, c', pre, held');
      if beforeStart {
        assert false;
      }
      c' := c'.(bits := pre + held');
      FastEnd(b, c', pre, held', Total(ring, dst), status);
    }
  }

  lemma StartLatest(o: Origin, src: seq<Byte>)
    requires o.ri <= |src|
    ensures Latest(o.held, src, o, o.ri)
  {
    assert src[o.ri..o.ri] == [] && Stream([]) == [] && o.held + [] == o.held;
  }

  lemma HeldLength(bits: nat, nBits: nat, held: seq<bool>)
    requires Holding(bits, nBits, held)
    ensures |held| == nBits
  {
  }

  lemma NoStrayBits(bits: nat, nBits: nat, held: seq<bool>)
    requires Holding(bits, nBits, held)
    ensures bits / Pow2(nBits) == 0
  {
    ToNatBound(held);
    DivModUnique(bits, Pow2(nBits), 0, bits);
  }

  lemma FastEnd(b: CodedBlock, c: Config, pre: seq<bool>, held: seq<bool>, t: seq<Byte>, status: FastStatus)
    requires BlockOk(b) && c == Config(Symbol(b.last, b.trees), t, pre + held)
    requires if status == Onwards then pre == [] else EndCode(b, pre)
    ensures status == Onwards ==> c == Config(Symbol(b.last, b.trees), t, held)
    ensures status != Onwards ==> Advance(c) == AfterBlock(b.last, t, held)
    ensures StageOk(c.stage)
  {
    if status == Onwards {
      assert [] + held == held;
    } else {
      EndSteps(b, t, pre, held);
    }
  }

  // ---------------- Fast and slow agree

  /** How the decoding of a block on its own ends. */
  datatype CodedEnd = EndsAt(bits: nat, nBits: nat, ri: nat) | NeedsMore | NeedsRoom | Rejects(verdict: Verdict)

  /** The end that was found is what the format makes of c0, with output t. */
  ghost predicate Settles(c0: Config, r: CodedEnd, t: seq<Byte>, src: seq<Byte>)
    requires StageOk(c0.stage)
  {
    match r
    case EndsAt(bits, nBits, ri) =>
      && ri <= |src| && nBits < 8 && bits == ToNat(BitsOf(bits, nBits))
      && Run(c0) == Inflate.Outcome(t, Done(BitsOf(bits, nBits) + Stream(src[ri..])))
    case NeedsMore => Run(c0) == Inflate.Outcome(t, Incomplete)
    case NeedsRoom => true
    case Rejects(v) => Run(c0) == Inflate.Outcome(t, v) && !v.Done? && v != Incomplete
  }

  /** There is only one such end, and one output. */
  lemma OneEnd(c0: Config, r1: CodedEnd, t1: seq<Byte>, r2: CodedEnd, t2: seq<Byte>, src: seq<Byte>)
    requires StageOk(c0.stage) && Settles(c0, r1, t1, src) && Settles(c0, r2, t2, src)
    requires !r1.NeedsRoom? && !r2.NeedsRoom?
    ensures r1 == r2 && t1 == t2
  {
    hide Run, Stream, BitsOf, ToNat;
    if r1.EndsAt? && r2.EndsAt? {
      var held1, held2 := BitsOf(r1.bits, r1.nBits), BitsOf(r2.bits, r2.nBits);
      BitsOfLength(r1.bits, r1.nBits);
      BitsOfLength(r2.bits, r2.nBits);
      StreamLength(src[r1.ri..]);
      StreamLength(src[r2.ri..]);
      assert |held1| + 8 * (|src| - r1.ri) == |held2| + 8 * (|src| - r2.ri);
      assert r1.ri == r2.ri;
      assert (held1 + Stream(src[r1.ri..]))[..|held1|] == held1;
      assert (held2 + Stream(src[r2.ri..]))[..|held2|] == held2;
    }
  }

  lemma BitsOfLength(x: nat, n: nat)
    ensures |BitsOf(x, n)| == n
  {
  }

  /** A configuration at which the format stops settles where c0 leads. */
  lemma StopSettles(c0: Config, c: Config, src: seq<Byte>, ri: nat)
    requires ri <= |src| && StageOk(c.stage) && Leads(c0, Feed(c, src[ri..])) && Advance(c).Stop?
    ensures Run(c0) == Inflate.Outcome(c.out, Extend(Advance(c), Stream(src[ri..])).verdict)
  {
    hide Advance, Run, Leads, Stream;
    StreamLength(src[ri..]);
    AdvanceMore(c, Stream(src[ri..]));
    LeadsToStop(c0, Feed(c, src[ri..]));
  }

  /** A block that ended. */
  lemma EndSettles(c0: Config, c: Config, i: Input, held: seq<bool>, t: seq<Byte>, src: seq<Byte>)
    requires Has(i, src, held) && i.nBits < 8 && StageOk(c.stage) && Leads(c0, Feed(c, src[i.ri..]))
    requires Advance(c) == AfterBlock(true, t, held) && c.out == t
    ensures Settles(c0, EndsAt(i.bits, i.nBits, i.ri), t, src)
  {
    StopSettles(c0, c, src, i.ri);
    hide Advance, Run, Leads, Stream;
    HoldingBound(i.bits, i.nBits, held);
  }

  /** A block that needs more input. */
  lemma WaitSettles(c0: Config, c: Config, src: seq<Byte>)
    requires StageOk(c.stage) && Leads(c0, Feed(c, src[|src|..])) && Advance(c).Wait?
    ensures Settles(c0, NeedsMore, c.out, src)
  {
    assert Feed(c, src[|src|..]) == c by { assert src[|src|..] == [] && c.bits + Stream([]) == c.bits; }
    hide Run, Advance, Leads;
    LeadsToStop(c0, c);
  }

  /** A block from its first symbol on, by the slow decoder alone. */
  method SlowAlone(bits: nat, nBits: nat, huffs0: array<nat>, nb0: nat, huffs1: array<nat>, nb1: nat,
                   ring: Ring, dst: Writer, src: seq<Byte>, ri: nat, ghost c0: Config, ghost b: CodedBlock, ghost held: seq<bool>)
    returns (r: CodedEnd)
    requires BlockOk(b) && b.last && huffs0[..] == b.huffs0 && nb0 == b.nb0 && huffs1[..] == b.huffs1 && nb1 == b.nb1
    requires ring.Valid() && dst.Valid() && ring.history != dst.buf
    requires Has(Input(bits, nBits, ri), src, held) && nBits < 8 && StageOk(c0.stage)
    requires Leads(c0, Feed(Config(Symbol(b.last, b.trees), Total(ring, dst), held), src[ri..]))
    modifies dst`wi, dst.buf
    ensures dst.Valid() && Settles(c0, r, Total(ring, dst), src)
    ensures r.NeedsRoom? ==> dst.Room() == 0 || old(dst.wi) < dst.wi
  {
    hide BlockOk, Leads, Feed, Advance, Settles, RingOk;
    var l := Locals(OnSymbol, bits, nBits, 0, 0, 0, Copying(Top, 0, 0, 0, 0));
    ghost var m := Meaning(Config(Symbol(b.last, b.trees), Total(ring, dst), held), [], held);
    FewAreTight(b.trees.lit, held);
    var l', ri', status, m' := DecodeHuffmanSlow(l, huffs0, nb0, huffs1, nb1, ring, dst, src, ri, c0, b, m);
    SlowStage(c0, m', src, ri');
    match status {
      case BlockEnded =>
        r := EndsAt(l'.bits, l'.nBits, ri');
        EndSettles(c0, m'.c, Input(l'.bits, l'.nBits, ri'), m'.held, Total(ring, dst), src);
      case ShortRead =>
        r := NeedsMore;
        WaitSettles(c0, m'.c, src);
      case NoRoom =>
        r := NeedsRoom;
        RoomSettles(c0, Total(ring, dst), src);
      case BadCodeFound =>
        r := Rejects(BadCode);
        RejectSettles(c0, m'.c, BadCode, src, ri');
      case BadDistanceFound =>
        r := Rejects(Verdict.BadDistance);
        RejectSettles(c0, m'.c, Verdict.BadDistance, src, ri');
    }
  }

  lemma SlowStage(c0: Config, m: Meaning, src: seq<Byte>, ri: nat)
    requires ri <= |src| && Leads(c0, Feed(m.c, src[ri..]))
    ensures StageOk(m.c.stage)
  {
  }

  lemma RoomSettles(c0: Config, t: seq<Byte>, src: seq<Byte>)
    requires StageOk(c0.stage)
    ensures Settles(c0, NeedsRoom, t, src)
  {
  }

  lemma RejectSettles(c0: Config, c: Config, v: Verdict, src: seq<Byte>, ri: nat)
    requires ri <= |src| && StageOk(c.stage) && Leads(c0, Feed(c, src[ri..])) && Advance(c) == Stop(v)
    requires !v.Done? && v != Incomplete
    ensures StageOk(c0.stage) && Settles(c0, Rejects(v), c.out, src)
  {
    StopSettles(c0, c, src, ri);
  }

  /** The same by the fast decoder first, and then the slow one for what it leaves. */
  method FastThenSlow(bits: nat, nBits: nat, huffs0: array<nat>, nb0: nat, huffs1: array<nat>, nb1: nat,
                      ring: Ring, dst: Writer, src: seq<Byte>, ri: nat, ghost c0: Config, ghost b: CodedBlock, ghost held: seq<bool>)
    returns (r: CodedEnd)
    requires BlockOk(b) && b.last && huffs0[..] == b.huffs0 && nb0 == b.nb0 && huffs1[..] == b.huffs1 && nb1 == b.nb1
    requires ring.Valid() && dst.Valid() && ring.history != dst.buf
    requires Has(Input(bits, nBits, ri), src, held) && nBits < 8 && StageOk(c0.stage)
    requires Leads(c0, Feed(Config(Symbol(b.last, b.trees), Total(ring, dst), held), src[ri..]))
    modifies dst`wi, dst.buf
    ensures dst.Valid() && Settles(c0, r, Total(ring, dst), src)
    ensures r.NeedsRoom? ==> dst.Room() == 0 || old(dst.wi) < dst.wi
  {
    hide BlockOk, Leads, Feed, Advance, Settles, RingOk;
    var status, i;
    ghost var c', held';
    status, i, c', held' := DecodeHuffmanFast(bits, nBits, huffs0, nb0, huffs1, nb1, ring, dst, src, ri, c0, b, held);
    match status {
      case Onwards => r := SlowAlone(i.bits, i.nBits, huffs0, nb0, huffs1, nb1, ring, dst, src, i.ri, c0, b, held');
      case Ended =>
        r := EndsAt(i.bits, i.nBits, i.ri);
        EndSettles(c0, c', i, held', Total(ring, dst), src);
      case BadCodes =>
        r := Rejects(BadCode);
        RejectSettles(c0, c', BadCode, src, i.ri);
      case BadDistances =>
        r := Rejects(Verdict.BadDistance);
        RejectSettles(c0, c', Verdict.BadDistance, src, i.ri);
      case Inconsistency => assert false;
    }
  }

  /** One block decoded both ways, from the same output so far into two destinations: unless one of them
      runs out of room, the output, the bits left over, the position in the input and the error, if
      there is one, are the same. */
  method BothWays(bits: nat, nBits: nat, huffs0: array<nat>, nb0: nat, huffs1: array<nat>, nb1: nat,
                  ring1: Ring, dst1: Writer, ring2: Ring, dst2: Writer, src: seq<Byte>, ri: nat,
                  ghost b: CodedBlock, ghost held: seq<bool>)
    returns (slow: CodedEnd, fast: CodedEnd)
    requires BlockOk(b) && huffs0[..] == b.huffs0 && nb0 == b.nb0 && huffs1[..] == b.huffs1 && nb1 == b.nb1
    requires ring1.Valid() && dst1.Valid() && ring2.Valid() && dst2.Valid() && Total(ring1, dst1) == Total(ring2, dst2)
    requires dst1 != dst2 && dst1.buf != dst2.buf && ring1.history !in {dst1.buf, dst2.buf} && ring2.history !in {dst1.buf, dst2.buf}
    requires Has(Input(bits, nBits, ri), src, held) && nBits < 8
    modifies dst1`wi, dst1.buf, dst2`wi, dst2.buf
    ensures dst1.Valid() && dst2.Valid()
    ensures slow.NeedsRoom? ==> dst1.Room() == 0 || old(dst1.wi) < dst1.wi
    ensures fast.NeedsRoom? ==> dst2.Room() == 0 || old(dst2.wi) < dst2.wi
    ensures !slow.NeedsRoom? && !fast.NeedsRoom? ==> slow == fast && Total(ring1, dst1) == Total(ring2, dst2)
  {
    hide BlockOk, Leads, Feed, Settles, RingOk;
    ghost var alone := b.(last := true);
    AloneOk(b);
    ghost var c0 := Feed(Config(Symbol(true, b.trees), Total(ring1, dst1), held), src[ri..]);
    AloneStage(b, Total(ring1, dst1), held, src[ri..]);
    LeadsRefl(c0);
    slow := SlowAlone(bits, nBits, huffs0, nb0, huffs1, nb1, ring1, dst1, src, ri, c0, alone, held);
    fast := FastThenSlow(bits, nBits, huffs0, nb0, huffs1, nb1, ring2, dst2, src, ri, c0, alone, held);
    if !slow.NeedsRoom? && !fast.NeedsRoom? {
      OneEnd(c0, slow, Total(ring1, dst1), fast, Total(ring2, dst2), src);
    }
  }

  lemma AloneOk(b: CodedBlock)
    requires BlockOk(b)
    ensures BlockOk(b.(last := true))
  {
  }

  lemma AloneStage(b: CodedBlock, t: seq<Byte>, held: seq<bool>, rest: seq<Byte>)
    requires BlockOk(b)
    ensures StageOk(Feed(Config(Symbol(true, b.trees), t, held), rest).stage)
  {
  }
}
