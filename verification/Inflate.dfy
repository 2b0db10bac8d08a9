/** The DEFLATE format (RFC 1951) as a machine over bits: what a decoder is to compute, without
    tables, bit buffers, history or suspension.

    A configuration is a stage, the output so far and the bits not yet used. `Advance` takes one
    step; `Run` takes as many as the bits allow. */
module Inflate {
  import opened Options
  import opened Bits
  import opened Words
  import opened BitStream
  import opened Codes
  import opened Entries

  // ---------------- Reading a code

  /** The bits start with the whole code of s. */
  ghost predicate Starts(lens: seq<nat>, s: nat, bits: seq<bool>)
  {
    Matches(lens, s, ToNat(bits)) && lens[s] <= |bits|
  }

  ghost function Next(lens: seq<nat>, bits: seq<bool>): (r: Option<nat>)
    ensures r.Some? ==> Starts(lens, r.value, bits)
  {
    if s: nat :| Starts(lens, s, bits) then Some(s) else None
  }

  // ---------------- Stages

  /** The literal/length code and the distance code of a block, as code lengths. */
  datatype Trees = Trees(lit: seq<nat>, dist: seq<nat>)

  /** How many code lengths a dynamic block has; the last-block flag is kept along. */
  datatype Sizes = Sizes(last: bool, nLit: nat, nDist: nat)

  datatype Stage =
    | Header
    | StoredHeader(last: bool)
    | Stored(last: bool, n: nat)
    | CodeCounts(last: bool)
    | ClenLengths(sizes: Sizes, nClen: nat, got: seq<nat>)
    | CodeLengths(sizes: Sizes, clens: seq<nat>, got: seq<nat>)
    | Repeat(sizes: Sizes, clens: seq<nat>, got: seq<nat>, s: nat)
    | Symbol(last: bool, trees: Trees)
    | LengthExtra(last: bool, trees: Trees, i: nat)
    | Distance(last: bool, trees: Trees, length: nat)
    | DistanceExtra(last: bool, trees: Trees, length: nat, d: nat)
    | Move(last: bool, trees: Trees, length: nat, distance: nat)

  datatype Verdict =
    | Done(rest: seq<bool>)
    | BadBlock
    | BadStoredLength
    | BadLiteralCount
    | BadDistanceCount
    | BadRepetition
    | BadLengthCount
    | MissingEndOfBlock
    | BadTrees
    | BadCode
    | BadDistance
    | Incomplete

  datatype Config = Config(stage: Stage, out: seq<Byte>, bits: seq<bool>)

  datatype Step = Go(next: Config) | Stop(verdict: Verdict) | Wait

  // ---------------- The tables of section 3.2.5 of RFC 1951

  const LENGTH_BASE: seq<nat> := [
    3, 4, 5, 6, 7, 8, 9, 10, 11, 13, 15, 17, 19, 23, 27, 31, 35, 43, 51, 59, 67, 83, 99, 115, 131, 163, 195, 227, 258]
  const LENGTH_EXTRA: seq<nat> := [
    0, 0, 0, 0, 0, 0, 0, 0, 1, 1, 1, 1, 2, 2, 2, 2, 3, 3, 3, 3, 4, 4, 4, 4, 5, 5, 5, 5, 0]
  const DISTANCE_BASE: seq<nat> := [
    1, 2, 3, 4, 5, 7, 9, 13, 17, 25, 33, 49, 65, 97, 129, 193, 257, 385, 513, 769, 1025, 1537, 2049, 3073, 4097, 6145,
    8193, 12289, 16385, 24577]
  const DISTANCE_EXTRA: seq<nat> := [
    0, 0, 0, 0, 1, 1, 2, 2, 3, 3, 4, 4, 5, 5, 6, 6, 7, 7, 8, 8, 9, 9, 10, 10, 11, 11, 12, 12, 13, 13]

  function LengthBase(i: nat): nat requires i < 29 { LENGTH_BASE[i] }
  function ExtraLengthBits(i: nat): nat requires i < 29 { LENGTH_EXTRA[i] }
  function DistanceBase(d: nat): nat requires d < 30 { DISTANCE_BASE[d] }
  function ExtraDistanceBits(d: nat): nat requires d < 30 { DISTANCE_EXTRA[d] }

  // ---------------- The codes of sections 3.2.6 and 3.2.7 of RFC 1951

  function FixedTrees(): Trees
  {
    Trees(seq(288, i => if i < 144 then 8 else if i < 256 then 9 else if i < 280 then 7 else 8), seq(32, _ => 5))
  }

  const CODE_ORDER: seq<nat> := [16, 17, 18, 0, 8, 7, 9, 6, 10, 5, 11, 4, 12, 3, 13, 2, 14, 1, 15]

  /** The code lengths for the code length alphabet, from the order they are transmitted in. */
  function Ordered(got: seq<nat>): (r: seq<nat>)
    requires |got| <= 19
    ensures |r| == 19
  {
    if got == [] then seq(19, _ => 0)
    else Ordered(got[..|got| - 1])[CODE_ORDER[|got| - 1] := got[|got| - 1]]
  }

  function RepeatBase(s: nat): nat { if s == 18 then 11 else 3 }
  function RepeatExtra(s: nat): nat { if s == 16 then 2 else if s == 17 then 3 else 7 }

  predicate TreesOk(t: Trees) { Lengths(t.lit) && Lengths(t.dist) }

  predicate StageOk(stage: Stage)
  {
    match stage
    case ClenLengths(sizes, nClen, got) => nClen <= 19 && |got| <= nClen && 257 <= sizes.nLit
    case CodeLengths(sizes, clens, got) =>
      |clens| == 19 && Lengths(clens) && |got| <= sizes.nLit + sizes.nDist && 257 <= sizes.nLit
    case Repeat(sizes, clens, got, s) =>
      && |clens| == 19 && Lengths(clens) && |got| <= sizes.nLit + sizes.nDist && 257 <= sizes.nLit
      && 16 <= s <= 18 && (s == 16 ==> got != [])
    case Symbol(_, t) => TreesOk(t)
    case LengthExtra(_, t, i) => i < 29 && TreesOk(t)
    case Distance(_, t, _) => TreesOk(t)
    case DistanceExtra(_, t, _, d) => d < 30 && TreesOk(t)
    case Move(_, t, _, _) => TreesOk(t)
    case _ => true
  }

  // ---------------- One step

  /** Steps that use no bits come in this order. */
  function StageRank(stage: Stage): nat
  {
    match stage
    case ClenLengths(_, _, _) => 6
    case CodeLengths(_, _, _) => 5
    case LengthExtra(_, _, _) => 4
    case Distance(_, _, _) => 3
    case DistanceExtra(_, _, _, _) => 2
    case Move(_, _, _, _) => 1
    case Stored(_, _) => 1
    case _ => 0
  }

  function Size(stage: Stage): nat
  {
    match stage
    case Move(_, _, length, _) => length
    case _ => 0
  }

  /** n comes after c. */
  predicate Later(n: Config, c: Config)
  {
    && StageOk(n.stage)
    && (|| |n.bits| < |c.bits|
        || (|n.bits| == |c.bits| && StageRank(n.stage) < StageRank(c.stage))
        || (|n.bits| == |c.bits| && StageRank(n.stage) == StageRank(c.stage) && Size(n.stage) < Size(c.stage)))
  }

  /** The steps at each kind of stage. */
  ghost function AtHeader(out: seq<Byte>, bits: seq<bool>): (r: Step)
    ensures r.Go? ==> Later(r.next, Config(Header, out, bits))
  {
    if |bits| < 3 then Wait
    else
      var kind, rest := ToNat(bits[1..3]), bits[3..];
      if kind == 0 then Go(Config(StoredHeader(bits[0]), out, rest[|rest| % 8..]))
      else if kind == 1 then Go(Config(Symbol(bits[0], FixedTrees()), out, rest))
      else if kind == 2 then Go(Config(CodeCounts(bits[0]), out, rest))
      else Stop(BadBlock)
  }

  ghost function AfterBlock(last: bool, out: seq<Byte>, rest: seq<bool>): Step
  {
    if last then Stop(Done(rest)) else Go(Config(Header, out, rest))
  }

  ghost function AtStoredHeader(last: bool, out: seq<Byte>, bits: seq<bool>): (r: Step)
    ensures r.Go? ==> Later(r.next, Config(StoredHeader(last), out, bits))
  {
    if |bits| < 32 then Wait
    else if ToNat(bits[..16]) + ToNat(bits[16..32]) != 65535 then Stop(BadStoredLength)
    else Go(Config(Stored(last, ToNat(bits[..16])), out, bits[32..]))
  }

  ghost function AtStored(last: bool, n: nat, out: seq<Byte>, bits: seq<bool>): (r: Step)
    ensures r.Go? ==> Later(r.next, Config(Stored(last, n), out, bits))
  {
    if n == 0 then AfterBlock(last, out, bits)
    else if |bits| < 8 then Wait
    else Go(Config(Stored(last, n - 1), out + [ByteOf(bits[..8])], bits[8..]))
  }

  function ByteOf(bits: seq<bool>): Byte
    requires |bits| == 8
  {
    ToNatBound(bits);
    Pow2Values();
    ToNat(bits)
  }

  ghost function AtCodeCounts(last: bool, out: seq<Byte>, bits: seq<bool>): (r: Step)
    ensures r.Go? ==> Later(r.next, Config(CodeCounts(last), out, bits))
  {
    if |bits| < 14 then Wait
    else
      ToNatBound(bits[10..14]);
      Pow2Values();
      var nLit, nDist, nClen := ToNat(bits[..5]) + 257, ToNat(bits[5..10]) + 1, ToNat(bits[10..14]) + 4;
      if nLit > 286 then Stop(BadLiteralCount)
      else if nDist > 30 then Stop(BadDistanceCount)
      else Go(Config(ClenLengths(Sizes(last, nLit, nDist), nClen, []), out, bits[14..]))
  }

  ghost function AtClenLengths(sizes: Sizes, nClen: nat, got: seq<nat>, out: seq<Byte>, bits: seq<bool>): (r: Step)
    requires StageOk(ClenLengths(sizes, nClen, got))
    ensures r.Go? ==> Later(r.next, Config(ClenLengths(sizes, nClen, got), out, bits))
  {
    if |got| < nClen then
      if |bits| < 3 then Wait
      else Go(Config(ClenLengths(sizes, nClen, got + [ToNat(bits[..3])]), out, bits[3..]))
    else if !Complete(Ordered(got)) then Stop(BadTrees)
    else Go(Config(CodeLengths(sizes, Ordered(got), []), out, bits))
  }

  ghost function AtCodeLengths(sizes: Sizes, clens: seq<nat>, got: seq<nat>, out: seq<Byte>, bits: seq<bool>): (r: Step)
    requires StageOk(CodeLengths(sizes, clens, got))
    ensures r.Go? ==> Later(r.next, Config(CodeLengths(sizes, clens, got), out, bits))
  {
    if |got| == sizes.nLit + sizes.nDist then
      if got[256] == 0 then Stop(MissingEndOfBlock)
      else if !Complete(got[..sizes.nLit]) || !Complete(got[sizes.nLit..]) then Stop(BadTrees)
      else Go(Config(Symbol(sizes.last, Trees(got[..sizes.nLit], got[sizes.nLit..])), out, bits))
    else
      match Next(clens, bits)
      case None => Wait
      case Some(s) =>
        var rest := bits[clens[s]..];
        if s < 16 then Go(Config(CodeLengths(sizes, clens, got + [s]), out, rest))
        else if s == 16 && got == [] then Stop(BadRepetition)
        else Go(Config(Repeat(sizes, clens, got, s), out, rest))
  }

  ghost function AtRepeat(sizes: Sizes, clens: seq<nat>, got: seq<nat>, s: nat, out: seq<Byte>, bits: seq<bool>): (r: Step)
    requires StageOk(Repeat(sizes, clens, got, s))
    ensures r.Go? ==> Later(r.next, Config(Repeat(sizes, clens, got, s), out, bits))
  {
    var n := RepeatExtra(s);
    if |bits| < n then Wait
    else
      var count := RepeatBase(s) + ToNat(bits[..n]);
      var what := if s == 16 then got[|got| - 1] else 0;
      if |got| + count > sizes.nLit + sizes.nDist then Stop(BadLengthCount)
      else Go(Config(CodeLengths(sizes, clens, got + seq(count, _ => what)), out, bits[n..]))
  }

  ghost function AtSymbol(last: bool, trees: Trees, out: seq<Byte>, bits: seq<bool>): (r: Step)
    requires StageOk(Symbol(last, trees))
    ensures r.Go? ==> Later(r.next, Config(Symbol(last, trees), out, bits))
  {
    match Next(trees.lit, bits)
    case None => Wait
    case Some(s) =>
      var rest := bits[trees.lit[s]..];
      if s < 256 then Go(Config(Symbol(last, trees), out + [s], rest))
      else if s == 256 then AfterBlock(last, out, rest)
      else if s < 286 then Go(Config(LengthExtra(last, trees, s - 257), out, rest))
      else Stop(BadCode)
  }

  ghost function AtLengthExtra(last: bool, trees: Trees, i: nat, out: seq<Byte>, bits: seq<bool>): (r: Step)
    requires StageOk(LengthExtra(last, trees, i))
    ensures r.Go? ==> Later(r.next, Config(LengthExtra(last, trees, i), out, bits))
  {
    var n := ExtraLengthBits(i);
    if |bits| < n then Wait
    else Go(Config(Distance(last, trees, LengthBase(i) + ToNat(bits[..n])), out, bits[n..]))
  }

  ghost function AtDistance(last: bool, trees: Trees, length: nat, out: seq<Byte>, bits: seq<bool>): (r: Step)
    requires StageOk(Distance(last, trees, length))
    ensures r.Go? ==> Later(r.next, Config(Distance(last, trees, length), out, bits))
  {
    match Next(trees.dist, bits)
    case None => Wait
    case Some(d) =>
      if d < 30 then Go(Config(DistanceExtra(last, trees, length, d), out, bits[trees.dist[d]..]))
      else Stop(BadCode)
  }

  ghost function AtDistanceExtra(last: bool, trees: Trees, length: nat, d: nat, out: seq<Byte>, bits: seq<bool>): (r: Step)
    requires StageOk(DistanceExtra(last, trees, length, d))
    ensures r.Go? ==> Later(r.next, Config(DistanceExtra(last, trees, length, d), out, bits))
  {
    var n := ExtraDistanceBits(d);
    if |bits| < n then Wait
    else Go(Config(Move(last, trees, length, DistanceBase(d) + ToNat(bits[..n])), out, bits[n..]))
  }

  /** Each byte of a copy is the one `distance` before it; the copy may overlap itself. */
  ghost function AtMove(last: bool, trees: Trees, length: nat, distance: nat, out: seq<Byte>, bits: seq<bool>): (r: Step)
    requires StageOk(Move(last, trees, length, distance))
    ensures r.Go? ==> Later(r.next, Config(Move(last, trees, length, distance), out, bits))
  {
    if length == 0 then Go(Config(Symbol(last, trees), out, bits))
    else if !(0 < distance <= |out|) then Stop(BadDistance)
    else Go(Config(Move(last, trees, length - 1, distance), out + [out[|out| - distance]], bits))
  }

  ghost function Advance(c: Config): Step
    requires StageOk(c.stage)
  {
    match c.stage
    case Header => AtHeader(c.out, c.bits)
    case StoredHeader(last) => AtStoredHeader(last, c.out, c.bits)
    case Stored(last, n) => AtStored(last, n, c.out, c.bits)
    case CodeCounts(last) => AtCodeCounts(last, c.out, c.bits)
    case ClenLengths(sizes, nClen, got) => AtClenLengths(sizes, nClen, got, c.out, c.bits)
    case CodeLengths(sizes, clens, got) => AtCodeLengths(sizes, clens, got, c.out, c.bits)
    case Repeat(sizes, clens, got, s) => AtRepeat(sizes, clens, got, s, c.out, c.bits)
    case Symbol(last, trees) => AtSymbol(last, trees, c.out, c.bits)
    case LengthExtra(last, trees, i) => AtLengthExtra(last, trees, i, c.out, c.bits)
    case Distance(last, trees, length) => AtDistance(last, trees, length, c.out, c.bits)
    case DistanceExtra(last, trees, length, d) => AtDistanceExtra(last, trees, length, d, c.out, c.bits)
    case Move(last, trees, length, distance) => AtMove(last, trees, length, distance, c.out, c.bits)
  }

  // ---------------- Whole runs

  datatype Outcome = Outcome(out: seq<Byte>, verdict: Verdict)

  /** What the format says the bits decode to. */
  ghost function Run(c: Config): Outcome
    requires StageOk(c.stage)
    decreases |c.bits|, StageRank(c.stage), Size(c.stage)
  {
    match Advance(c)
    case Go(n) => Run(n)
    case Stop(v) => Outcome(c.out, v)
    case Wait => Outcome(c.out, Incomplete)
  }

  // ---------------- More input

  lemma NextIs(lens: seq<nat>, s: nat, bits: seq<bool>)
    requires Lengths(lens) && Starts(lens, s, bits)
    ensures Next(lens, bits) == Some(s)
  {
    PrefixFree(lens, s, Next(lens, bits).value, ToNat(bits));
  }

  /** A code that is there stays there when more bits follow, and the bits beyond it do not matter. */
  lemma StartsMore(lens: seq<nat>, s: nat, bits: seq<bool>, more: seq<bool>)
    requires Coded(lens, s) && lens[s] <= |bits|
    ensures Starts(lens, s, bits) <==> Starts(lens, s, bits + more)
  {
    var l := lens[s];
    ToNatSplit(bits, l);
    ToNatSplit(bits + more, l);
    assert (bits + more)[..l] == bits[..l];
    ReadMsbLow(ToNat(bits), l, l);
    ReadMsbLow(ToNat(bits + more), l, l);
  }

  lemma NextMore(lens: seq<nat>, bits: seq<bool>, more: seq<bool>)
    requires Lengths(lens) && Next(lens, bits).Some?
    ensures Next(lens, bits + more) == Next(lens, bits)
  {
    var s := Next(lens, bits).value;
    StartsMore(lens, s, bits, more);
    NextIs(lens, s, bits + more);
  }

  function Extend(step: Step, more: seq<bool>): Step
  {
    match step
    case Go(n) => Go(n.(bits := n.bits + more))
    case Stop(Done(rest)) => Stop(Done(rest + more))
    case _ => step
  }

  lemma SliceMore(bits: seq<bool>, more: seq<bool>, i: nat, j: nat)
    requires i <= j <= |bits|
    ensures (bits + more)[i..j] == bits[i..j]
    ensures (bits + more)[j..] == bits[j..] + more
  {
  }

  lemma HeaderMore(out: seq<Byte>, bits: seq<bool>, more: seq<bool>)
    requires !AtHeader(out, bits).Wait? && |more| % 8 == 0
    ensures AtHeader(out, bits + more) == Extend(AtHeader(out, bits), more)
  {
    hide ToNat, FixedTrees;
    SliceMore(bits, more, 1, 3);
    var rest := bits[3..];
    assert |rest + more| % 8 == |rest| % 8;
    SliceMore(rest, more, 0, |rest| % 8);
  }

  lemma StoredHeaderMore(last: bool, out: seq<Byte>, bits: seq<bool>, more: seq<bool>)
    requires !AtStoredHeader(last, out, bits).Wait?
    ensures AtStoredHeader(last, out, bits + more) == Extend(AtStoredHeader(last, out, bits), more)
  {
    hide ToNat;
    SliceMore(bits, more, 0, 16);
    SliceMore(bits, more, 16, 32);
  }

  lemma StoredMore(last: bool, n: nat, out: seq<Byte>, bits: seq<bool>, more: seq<bool>)
    requires !AtStored(last, n, out, bits).Wait?
    ensures AtStored(last, n, out, bits + more) == Extend(AtStored(last, n, out, bits), more)
  {
    hide ToNat, ByteOf;
    if n > 0 {
      SliceMore(bits, more, 0, 8);
    }
  }

  lemma CodeCountsMore(last: bool, out: seq<Byte>, bits: seq<bool>, more: seq<bool>)
    requires !AtCodeCounts(last, out, bits).Wait?
    ensures AtCodeCounts(last, out, bits + more) == Extend(AtCodeCounts(last, out, bits), more)
  {
    hide ToNat;
    SliceMore(bits, more, 0, 5);
    SliceMore(bits, more, 5, 10);
    SliceMore(bits, more, 10, 14);
  }

  lemma ClenLengthsMore(sizes: Sizes, nClen: nat, got: seq<nat>, out: seq<Byte>, bits: seq<bool>, more: seq<bool>)
    requires StageOk(ClenLengths(sizes, nClen, got)) && !AtClenLengths(sizes, nClen, got, out, bits).Wait?
    ensures AtClenLengths(sizes, nClen, got, out, bits + more) == Extend(AtClenLengths(sizes, nClen, got, out, bits), more)
  {
    hide ToNat, Complete, Ordered;
    if |got| < nClen {
      SliceMore(bits, more, 0, 3);
    }
  }

  lemma CodeLengthsMore(sizes: Sizes, clens: seq<nat>, got: seq<nat>, out: seq<Byte>, bits: seq<bool>, more: seq<bool>)
    requires StageOk(CodeLengths(sizes, clens, got)) && !AtCodeLengths(sizes, clens, got, out, bits).Wait?
    ensures AtCodeLengths(sizes, clens, got, out, bits + more) == Extend(AtCodeLengths(sizes, clens, got, out, bits), more)
  {
    hide Complete, Matches;
    if |got| < sizes.nLit + sizes.nDist {
      NextMore(clens, bits, more);
      var s := Next(clens, bits).value;
      SliceMore(bits, more, 0, clens[s]);
    }
  }

  lemma RepeatMore(sizes: Sizes, clens: seq<nat>, got: seq<nat>, s: nat, out: seq<Byte>, bits: seq<bool>, more: seq<bool>)
    requires StageOk(Repeat(sizes, clens, got, s)) && !AtRepeat(sizes, clens, got, s, out, bits).Wait?
    ensures AtRepeat(sizes, clens, got, s, out, bits + more) == Extend(AtRepeat(sizes, clens, got, s, out, bits), more)
  {
    hide ToNat;
    SliceMore(bits, more, 0, RepeatExtra(s));
  }

  lemma SymbolMore(last: bool, trees: Trees, out: seq<Byte>, bits: seq<bool>, more: seq<bool>)
    requires TreesOk(trees) && !AtSymbol(last, trees, out, bits).Wait?
    ensures AtSymbol(last, trees, out, bits + more) == Extend(AtSymbol(last, trees, out, bits), more)
  {
    hide ReadMsb, Code;
    NextMore(trees.lit, bits, more);
    var s := Next(trees.lit, bits).value;
    SliceMore(bits, more, 0, trees.lit[s]);
  }

  lemma LengthExtraMore(last: bool, trees: Trees, i: nat, out: seq<Byte>, bits: seq<bool>, more: seq<bool>)
    requires i < 29 && TreesOk(trees) && !AtLengthExtra(last, trees, i, out, bits).Wait?
    ensures AtLengthExtra(last, trees, i, out, bits + more) == Extend(AtLengthExtra(last, trees, i, out, bits), more)
  {
    hide ToNat;
    SliceMore(bits, more, 0, ExtraLengthBits(i));
  }

  lemma DistanceMore(last: bool, trees: Trees, length: nat, out: seq<Byte>, bits: seq<bool>, more: seq<bool>)
    requires TreesOk(trees) && !AtDistance(last, trees, length, out, bits).Wait?
    ensures AtDistance(last, trees, length, out, bits + more) == Extend(AtDistance(last, trees, length, out, bits), more)
  {
    hide ReadMsb, Code;
    NextMore(trees.dist, bits, more);
    var d := Next(trees.dist, bits).value;
    SliceMore(bits, more, 0, trees.dist[d]);
  }

  lemma DistanceExtraMore(last: bool, trees: Trees, length: nat, d: nat, out: seq<Byte>, bits: seq<bool>, more: seq<bool>)
    requires d < 30 && TreesOk(trees) && !AtDistanceExtra(last, trees, length, d, out, bits).Wait?
    ensures AtDistanceExtra(last, trees, length, d, out, bits + more)
         == Extend(AtDistanceExtra(last, trees, length, d, out, bits), more)
  {
    hide ToNat;
    SliceMore(bits, more, 0, ExtraDistanceBits(d));
  }

  /** A step that can be taken is not affected by the bytes that follow. */
  lemma AdvanceMore(c: Config, more: seq<bool>)
    requires StageOk(c.stage) && !Advance(c).Wait? && |more| % 8 == 0
    ensures Advance(c.(bits := c.bits + more)) == Extend(Advance(c), more)
  {
    hide AtHeader, AtStoredHeader, AtStored, AtCodeCounts, AtClenLengths, AtCodeLengths, AtRepeat, AtSymbol,
      AtLengthExtra, AtDistance, AtDistanceExtra;
    match c.stage
    case Header => HeaderMore(c.out, c.bits, more);
    case StoredHeader(last) => StoredHeaderMore(last, c.out, c.bits, more);
    case Stored(last, n) => StoredMore(last, n, c.out, c.bits, more);
    case CodeCounts(last) => CodeCountsMore(last, c.out, c.bits, more);
    case ClenLengths(sizes, nClen, got) => ClenLengthsMore(sizes, nClen, got, c.out, c.bits, more);
    case CodeLengths(sizes, clens, got) => CodeLengthsMore(sizes, clens, got, c.out, c.bits, more);
    case Repeat(sizes, clens, got, s) => RepeatMore(sizes, clens, got, s, c.out, c.bits, more);
    case Symbol(last, trees) => SymbolMore(last, trees, c.out, c.bits, more);
    case LengthExtra(last, trees, i) => LengthExtraMore(last, trees, i, c.out, c.bits, more);
    case Distance(last, trees, length) => DistanceMore(last, trees, length, c.out, c.bits, more);
    case DistanceExtra(last, trees, length, d) => DistanceExtraMore(last, trees, length, d, c.out, c.bits, more);
    case Move(last, trees, length, distance) =>
  }

  // ---------------- Decoding piece by piece

  function Feed(c: Config, src: seq<Byte>): Config { c.(bits := c.bits + Stream(src)) }

  /** However the input goes on, c0 and c1 decode it to the same outcome. */
  ghost predicate Leads(c0: Config, c1: Config)
  {
    && StageOk(c0.stage) && StageOk(c1.stage)
    && forall more: seq<Byte> :: Run(Feed(c0, more)) == Run(Feed(c1, more))
  }

  lemma LeadsByStep(c0: Config, c: Config)
    requires Leads(c0, c) && Advance(c).Go?
    ensures Leads(c0, Advance(c).next)
  {
    var n := Advance(c).next;
    forall more: seq<Byte> ensures Run(Feed(c0, more)) == Run(Feed(n, more)) {
      hide Advance, Run;
      RunOneStep(c, more);
      assert Run(Feed(c0, more)) == Run(Feed(c, more));
    }
  }

  lemma RunOneStep(c: Config, more: seq<Byte>)
    requires StageOk(c.stage) && Advance(c).Go?
    ensures StageOk(Advance(c).next.stage)
    ensures Run(Feed(c, more)) == Run(Feed(Advance(c).next, more))
  {
    AdvanceMore(c, Stream(more));
    NextStageOk(c);
    hide Advance;
  }

  lemma NextStageOk(c: Config)
    requires StageOk(c.stage) && Advance(c).Go?
    ensures StageOk(Advance(c).next.stage)
  {
  }

  lemma LeadsTransitive(c0: Config, c1: Config, c2: Config)
    requires Leads(c0, c1) && Leads(c1, c2)
    ensures Leads(c0, c2)
  {
    hide Run;
  }

  lemma FeedTwice(c: Config, a: seq<Byte>, b: seq<Byte>)
    ensures Feed(Feed(c, a), b) == Feed(c, a + b)
  {
    hide Stream;
    StreamAppend(a, b);
    Associates(c.bits, Stream(a), Stream(b));
  }

  /** Reading a byte of the input is not a step. */
  lemma FeedByte(c: Config, src: seq<Byte>)
    requires src != []
    ensures Feed(c, src) == Feed(c.(bits := c.bits + BitsOf(src[0], 8)), src[1..])
  {
    hide BitsOf;
    var first := [src[0]];
    assert Stream(first) == BitsOf(src[0], 8) by {
      assert first[..0] == [] && Stream([]) == [];
      assert Stream(first) == Stream(first[..0]) + BitsOf(src[0], 8);
    }
    FeedTwice(c, first, src[1..]);
    assert first + src[1..] == src;
  }

  lemma LeadsFed(c0: Config, c1: Config, src: seq<Byte>)
    requires Leads(c0, c1)
    ensures Leads(Feed(c0, src), Feed(c1, src))
  {
    forall more: seq<Byte> ensures Run(Feed(Feed(c0, src), more)) == Run(Feed(Feed(c1, src), more)) {
      hide Run, Feed;
      FeedTwice(c0, src, more);
      FeedTwice(c1, src, more);
    }
  }

  /** Where the machine stops, everything has been decoded. */
  lemma LeadsToStop(c0: Config, c: Config)
    requires Leads(c0, c) && !Advance(c).Go?
    ensures Run(c0) == Outcome(c.out, if Advance(c).Stop? then Advance(c).verdict else Incomplete)
  {
    assert Feed(c0, []) == c0 && Feed(c, []) == c by {
      assert c0.bits + Stream([]) == c0.bits && c.bits + Stream([]) == c.bits;
    }
    assert Run(Feed(c0, [])) == Run(Feed(c, []));
  }
}
