/** What script/make-deflate.go writes is what the format and the decoder read back: every stored
    block and every list of literals and copies in the fixed Huffman codes. */
module RoundTrip {
  import opened Options
  import opened Bits
  import opened Words
  import opened BitStream
  import opened Codes
  import opened Entries
  import opened HuffTable
  import opened Inflate
  import opened Writers
  import opened BackRefs
  import opened HuffSlow
  import opened FixedCodes
  import opened FixedValues
  import opened Encoder
  import opened Deflate
  import opened Sessions

  // ---------------- What is written

  /** A line of a fixed Huffman block. */
  datatype Token = Lit(b: Byte) | Copy(length: nat, distance: nat) | EndOfBlock

  /** The lengths and distances for which the encoder does not panic. */
  predicate TokenOk(t: Token) { t.Copy? ==> 3 <= t.length <= 258 && 1 <= t.distance <= 32768 }

  function LitBits(s: nat): seq<bool>
    requires s < 288
  {
    CodeBits(FixedTrees().lit, s)
  }

  function DistBits(d: nat): seq<bool>
    requires d < 32
  {
    CodeBits(FixedTrees().dist, d)
  }

  function TokenBits(t: Token): seq<bool>
    requires TokenOk(t)
  {
    match t
    case EndOfBlock => LitBits(256)
    case Lit(b) => LitBits(b)
    case Copy(length, distance) =>
      LengthSaid(length);
      DistanceSaid(distance);
      var l, d := EncodeLength(length).value, EncodeDistance(distance).value;
      LitBits(l.code) + (BitsOf(l.extra, l.nExtra) + (DistBits(d.code) + BitsOf(d.extra, d.nExtra)))
  }

  // ---------------- Reading back

  lemma RunStep(c: Config)
    requires StageOk(c.stage) && Advance(c).Go?
    ensures StageOk(Advance(c).next.stage) && Run(c) == Run(Advance(c).next)
  {
    NextStageOk(c);
    hide Advance;
  }

  /** The bits of a code are read as that code, whatever follows. */
  lemma CodeStarts(lens: seq<nat>, s: nat, more: seq<bool>)
    requires Complete(lens) && Codes.Coded(lens, s)
    ensures Next(lens, CodeBits(lens, s) + more) == Some(s)
    ensures (CodeBits(lens, s) + more)[lens[s]..] == more
  {
    hide ToNat, BitsOf, ReadMsb, Code, Low;
    var l, code := lens[s], Code(lens, s);
    var r := ReadMsb(code, l);
    var bits := CodeBits(lens, s) + more;
    assert bits[..l] == BitsOf(r, l) && bits[l..] == more;
    ToNatSplit(bits, l);
    ToNatBitsOf(r, l);
    ReadMsbBound(code, l);
    LowSmall(r, l);
    ReadMsbLow(ToNat(bits), l, l);
    ReadMsbTwice(code, l);
    CodeFits(lens, s);
    LowSmall(code, l);
    NextIs(lens, s, bits);
  }

  lemma FixedComplete()
    ensures Complete(FixedTrees().lit) && Complete(FixedTrees().dist)
  {
    FixedTreesOk();
  }

  lemma SymbolRead(last: bool, s: nat, out: seq<Byte>, more: seq<bool>)
    requires s < 286
    ensures var c := Config(Symbol(last, FixedTrees()), out, LitBits(s) + more);
            && Advance(c) == (if s < 256 then Go(Config(Symbol(last, FixedTrees()), out + [s], more))
                              else if s == 256 then AfterBlock(last, out, more)
                              else Go(Config(LengthExtra(last, FixedTrees(), s - 257), out, more)))
  {
    FixedComplete();
    var lens := FixedTrees().lit;
    hide FixedTrees, KraftSum;
    CodeStarts(lens, s, more);
  }

  lemma DistanceRead(last: bool, length: nat, d: nat, out: seq<Byte>, more: seq<bool>)
    requires d < 30
    ensures var c := Config(Distance(last, FixedTrees(), length), out, DistBits(d) + more);
            Advance(c) == Go(Config(DistanceExtra(last, FixedTrees(), length, d), out, more))
  {
    FixedComplete();
    var lens := FixedTrees().dist;
    hide FixedTrees, KraftSum;
    CodeStarts(lens, d, more);
  }

  /** Extra bits are read as the number they were written from. */
  lemma ExtraRead(x: nat, n: nat, more: seq<bool>)
    requires x < Pow2(n)
    ensures var bits := BitsOf(x, n) + more; ToNat(bits[..n]) == x && bits[n..] == more
  {
    hide ToNat, BitsOf, Low;
    var bits := BitsOf(x, n) + more;
    assert bits[..n] == BitsOf(x, n);
    ToNatBitsOf(x, n);
    LowSmall(x, n);
  }

  lemma LengthRead(last: bool, l: Encoder.Coded, length: nat, out: seq<Byte>, more: seq<bool>)
    requires SaysLength(l, length) && TreesOk(FixedTrees())
    ensures var c := Config(Symbol(last, FixedTrees()), out, LitBits(l.code) + (BitsOf(l.extra, l.nExtra) + more));
            Run(c) == Run(Config(Distance(last, FixedTrees(), length), out, more))
  {
    hide Run, BitsOf, ToNat, FixedTrees, LengthBase, ExtraLengthBits, Advance, LitBits;
    var rest := BitsOf(l.extra, l.nExtra) + more;
    SymbolRead(last, l.code, out, rest);
    RunStep(Config(Symbol(last, FixedTrees()), out, LitBits(l.code) + rest));
    var c := Config(LengthExtra(last, FixedTrees(), l.code - 257), out, rest);
    ExtraRead(l.extra, l.nExtra, more);
    LengthAdds(c, l, length, more);
    RunStep(c);
  }

  lemma LengthAdds(c: Config, l: Encoder.Coded, length: nat, more: seq<bool>)
    requires SaysLength(l, length) && c.stage.LengthExtra? && c.stage.i == l.code - 257 && StageOk(c.stage)
    requires |c.bits| >= l.nExtra && ToNat(c.bits[..l.nExtra]) == l.extra && c.bits[l.nExtra..] == more
    ensures Advance(c) == Go(Config(Distance(c.stage.last, c.stage.trees, length), c.out, more))
  {
    hide LengthBase, ExtraLengthBits, ToNat;
  }

  lemma FullDistanceRead(last: bool, length: nat, d: Encoder.Coded, distance: nat, out: seq<Byte>, more: seq<bool>)
    requires SaysDistance(d, distance) && TreesOk(FixedTrees())
    ensures var c := Config(Distance(last, FixedTrees(), length), out, DistBits(d.code) + (BitsOf(d.extra, d.nExtra) + more));
            Run(c) == Run(Config(Move(last, FixedTrees(), length, distance), out, more))
  {
    hide Run, BitsOf, ToNat, FixedTrees, DistanceBase, ExtraDistanceBits, Advance, DistBits;
    var rest := BitsOf(d.extra, d.nExtra) + more;
    DistanceRead(last, length, d.code, out, rest);
    RunStep(Config(Distance(last, FixedTrees(), length), out, DistBits(d.code) + rest));
    var c := Config(DistanceExtra(last, FixedTrees(), length, d.code), out, rest);
    ExtraRead(d.extra, d.nExtra, more);
    DistanceAdds(c, d, distance, more);
    RunStep(c);
  }

  lemma DistanceAdds(c: Config, d: Encoder.Coded, distance: nat, more: seq<bool>)
    requires SaysDistance(d, distance) && c.stage.DistanceExtra? && c.stage.d == d.code && StageOk(c.stage)
    requires |c.bits| >= d.nExtra && ToNat(c.bits[..d.nExtra]) == d.extra && c.bits[d.nExtra..] == more
    ensures Advance(c) == Go(Config(Move(c.stage.last, c.stage.trees, c.stage.length, distance), c.out, more))
  {
    hide DistanceBase, ExtraDistanceBits, ToNat;
  }

  /** The copy. */
  lemma {:induction false} MoveRuns(last: bool, t: Trees, length: nat, distance: nat, out: seq<Byte>, more: seq<bool>)
    requires TreesOk(t)
    ensures var c := Config(Move(last, t, length, distance), out, more);
            if length > 0 && !(0 < distance <= |out|) then Run(c) == Inflate.Outcome(out, Verdict.BadDistance)
            else Run(c) == Run(Config(Symbol(last, t), Expanded(out, distance, length), more))
  {
    hide Run, Copied;
    var c := Config(Move(last, t, length, distance), out, more);
    if length == 0 {
      NoneExpanded(out, distance);
      RunStep(c);
    } else if 0 < distance <= |out| {
      assert Copied(out, distance, 1) == out + [out[|out| - distance]] by { OneCopied(out, distance); }
      RunStep(c);
      MoveRuns(last, t, length - 1, distance, out + [out[|out| - distance]], more);
      ExpandedTwice(out, distance, 1, length - 1);
    } else {
      RunStops(c);
    }
  }

  lemma OneCopied(out: seq<Byte>, distance: nat)
    requires 0 < distance <= |out|
    ensures Copied(out, distance, 1) == out + [out[|out| - distance]]
  {
    assert Copied(out, distance, 0) == out;
  }

  lemma RunStops(c: Config)
    requires StageOk(c.stage) && Advance(c).Stop?
    ensures Run(c) == Inflate.Outcome(c.out, Advance(c).verdict)
  {
    hide Advance;
  }

  // ---------------- Tokens

  /** A line that adds to the output. */
  predicate Writes(t: Token) { TokenOk(t) && !t.EndOfBlock? }

  /** The output after a token, or None if it reaches back before the first byte. */
  function Apply(t: Token, out: seq<Byte>): Option<seq<Byte>>
    requires Writes(t)
  {
    match t
    case Lit(b) => Some(out + [b])
    case Copy(length, distance) => if distance <= |out| then Some(Copied(out, distance, length)) else None
  }

  /** What the format makes of the bits inside a block with the fixed codes. */
  ghost function FromSymbol(last: bool, out: seq<Byte>, bits: seq<bool>): Inflate.Outcome
    requires TreesOk(FixedTrees())
  {
    Run(Config(Symbol(last, FixedTrees()), out, bits))
  }

  lemma TokenRead(last: bool, t: Token, out: seq<Byte>, more: seq<bool>)
    requires Writes(t) && TreesOk(FixedTrees())
    ensures var r := FromSymbol(last, out, TokenBits(t) + more);
            match Apply(t, out)
            case Some(out') => r == FromSymbol(last, out', more)
            case None => r == Inflate.Outcome(out, Verdict.BadDistance)
  {
    hide Run, BitsOf, FixedTrees, Advance, LitBits, DistBits, EncodeLength, EncodeDistance, Copied, LengthBase,
      ExtraLengthBits, DistanceBase, ExtraDistanceBits;
    var c := Config(Symbol(last, FixedTrees()), out, TokenBits(t) + more);
    match t
    case Lit(b) =>
      SymbolRead(last, b, out, more);
      RunStep(c);
    case Copy(length, distance) =>
      LengthSaid(length);
      DistanceSaid(distance);
      var l, d := EncodeLength(length).value, EncodeDistance(distance).value;
      var rest := DistBits(d.code) + (BitsOf(d.extra, d.nExtra) + more);
      Regrouped(LitBits(l.code), BitsOf(l.extra, l.nExtra), DistBits(d.code), BitsOf(d.extra, d.nExtra), more);
      LengthRead(last, l, length, out, rest);
      FullDistanceRead(last, length, d, distance, out, more);
      MoveRuns(last, FixedTrees(), length, distance, out, more);
  }

  lemma Regrouped(a: seq<bool>, b: seq<bool>, c: seq<bool>, d: seq<bool>, e: seq<bool>)
    ensures (a + (b + (c + d))) + e == a + (b + (c + (d + e)))
  {
  }

  // ---------------- Blocks

  /** A block of a script, with all its lines. */
  datatype Block = StoredBlock(final: bool, data: seq<Byte>) | FixedBlock(final: bool, lines: seq<Token>)

  predicate LinesOk(b: Block) { b.FixedBlock? ==> forall i | 0 <= i < |b.lines| :: TokenOk(b.lines[i]) }

  predicate BlockOk(b: Block) { LinesOk(b) && (b.StoredBlock? ==> |b.data| <= 0xFFFF) }

  /** A fixed Huffman block ends with an end-of-block line, and has no other. */
  predicate Closed(b: Block)
  {
    b.FixedBlock? ==>
      b.lines != [] && forall i | 0 <= i < |b.lines| :: b.lines[i].EndOfBlock? <==> i == |b.lines| - 1
  }

  function LinesBits(lines: seq<Token>): seq<bool>
    requires forall i | 0 <= i < |lines| :: TokenOk(lines[i])
  {
    if lines == [] then [] else TokenBits(lines[0]) + LinesBits(lines[1..])
  }

  /** Lines that write, and the end of the block. */
  function TokensBits(tokens: seq<Token>): seq<bool>
    requires forall i | 0 <= i < |tokens| :: Writes(tokens[i])
  {
    if tokens == [] then LitBits(256)
    else
      assert Writes(tokens[0]);
      TokenBits(tokens[0]) + TokensBits(tokens[1..])
  }

  lemma {:induction false} ClosedBits(lines: seq<Token>)
    requires (forall i | 0 <= i < |lines| :: TokenOk(lines[i])) && lines != []
    requires forall i | 0 <= i < |lines| :: lines[i].EndOfBlock? <==> i == |lines| - 1
    ensures LinesBits(lines) == TokensBits(lines[..|lines| - 1])
  {
    hide TokenBits, LitBits;
    if |lines| == 1 {
      assert lines[1..] == [] && TokenBits(Token.EndOfBlock) + [] == TokenBits(Token.EndOfBlock);
      EndLine();
    } else {
      ClosedBits(lines[1..]);
      assert lines[1..][..|lines| - 2] == lines[..|lines| - 1][1..];
    }
  }

  lemma EndLine()
    ensures TokenBits(Token.EndOfBlock) == LitBits(256)
  {
  }

  function HeaderBits(last: bool, kind: nat): seq<bool>
  {
    BitsOf(2 * kind + if last then 1 else 0, 3)
  }

  /** A block that starts after `pos` bits. */
  function BlockBits(b: Block, pos: nat): seq<bool>
    requires BlockOk(b)
  {
    match b
    case StoredBlock(final, data) =>
      HeaderBits(final, 0) + (Zeroes(Padding(pos + 3)) + (BitsOf(|data|, 16) + (BitsOf(0xFFFF - |data|, 16) + Stream(data))))
    case FixedBlock(final, lines) => HeaderBits(final, 1) + LinesBits(lines)
  }

  /** The output after a block. The second component says whether every copy was possible. */
  function ApplyTokens(tokens: seq<Token>, out: seq<Byte>): (seq<Byte>, bool)
    requires forall i | 0 <= i < |tokens| :: Writes(tokens[i])
    decreases |tokens|
  {
    if tokens == [] then (out, true)
    else match Apply(tokens[0], out)
         case Some(out') => ApplyTokens(tokens[1..], out')
         case None => (out, false)
  }

  function ApplyBlock(b: Block, out: seq<Byte>): (seq<Byte>, bool)
    requires BlockOk(b) && Closed(b)
  {
    match b
    case StoredBlock(_, data) => (out + data, true)
    case FixedBlock(_, lines) => ApplyTokens(lines[..|lines| - 1], out)
  }

  lemma {:induction false} TokensRead(last: bool, tokens: seq<Token>, out: seq<Byte>, more: seq<bool>)
    requires (forall i | 0 <= i < |tokens| :: Writes(tokens[i])) && TreesOk(FixedTrees())
    ensures var c := Config(Symbol(last, FixedTrees()), out, TokensBits(tokens) + more);
            var (out', ok) := ApplyTokens(tokens, out);
            Run(c) == if !ok then Inflate.Outcome(out', Verdict.BadDistance) else AfterRun(last, out', more)
    decreases |tokens|
  {
    hide Run, FixedTrees, Advance, LitBits, TokenBits, AfterRun, Apply;
    if tokens == [] {
      SymbolRead(last, 256, out, more);
      Ended(last, out, more, Config(Symbol(last, FixedTrees()), out, LitBits(256) + more));
    } else {
      var rest := TokensBits(tokens[1..]);
      Associates(TokenBits(tokens[0]), rest, more);
      TokenRead(last, tokens[0], out, rest + more);
      match Apply(tokens[0], out)
      case Some(out') => TokensRead(last, tokens[1..], out', more);
      case None =>
    }
  }

  /** What happens after a block. */
  ghost function AfterRun(last: bool, out: seq<Byte>, more: seq<bool>): Inflate.Outcome
  {
    if last then Inflate.Outcome(out, Done(more)) else Run(Config(Header, out, more))
  }

  lemma Ended(last: bool, out: seq<Byte>, more: seq<bool>, c: Config)
    requires StageOk(c.stage) && Advance(c) == AfterBlock(last, out, more) && c.out == out
    ensures Run(c) == AfterRun(last, out, more)
  {
    if last { RunStops(c); } else { RunStep(c); }
  }

  lemma HeaderRead(last: bool, kind: nat, out: seq<Byte>, more: seq<bool>)
    requires kind <= 1
    ensures Advance(Config(Header, out, HeaderBits(last, kind) + more)) ==
              (if kind == 0 then Go(Config(StoredHeader(last), out, more[|more| % 8..]))
               else Go(Config(Symbol(last, FixedTrees()), out, more)))
  {
    hide FixedTrees, HeaderBits, ToNat;
    HeaderBitsAre(last, kind, more);
  }

  lemma HeaderBitsAre(last: bool, kind: nat, more: seq<bool>)
    requires kind <= 1
    ensures var bits := HeaderBits(last, kind) + more;
            |bits| >= 3 && bits[0] == last && ToNat(bits[1..3]) == kind && bits[3..] == more
  {
    hide BitsOf, ToNat;
    var x := 2 * kind + if last then 1 else 0;
    var bits := BitsOf(x, 3) + more;
    ThreeBits(x);
    assert bits[1..3] == [kind == 1, false];
    TwoBits(kind == 1, false);
  }

  lemma ThreeBits(x: nat)
    ensures BitsOf(x, 3) == [x % 2 == 1, x / 2 % 2 == 1, x / 4 % 2 == 1]
  {
    assert x / 2 / 2 == x / 4;
    assert BitsOf(x, 3) == [x % 2 == 1] + BitsOf(x / 2, 2);
    assert BitsOf(x / 2, 2) == [x / 2 % 2 == 1] + BitsOf(x / 4, 1);
    assert BitsOf(x / 4, 1) == [x / 4 % 2 == 1] + BitsOf(x / 4 / 2, 0);
  }

  lemma TwoBits(a: bool, b: bool)
    ensures ToNat([a, b]) == (if a then 1 else 0) + (if b then 2 else 0)
  {
    assert [a, b][1..] == [b] && [b][1..] == [];
    assert ToNat([b]) == (if b then 1 else 0) + 2 * ToNat([]);
    assert ToNat([a, b]) == (if a then 1 else 0) + 2 * ToNat([b]);
  }

  // ---------------- Stored blocks

  lemma StreamFirst(data: seq<Byte>)
    requires data != []
    ensures Stream(data) == BitsOf(data[0], 8) + Stream(data[1..])
  {
    hide BitsOf;
    var one := [data[0]];
    assert data == one + data[1..];
    StreamAppend(one, data[1..]);
    assert one[..0] == [] && Stream([]) == [];
    assert Stream(one) == Stream(one[..0]) + BitsOf(one[0], 8);
  }

  lemma {:induction false} BytesRead(last: bool, data: seq<Byte>, out: seq<Byte>, more: seq<bool>)
    ensures Run(Config(Stored(last, |data|), out, Stream(data) + more)) == AfterRun(last, out + data, more)
    decreases |data|
  {
    hide Run, AfterRun, BitsOf, Advance, Stream;
    if data == [] {
      NothingStored(last, out, more);
      assert Stream(data) + more == more && out + data == out by { EmptyStream(data); }
    } else {
      var rest := Stream(data[1..]) + more;
      assert Stream(data) + more == BitsOf(data[0], 8) + rest by {
        StreamFirst(data);
        Associates(BitsOf(data[0], 8), Stream(data[1..]), more);
      }
      ByteRead(last, |data|, data[0], out, rest);
      RunStep(Config(Stored(last, |data|), out, Stream(data) + more));
      BytesRead(last, data[1..], out + [data[0]], more);
      assert out + [data[0]] + data[1..] == out + data;
    }
  }

  lemma EmptyStream(data: seq<Byte>)
    requires data == []
    ensures Stream(data) == []
  {
  }

  lemma NothingStored(last: bool, out: seq<Byte>, more: seq<bool>)
    ensures Run(Config(Stored(last, 0), out, more)) == AfterRun(last, out, more)
  {
    hide Run, AfterRun;
    Ended(last, out, more, Config(Stored(last, 0), out, more));
  }

  lemma ByteRead(last: bool, n: nat, b: Byte, out: seq<Byte>, more: seq<bool>)
    requires n > 0
    ensures Advance(Config(Stored(last, n), out, BitsOf(b, 8) + more)) == Go(Config(Stored(last, n - 1), out + [b], more))
  {
    hide BitsOf, ToNat;
    var bits := BitsOf(b, 8) + more;
    Pow2Values();
    ExtraRead(b, 8, more);
    assert |bits| >= 8;
  }

  lemma StoredLengthsRead(last: bool, n: nat, out: seq<Byte>, more: seq<bool>)
    requires n <= 0xFFFF
    ensures Advance(Config(StoredHeader(last), out, BitsOf(n, 16) + (BitsOf(0xFFFF - n, 16) + more))) == Go(Config(Stored(last, n), out, more))
  {
    hide BitsOf, ToNat, Pow2;
    var rest := BitsOf(0xFFFF - n, 16) + more;
    var bits := BitsOf(n, 16) + rest;
    Pow2Large();
    ExtraRead(n, 16, rest);
    ExtraRead(0xFFFF - n, 16, more);
    assert bits[16..32] == bits[16..][..16] && bits[32..] == bits[16..][16..];
  }

  lemma AlignmentDropped(pad: nat, more: seq<bool>)
    requires pad < 8 && |more| % 8 == 0
    ensures var bits := Zeroes(pad) + more; bits[|bits| % 8..] == more
  {
    var bits := Zeroes(pad) + more;
    assert |bits| % 8 == pad;
  }

  lemma BlockRead(b: Block, pos: nat, out: seq<Byte>, more: seq<bool>)
    requires BlockOk(b) && Closed(b) && TreesOk(FixedTrees())
    requires (pos + |BlockBits(b, pos)| + |more|) % 8 == 0
    ensures var (out', ok) := ApplyBlock(b, out);
            Run(Config(Header, out, BlockBits(b, pos) + more)) ==
              if !ok then Inflate.Outcome(out', Verdict.BadDistance) else AfterRun(b.final, out', more)
  {
    hide Run, AfterRun, BitsOf, Advance, FixedTrees, TokensBits, LinesBits, Stream, HeaderBits, Zeroes, ApplyTokens;
    var c := Config(Header, out, BlockBits(b, pos) + more);
    match b
    case StoredBlock(last, data) =>
      var n := |data|;
      var pad := Padding(pos + 3);
      var lens := BitsOf(n, 16) + (BitsOf(0xFFFF - n, 16) + (Stream(data) + more));
      PaddingAligns(pos, |data|, |more|);
      Reassociate(HeaderBits(last, 0), Zeroes(pad), BitsOf(n, 16), BitsOf(0xFFFF - n, 16), Stream(data), more);
      HeaderRead(last, 0, out, Zeroes(pad) + lens);
      StoredSizes(b, pos);
      AlignmentDropped(pad, lens);
      RunStep(c);
      StoredLengthsRead(last, n, out, Stream(data) + more);
      RunStep(Config(StoredHeader(last), out, lens));
      BytesRead(last, data, out, more);
    case FixedBlock(last, lines) =>
      var tokens := lines[..|lines| - 1];
      ClosedBits(lines);
      Associates(HeaderBits(last, 1), TokensBits(tokens), more);
      HeaderRead(last, 1, out, TokensBits(tokens) + more);
      RunStep(c);
      TokensRead(last, tokens, out, more);
  }

  lemma PaddingAligns(pos: nat, n: nat, m: nat)
    ensures var pad := Padding(pos + 3);
            pad < 8 && ((pos + (3 + pad + 32 + 8 * n) + m) % 8 == 0 <==> m % 8 == 0)
  {
  }

  lemma StoredSizes(b: Block, pos: nat)
    requires b.StoredBlock? && BlockOk(b)
    ensures |BlockBits(b, pos)| == 3 + Padding(pos + 3) + 32 + 8 * |b.data|
    ensures |Stream(b.data)| == 8 * |b.data| && |BitsOf(|b.data|, 16)| == 16 && |BitsOf(0xFFFF - |b.data|, 16)| == 16
  {
  }

  lemma Reassociate(a: seq<bool>, b: seq<bool>, c: seq<bool>, d: seq<bool>, e: seq<bool>, f: seq<bool>)
    ensures (a + (b + (c + (d + e)))) + f == a + (b + (c + (d + (e + f))))
  {
  }

  // ---------------- Whole files

  predicate BlocksOk(blocks: seq<Block>) { forall i | 0 <= i < |blocks| :: BlockOk(blocks[i]) }

  predicate AllClosed(blocks: seq<Block>) { forall i | 0 <= i < |blocks| :: Closed(blocks[i]) }

  function FileBits(blocks: seq<Block>, pos: nat): seq<bool>
    requires BlocksOk(blocks)
    decreases |blocks|
  {
    if blocks == [] then []
    else
      var first := BlockBits(blocks[0], pos);
      first + FileBits(blocks[1..], pos + |first|)
  }

  /** How a script ends: with a final block, without one, or with a copy that reaches back too far. */
  datatype ScriptEnd = Final | NotFinal | BadCopy

  /** What a script says, up to its first final block. */
  function Text(blocks: seq<Block>, out: seq<Byte>): (seq<Byte>, ScriptEnd)
    requires BlocksOk(blocks) && AllClosed(blocks)
    decreases |blocks|
  {
    if blocks == [] then (out, NotFinal)
    else
      var (out', ok) := ApplyBlock(blocks[0], out);
      if !ok then (out', BadCopy) else if blocks[0].final then (out', Final) else Text(blocks[1..], out')
  }

  predicate EndsAs(e: ScriptEnd, v: Verdict)
  {
    match e
    case Final => v.Done?
    case NotFinal => v == Incomplete
    case BadCopy => v == Verdict.BadDistance
  }

  /** After blocks none of which is final, the zeroes that fill the last byte are no block. */
  lemma PaddingIsNoBlock(out: seq<Byte>, k: nat)
    requires k < 8
    ensures Run(Config(Header, out, Zeroes(k))) == Inflate.Outcome(out, Incomplete)
  {
    var bits := Zeroes(k);
    if k >= 3 {
      TwoBits(false, false);
      assert bits[1..3] == [false, false];
      var rest := bits[3..];
      assert |rest| % 8 == |rest| && rest[|rest|..] == [];
      assert Advance(Config(Header, out, bits)) == Go(Config(StoredHeader(false), out, []));
      StoredHeaderWaits(out);
    }
  }

  lemma StoredHeaderWaits(out: seq<Byte>)
    ensures Run(Config(StoredHeader(false), out, [])) == Inflate.Outcome(out, Incomplete)
  {
  }

  lemma {:induction false} FileRead(blocks: seq<Block>, pos: nat, out: seq<Byte>, k: nat)
    requires BlocksOk(blocks) && AllClosed(blocks) && TreesOk(FixedTrees())
    requires (pos + |FileBits(blocks, pos)| + k) % 8 == 0 && k < 8
    ensures var r, (text, e) := Run(Config(Header, out, FileBits(blocks, pos) + Zeroes(k))), Text(blocks, out);
            r.out == text && EndsAs(e, r.verdict)
    decreases |blocks|
  {
    hide Run, FixedTrees, BlockBits, ApplyBlock, Zeroes;
    ZeroesLength(k);
    if blocks == [] {
      assert [] + Zeroes(k) == Zeroes(k);
      PaddingIsNoBlock(out, k);
    } else {
      var first := BlockBits(blocks[0], pos);
      var rest := FileBits(blocks[1..], pos + |first|);
      Associates(first, rest, Zeroes(k));
      BlockRead(blocks[0], pos, out, rest + Zeroes(k));
      var (out', ok) := ApplyBlock(blocks[0], out);
      if ok && !blocks[0].final {
        FileRead(blocks[1..], pos + |first|, out', k);
      }
    }
  }

  lemma ZeroesLength(k: nat)
    ensures |Zeroes(k)| == k
  {
  }

  /** The bytes of a script decode to what the script says, and end as it does. */
  lemma FileDecodes(blocks: seq<Block>, buf: seq<Byte>)
    requires BlocksOk(blocks) && AllClosed(blocks)
    requires var bits := FileBits(blocks, 0); Stream(buf) == bits + Zeroes(Padding(|bits|))
    ensures var r, (text, e) := Decoded(buf), Text(blocks, []);
            r.out == text && EndsAs(e, r.verdict)
  {
    FixedComplete();
    hide Run, FixedTrees, FileBits, Text, Zeroes, Stream, BlocksOk, AllClosed, KraftSum;
    var bits := FileBits(blocks, 0);
    assert [] + Stream(buf) == Stream(buf);
    LengthsOf(buf, bits);
    ZeroesLength(Padding(|bits|));
    FileRead(blocks, 0, [], Padding(|bits|));
  }

  lemma LengthsOf(buf: seq<Byte>, bits: seq<bool>)
    requires Stream(buf) == bits + Zeroes(Padding(|bits|))
    ensures |bits| + |Zeroes(Padding(|bits|))| == |Stream(buf)| == 8 * |buf|
  {
  }

  // ---------------- Writing

  /** One line of a fixed Huffman block: a literal, or a length and a distance. */
  method WriteToken(w: BitWriter, t: Token)
    requires w.Valid() && TokenOk(t)
    modifies w
    ensures w.Valid() && w.Contents() == old(w.Contents()) + TokenBits(t)
  {
    hide BitsOf, LitBits, DistBits, EncodeLength, EncodeDistance, Reverse, FixedTrees, LengthBase, ExtraLengthBits,
      DistanceBase, ExtraDistanceBits, Stream, Pow2;
    match t {
      case EndOfBlock =>
        EndBits();
        w.Write(0, 7);
      case Lit(b) =>
        LitIs(b);
        w.WriteLCode(b);
      case Copy(length, distance) =>
        LengthSaid(length);
        DistanceSaid(distance);
        var l, d := EncodeLength(length).value, EncodeDistance(distance).value;
        ghost var c0, le, db, de := w.Contents(), BitsOf(l.extra, l.nExtra), DistBits(d.code), BitsOf(d.extra, d.nExtra);
        LitIs(l.code);
        LengthFits(l.code - 257);
        w.WriteLCode(l.code);
        w.Write(l.extra, l.nExtra);
        DCodeBits(d.code);
        DistanceFits(d.code);
        w.Write(Reverse(d.code, 5), 5);
        w.Write(d.extra, d.nExtra);
        Accumulated(c0, LitBits(l.code), le, db, de);
    }
  }

  lemma LitIs(s: nat)
    requires s < 288
    ensures LitBits(s) == CodeBits(FixedTrees().lit, s)
  {
  }

  lemma Accumulated(z: seq<bool>, a: seq<bool>, b: seq<bool>, c: seq<bool>, d: seq<bool>)
    ensures (((z + a) + b) + c) + d == z + (a + (b + (c + d)))
  {
  }

  lemma DCodeBits(d: nat)
    requires d < 32
    ensures d < U32 && Reverse(d, 5) < Pow2(5) && DistBits(d) == BitsOf(Reverse(d, 5), 5)
  {
    hide BitsOf, Reverse;
    FixedDistCode(d);
    ReverseReads(d, 5);
    ReadMsbBound(d, 5);
  }

  /** A block's lines, from its header on. A stored block of more than 65535 bytes is refused. */
  method WriteBlock(w: BitWriter, b: Block) returns (tooLong: bool)
    requires w.Valid() && LinesOk(b)
    modifies w
    ensures w.Valid() && (tooLong <==> !BlockOk(b))
    ensures !tooLong ==> w.Contents() == old(w.Contents()) + BlockBits(b, |old(w.Contents())|)
  {
    hide BitsOf, HeaderBits, LinesBits, Zeroes, Padding, Stream, Pow2, FixedTrees;
    tooLong := false;
    ghost var c0 := w.Contents();
    var last, kind := b.final, if b.StoredBlock? then 0 else 1;
    assert 2 * kind + (if last then 1 else 0) < Pow2(3) by { Pow2Values(); }
    assert HeaderBits(last, kind) == BitsOf(2 * kind + (if last then 1 else 0), 3) by { HeaderIs(last, kind); }
    w.Write(2 * kind + (if last then 1 else 0), 3);
    match b {
      case StoredBlock(_, data) =>
        tooLong := WriteStored(w, data);
        if !tooLong {
          Associates(c0, HeaderBits(last, 0), Zeroes(Padding(|c0| + 3)) + (BitsOf(|data|, 16) + (BitsOf(0xFFFF - |data|, 16) + Stream(data))));
        }
      case FixedBlock(_, lines) =>
        WriteLines(w, lines);
        Associates(c0, HeaderBits(last, 1), LinesBits(lines));
    }
  }

  lemma HeaderIs(last: bool, kind: nat)
    ensures HeaderBits(last, kind) == BitsOf(2 * kind + (if last then 1 else 0), 3)
  {
  }

  /** The end of a stored block: its lengths, on a byte boundary, and its bytes. */
  method WriteStored(w: BitWriter, data: seq<Byte>) returns (tooLong: bool)
    requires w.Valid()
    modifies w
    ensures w.Valid() && (tooLong <==> |data| > 0xFFFF)
    ensures !tooLong ==> w.Contents() == old(w.Contents()) + (Zeroes(Padding(|old(w.Contents())|)) + (BitsOf(|data|, 16) + (BitsOf(0xFFFF - |data|, 16) + Stream(data))))
  {
    hide BitsOf, Zeroes, Stream, Pow2;
    tooLong := |data| > 0xFFFF;
    if tooLong {
      return;
    }
    ghost var c0 := w.Contents();
    ghost var pad := Zeroes(Padding(|c0|));
    Pow2Large();
    w.Flush();
    ghost var aligned := |w.buf|;
    w.Write(|data|, 16);
    w.Write(0xFFFF - |data|, 16);
    ghost var c1 := w.Contents();
    AlignedAgain(c0, pad, BitsOf(|data|, 16), BitsOf(0xFFFF - |data|, 16));
    w.WriteBytes(data);
    assert c1 + Zeroes(0) == c1 by { NoZeroes(); }
    Accumulated(c0, pad, BitsOf(|data|, 16), BitsOf(0xFFFF - |data|, 16), Stream(data));
  }

  lemma NoZeroes()
    ensures Zeroes(0) == []
  {
  }

  lemma AlignedAgain(c0: seq<bool>, pad: seq<bool>, a: seq<bool>, b: seq<bool>)
    requires |a| == 16 && |b| == 16 && pad == Zeroes(Padding(|c0|))
    ensures Padding(|c0 + pad + a + b|) == 0
  {
    var n := |c0|;
    assert |pad| == Padding(n);
    PaddingSum(n);
  }

  lemma PaddingSum(n: nat)
    ensures (n + Padding(n) + 32) % 8 == 0
  {
  }

  /** The lines of a fixed Huffman block. */
  method WriteLines(w: BitWriter, lines: seq<Token>)
    requires w.Valid() && forall i | 0 <= i < |lines| :: TokenOk(lines[i])
    modifies w
    ensures w.Valid() && w.Contents() == old(w.Contents()) + LinesBits(lines)
  {
    hide BitsOf, TokenBits, Stream, Pow2, LitBits, FixedTrees;
    ghost var c0 := w.Contents();
    var i := 0;
    while i < |lines|
      invariant i <= |lines| && w.Valid() && w.Contents() + LinesBits(lines[i..]) == c0 + LinesBits(lines)
    {
      ghost var c1 := w.Contents();
      assert lines[i..][1..] == lines[i + 1..];
      Associates(c1, TokenBits(lines[i]), LinesBits(lines[i + 1..]));
      WriteToken(w, lines[i]);
      i := i + 1;
    }
    assert lines[i..] == [];
  }

  lemma EndBits()
    ensures LitBits(256) == BitsOf(0, 7) && 0 < Pow2(7)
  {
    hide BitsOf;
    FixedLitCode(256);
    ReadMsbZero(7);
  }

  lemma {:induction false} ReadMsbZero(n: nat)
    ensures ReadMsb(0, n) == 0
  {
    if n > 0 {
      ReadMsbZero(n - 1);
      BitOfSign(n - 1);
    }
  }

  /** The whole program, after parsing: the bytes written are those of the blocks. It fails exactly
      when some stored block is too long. */
  method WriteFile(blocks: seq<Block>) returns (ok: bool, buf: seq<Byte>)
    requires forall i | 0 <= i < |blocks| :: LinesOk(blocks[i])
    ensures ok <==> BlocksOk(blocks)
    ensures ok ==> var bits := FileBits(blocks, 0); Stream(buf) == bits + Zeroes(Padding(|bits|))
  {
    hide BlockBits, Zeroes, BitsOf;
    var w := new BitWriter();
    ok, buf := true, [];
    var i := 0;
    while i < |blocks|
      invariant i <= |blocks| && w.Valid() && fresh(w) && BlocksOk(blocks[..i])
      invariant BlocksOk(blocks) ==> w.Contents() + FileBits(blocks[i..], |w.Contents()|) == FileBits(blocks, 0)
    {
      ghost var c1 := w.Contents();
      assert blocks[i..][1..] == blocks[i + 1..] && blocks[..i + 1] == blocks[..i] + [blocks[i]];
      var tooLong := WriteBlock(w, blocks[i]);
      if tooLong {
        return false, [];
      }
      if BlocksOk(blocks) {
        ghost var first := BlockBits(blocks[i], |c1|);
        Associates(c1, first, FileBits(blocks[i + 1..], |c1| + |first|));
      }
      i := i + 1;
    }
    assert blocks[..i] == blocks && blocks[i..] == [];
    assert w.Contents() == FileBits(blocks, 0);
    w.Flush();
    NoBits(w.bits);
    buf := w.buf;
  }

  /** What a call of the decoder tells about a script's file once it has been supplied with all of it. */
  lemma DecoderReadsBack(blocks: seq<Block>, buf: seq<Byte>, status: Deflate.Status, st: State, rest: seq<Byte>, out: seq<Byte>)
    requires BlocksOk(blocks) && AllClosed(blocks)
    requires var bits := FileBits(blocks, 0); Stream(buf) == bits + Zeroes(Padding(|bits|))
    requires Tells(status, st, buf, rest, out)
    ensures var (text, e) := Text(blocks, []);
            match status
            case Finished => e == Final && out == text
            case ShortRead => e == NotFinal && out == text
            case ShortWrite => out <= text
            case Fails(v) => e == BadCopy && v == Verdict.BadDistance && out == text
  {
    hide Decoded, FileBits, Text, Stream, Zeroes;
    FileDecodes(blocks, buf);
  }

  /** From a script to a file and back: with input and room in pieces of any size, the decoder comes to
      an end with exactly what the script says, and tells how the script ends. */
  method ReadBack(blocks: seq<Block>, sched: Schedule) returns (ok: bool, status: Deflate.Status, out: seq<Byte>)
    requires (forall i | 0 <= i < |blocks| :: LinesOk(blocks[i])) && AllClosed(blocks) && ScheduleOk(sched)
    ensures ok <==> BlocksOk(blocks)
    ensures ok ==>
              var (text, e) := Text(blocks, []);
              && out == text
              && status == match e
                           case Final => Deflate.Status.Finished
                           case NotFinal => Deflate.Status.ShortRead
                           case BadCopy => Fails(Verdict.BadDistance)
  {
    hide Decoded, FileBits, Text, Stream, Zeroes, LinesOk, Closed;
    status, out := Deflate.Status.ShortRead, [];
    var buf;
    ok, buf := WriteFile(blocks);
    if ok {
      FileDecodes(blocks, buf);
      var shortWrites;
      status, out, shortWrites := DecodeAll(buf, sched);
    }
  }
}
