/** Where the machine of the module Inflate, like the decoder it specifies, is narrower than RFC 1951:
    it takes complete codes only (gen/c/std/deflate.c:1755-1778), and at most 30 distance codes
    (gen/c/std/deflate.c:1519-1522) where section 3.2.7 counts up to 32. */
module FormatLimits {
  import opened Bits
  import opened Words
  import opened BitStream
  import opened Codes
  import opened Inflate
  import opened DynamicBlocks
  import opened FixedCodes
  import Encoder
  import RoundTrip

  // ---------------- The distance codes of section 3.2.7

  /** One distance code only: it has one bit, and the other code of one bit is unused. */
  ghost predicate OneCode(lens: seq<nat>, s: nat)
  {
    Coded(lens, s) && lens[s] == 1 && forall r | 0 <= r < |lens| && r != s :: lens[r] == 0
  }

  /** No distance codes at all. */
  predicate NoCodes(lens: seq<nat>) { forall r | 0 <= r < |lens| :: lens[r] == 0 }

  /** What section 3.2.7 allows for the distance codes. */
  ghost predicate Permitted(lens: seq<nat>)
  {
    Complete(lens) || NoCodes(lens) || exists s: nat :: OneCode(lens, s)
  }

  lemma {:induction false} KraftOfZeroes(lens: seq<nat>, i: nat, j: nat)
    requires Lengths(lens) && Uniform(lens, i, j, 0)
    ensures KraftSum(lens[..j]) == KraftSum(lens[..i])
    decreases j
  {
    if i < j {
      KraftOfZeroes(lens, i, j - 1);
      assert lens[..j][..j - 1] == lens[..j - 1];
    }
  }

  lemma KraftOfOne(lens: seq<nat>, s: nat)
    requires OneCode(lens, s)
    ensures Lengths(lens) && KraftSum(lens) == Pow2(MAX_LENGTH - 1)
  {
    hide Pow2;
    KraftOfZeroes(lens, 0, s);
    KraftOfZeroes(lens, s + 1, |lens|);
    KraftAppended(lens, s + 1);
    assert lens[..|lens|] == lens && lens[..0] == [];
  }

  lemma KraftOfNone(lens: seq<nat>)
    requires NoCodes(lens)
    ensures Lengths(lens) && KraftSum(lens) == 0
  {
    KraftOfZeroes(lens, 0, |lens|);
    assert lens[..|lens|] == lens && lens[..0] == [];
  }

  /** Exactly how much narrower: of the permitted codes, the machine leaves out the two incomplete kinds. */
  lemma NarrowerBy(lens: seq<nat>)
    ensures Complete(lens) <==> Permitted(lens) && !NoCodes(lens) && !(exists s: nat :: OneCode(lens, s))
  {
    hide KraftSum;
    assert Pow2(MAX_LENGTH) != Pow2(MAX_LENGTH - 1) && Pow2(MAX_LENGTH) > 0;
    if NoCodes(lens) {
      KraftOfNone(lens);
    }
    if s: nat :| OneCode(lens, s) {
      KraftOfOne(lens, s);
    }
  }

  // ---------------- A block header that section 3.2.7 allows and the machine refuses

  /** Three symbols of the code length code, in the order they are sent: 18 and 0 have two bits, 1 has
      one. */
  const SENT: seq<nat> := [0, 0, 2, 2, 0, 0, 0, 0, 0, 0, 0, 0, 0, 0, 0, 0, 0, 1]

  function Clens(): seq<nat> { Ordered(SENT) }

  lemma ClensAre()
    ensures |Clens()| == 19 && forall s | 0 <= s < 19 ::
              Clens()[s] == if s == 0 || s == 18 then 2 else if s == 1 then 1 else 0
  {
    forall s | 0 <= s < 19
      ensures Clens()[s] == if s == 0 || s == 18 then 2 else if s == 1 then 1 else 0
    {
      OrderPosition(s);
      OrderedAt(SENT, CODE_POSITION[s]);
      assert CODE_POSITION[0] == 3 && CODE_POSITION[1] == 17 && CODE_POSITION[18] == 2;
    }
  }

  lemma ClensOk()
    ensures Complete(Clens())
  {
    hide Clens, KraftSum;
    ClensAre();
    ThreeCodesKraft(Clens());
  }

  lemma ThreeCodesKraft(lens: seq<nat>)
    requires |lens| == 19 && forall s | 0 <= s < 19 :: lens[s] == if s == 0 || s == 18 then 2 else if s == 1 then 1 else 0
    ensures Lengths(lens) && KraftSum(lens) == Pow2(MAX_LENGTH)
  {
    hide KraftSum, Pow2;
    assert lens[..19] == lens && lens[..0] == [];
    KraftAppended(lens, 1);
    KraftAppended(lens, 2);
    KraftOfZeroes(lens, 2, 18);
    KraftAppended(lens, 19);
    NoKraft();
    Pow2Step(13);
    Pow2Step(14);
  }

  function ClenBits(vals: seq<nat>): seq<bool>
  {
    if vals == [] then [] else BitsOf(vals[0], 3) + ClenBits(vals[1..])
  }

  /** The code lengths of 257 literal/length codes, of which 0 and 256 have one bit, and of one distance
      code of d bits. */
  function LengthsBits(d: nat): seq<bool>
    requires d <= 1
  {
    Symbol1() + (Zeroes138(127) + (Zeroes138(106) + (Symbol1() + Encoder.CodeBits(Clens(), d))))
  }

  function Symbol1(): seq<bool> { Encoder.CodeBits(Clens(), 1) }
  function Zeroes138(extra: nat): seq<bool> { Encoder.CodeBits(Clens(), 18) + BitsOf(extra, 7) }

  /** A whole header: the last block, with dynamic codes. */
  function Header1951(d: nat): seq<bool>
    requires d <= 1
  {
    BitsOf(5, 3) + (BitsOf(0, 5) + (BitsOf(0, 5) + (BitsOf(14, 4) + (ClenBits(SENT) + LengthsBits(d)))))
  }

  // ---------------- Reading it

  lemma HeaderReads(out: seq<Byte>, more: seq<bool>)
    ensures Advance(Config(Header, out, BitsOf(5, 3) + more)) == Go(Config(CodeCounts(true), out, more))
  {
    var bits := BitsOf(5, 3) + more;
    RoundTrip.ThreeBits(5);
    RoundTrip.TwoBits(false, true);
    assert bits[1..3] == [false, true] && bits[3..] == more && bits[0];
  }

  lemma CountsRead(out: seq<Byte>, more: seq<bool>)
    ensures Advance(Config(CodeCounts(true), out, BitsOf(0, 5) + (BitsOf(0, 5) + (BitsOf(14, 4) + more)))) ==
            Go(Config(ClenLengths(Sizes(true, 257, 1), 18, []), out, more))
  {
    hide BitsOf, ToNat;
    var b, c := BitsOf(14, 4) + more, BitsOf(0, 5) + (BitsOf(14, 4) + more);
    var bits := BitsOf(0, 5) + c;
    Pow2Values();
    RoundTrip.ExtraRead(0, 5, c);
    RoundTrip.ExtraRead(0, 5, b);
    RoundTrip.ExtraRead(14, 4, more);
    assert bits[5..10] == bits[5..][..5] && bits[10..14] == bits[5..][5..][..4] && bits[14..] == bits[5..][5..][4..];
    BitsOfLength3(0, 5, 0, 5, 14, 4);
  }

  lemma BitsOfLength3(x: nat, k: nat, y: nat, l: nat, z: nat, m: nat)
    ensures |BitsOf(x, k)| == k && |BitsOf(y, l)| == l && |BitsOf(z, m)| == m
  {
  }

  lemma {:induction false} ClensRead(got: seq<nat>, vals: seq<nat>, out: seq<Byte>, more: seq<bool>)
    requires |got| + |vals| == 18 && forall i | 0 <= i < |vals| :: vals[i] < 8
    ensures Run(Config(ClenLengths(Sizes(true, 257, 1), 18, got), out, ClenBits(vals) + more)) ==
            Run(Config(ClenLengths(Sizes(true, 257, 1), 18, got + vals), out, more))
    decreases |vals|
  {
    hide Run, BitsOf, ToNat;
    var sizes := Sizes(true, 257, 1);
    if vals == [] {
      assert got + [] == got && [] + more == more;
    } else {
      var rest := ClenBits(vals[1..]) + more;
      var c := Config(ClenLengths(sizes, 18, got), out, BitsOf(vals[0], 3) + rest);
      Associates(BitsOf(vals[0], 3), ClenBits(vals[1..]), more);
      Pow2Values();
      RoundTrip.ExtraRead(vals[0], 3, rest);
      BitsOfLength3(vals[0], 3, 0, 0, 0, 0);
      assert Advance(c) == Go(Config(ClenLengths(sizes, 18, got + [vals[0]]), out, rest));
      RoundTrip.RunStep(c);
      ClensRead(got + [vals[0]], vals[1..], out, more);
      assert got + [vals[0]] + vals[1..] == got + vals;
    }
  }

  lemma LengthRead(s: nat, got: seq<nat>, out: seq<Byte>, more: seq<bool>)
    requires s <= 1 && |got| < 258
    ensures StageOk(CodeLengths(Sizes(true, 257, 1), Clens(), got))
    ensures Run(Config(CodeLengths(Sizes(true, 257, 1), Clens(), got), out, Encoder.CodeBits(Clens(), s) + more)) ==
            Run(Config(CodeLengths(Sizes(true, 257, 1), Clens(), got + [s]), out, more))
  {
    ClensOk();
    ClensAre();
    hide Run, Clens, KraftSum;
    RoundTrip.CodeStarts(Clens(), s, more);
    RoundTrip.RunStep(Config(CodeLengths(Sizes(true, 257, 1), Clens(), got), out, Encoder.CodeBits(Clens(), s) + more));
  }

  lemma ZeroesRead(extra: nat, got: seq<nat>, out: seq<Byte>, more: seq<bool>)
    requires extra < 128 && |got| + 11 + extra <= 257
    ensures StageOk(CodeLengths(Sizes(true, 257, 1), Clens(), got))
    ensures Run(Config(CodeLengths(Sizes(true, 257, 1), Clens(), got), out, Zeroes138(extra) + more)) ==
            Run(Config(CodeLengths(Sizes(true, 257, 1), Clens(), got + seq(11 + extra, _ => 0)), out, more))
  {
    ClensOk();
    ClensAre();
    hide Run, Clens, KraftSum, BitsOf, ToNat;
    var sizes, rest := Sizes(true, 257, 1), BitsOf(extra, 7) + more;
    var c := Config(CodeLengths(sizes, Clens(), got), out, Encoder.CodeBits(Clens(), 18) + rest);
    Associates(Encoder.CodeBits(Clens(), 18), BitsOf(extra, 7), more);
    RoundTrip.CodeStarts(Clens(), 18, rest);
    var d := Config(Repeat(sizes, Clens(), got, 18), out, rest);
    assert Advance(c) == Go(d);
    RoundTrip.RunStep(c);
    Pow2Values();
    RoundTrip.ExtraRead(extra, 7, more);
    BitsOfLength3(extra, 7, 0, 0, 0, 0);
    assert Advance(d) == Go(Config(CodeLengths(sizes, Clens(), got + seq(11 + extra, _ => 0)), out, more));
    RoundTrip.RunStep(d);
  }

  /** All the code lengths. */
  function Sent(d: nat): seq<nat> { [1] + seq(138, _ => 0) + seq(117, _ => 0) + [1] + [d] }

  lemma LengthsRead(d: nat, out: seq<Byte>, more: seq<bool>)
    requires d <= 1
    ensures StageOk(CodeLengths(Sizes(true, 257, 1), Clens(), [])) && StageOk(CodeLengths(Sizes(true, 257, 1), Clens(), Sent(d)))
    ensures Run(Config(CodeLengths(Sizes(true, 257, 1), Clens(), []), out, LengthsBits(d) + more)) ==
            Run(Config(CodeLengths(Sizes(true, 257, 1), Clens(), Sent(d)), out, more))
  {
    ClensAre();
    hide Run, Clens, Zeroes138;
    var last := Encoder.CodeBits(Clens(), d) + more;
    var four := Symbol1() + last;
    var three := Zeroes138(106) + four;
    var two := Zeroes138(127) + three;
    assert LengthsBits(d) + more == Symbol1() + two;
    var g1 := [1];
    var g2 := g1 + seq(138, _ => 0);
    var g3 := g2 + seq(117, _ => 0);
    LengthRead(1, [], out, two);
    assert [] + [1] == g1;
    ZeroesRead(127, g1, out, three);
    ZeroesRead(106, g2, out, four);
    LengthRead(1, g3, out, last);
    LengthRead(d, g3 + [1], out, more);
  }

  /** The machine stops at this header, for d = 1 with one distance code and for d = 0 with none, both of
      which section 3.2.7 allows; its other code is complete. */
  lemma RefusesPermitted(d: nat, out: seq<Byte>, more: seq<bool>)
    requires d <= 1
    ensures Run(Config(Header, out, Header1951(d) + more)) == Outcome(out, BadTrees)
    ensures Permitted(Sent(d)[257..]) && Complete(Sent(d)[..257])
  {
    hide Run, BitsOf, LengthsBits, Clens, ClenBits;
    var lens := LengthsBits(d) + more;
    var clen := ClenBits(SENT) + lens;
    var counts := BitsOf(0, 5) + (BitsOf(0, 5) + (BitsOf(14, 4) + clen));
    assert Header1951(d) + more == BitsOf(5, 3) + counts;
    HeaderReads(out, counts);
    RoundTrip.RunStep(Config(Header, out, BitsOf(5, 3) + counts));
    CountsRead(out, clen);
    RoundTrip.RunStep(Config(CodeCounts(true), out, counts));
    ClensRead([], SENT, out, lens);
    assert [] + SENT == SENT;
    ClensAccepted(out, lens);
    LengthsRead(d, out, more);
    Refused(d, out, more);
  }

  lemma ClensAccepted(out: seq<Byte>, more: seq<bool>)
    ensures StageOk(CodeLengths(Sizes(true, 257, 1), Clens(), []))
    ensures Run(Config(ClenLengths(Sizes(true, 257, 1), 18, SENT), out, more)) ==
            Run(Config(CodeLengths(Sizes(true, 257, 1), Clens(), []), out, more))
  {
    ClensOk();
    ClensAre();
    hide Run, Ordered, KraftSum;
    RoundTrip.RunStep(Config(ClenLengths(Sizes(true, 257, 1), 18, SENT), out, more));
  }

  lemma Refused(d: nat, out: seq<Byte>, more: seq<bool>)
    requires d <= 1
    ensures StageOk(CodeLengths(Sizes(true, 257, 1), Clens(), Sent(d)))
    ensures Run(Config(CodeLengths(Sizes(true, 257, 1), Clens(), Sent(d)), out, more)) == Outcome(out, BadTrees)
    ensures Permitted(Sent(d)[257..]) && Complete(Sent(d)[..257])
  {
    ClensOk();
    ClensAre();
    hide Run, Clens, KraftSum;
    var got := Sent(d);
    var lit, dist := got[..257], got[257..];
    assert dist == [d];
    if d == 1 {
      assert OneCode(dist, 0);
    }
    NarrowerBy(dist);
    LiteralKraft(lit);
    RoundTrip.RunStops(Config(CodeLengths(Sizes(true, 257, 1), Clens(), got), out, more));
  }

  lemma LiteralKraft(lens: seq<nat>)
    requires |lens| == 257 && forall s | 0 <= s < 257 :: lens[s] == if s == 0 || s == 256 then 1 else 0
    ensures Complete(lens)
  {
    hide KraftSum, Pow2;
    assert lens[..257] == lens && lens[..0] == [];
    KraftAppended(lens, 1);
    KraftOfZeroes(lens, 1, 256);
    KraftAppended(lens, 257);
    NoKraft();
    Pow2Step(14);
  }
}
