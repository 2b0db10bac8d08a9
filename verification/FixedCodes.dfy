/** init_fixed_huffman (gen/c/std/deflate.c): the codes of section 3.2.6 of RFC 1951, and why their
    tables can always be built. */
module FixedCodes {
  import opened Bits
  import opened Codes
  import opened HuffKeys
  import opened HuffTable
  import opened Inflate
  import opened Lookups
  import opened HuffSlow
  import opened DynamicBlocks

  /** Symbols i to j have codes of length l. */
  ghost predicate Uniform(lens: seq<nat>, i: nat, j: nat, l: nat)
  {
    i <= j <= |lens| && forall k | i <= k < j :: lens[k] == l
  }

  lemma {:induction false} KraftOfRun(lens: seq<nat>, i: nat, j: nat, l: nat)
    requires Lengths(lens) && Uniform(lens, i, j, l) && 0 < l <= MAX_LENGTH
    ensures KraftSum(lens[..j]) == KraftSum(lens[..i]) + (j - i) * Pow2(MAX_LENGTH - l)
    decreases j
  {
    hide Pow2, KraftSum;
    if i < j {
      KraftOfRun(lens, i, j - 1, l);
      KraftAppended(lens, j);
      OneMore(j - 1 - i, Pow2(MAX_LENGTH - l));
    }
  }

  lemma KraftAppended(lens: seq<nat>, j: nat)
    requires Lengths(lens) && 0 < j <= |lens| && 0 < lens[j - 1]
    ensures KraftSum(lens[..j]) == KraftSum(lens[..j - 1]) + Pow2(MAX_LENGTH - lens[j - 1])
  {
    hide Pow2;
    var s := lens[..j];
    assert s[..|s| - 1] == lens[..j - 1] && s[|s| - 1] == lens[j - 1];
  }

  lemma OneMore(n: int, p: int)
    ensures (n + 1) * p == n * p + p
  {
  }

  lemma FixedTreesOk()
    ensures Complete(FixedTrees().lit) && Complete(FixedTrees().dist)
  {
    var t := FixedTrees();
    assert IsFixedLit(t.lit) && |t.dist| == 32 && Uniform(t.dist, 0, 32, 5);
    hide FixedTrees, KraftSum;
    FixedLitKraft(t.lit);
    FixedDistKraft(t.dist);
  }

  lemma FixedDistKraft(lens: seq<nat>)
    requires |lens| == 32 && Uniform(lens, 0, 32, 5)
    ensures KraftSum(lens) == Pow2(MAX_LENGTH)
    ensures forall s | 0 <= s < |lens| :: 0 < lens[s] <= ROOT_BITS
  {
    hide KraftSum, Pow2;
    KraftOfRun(lens, 0, 32, 5);
    assert lens[..32] == lens && lens[..0] == [];
    NoKraft();
    Pow2Values();
    Pow2Large();
    Pow2Add(5, 5);
  }

  ghost predicate IsFixedLit(lens: seq<nat>)
  {
    |lens| == 288 && Uniform(lens, 0, 144, 8) && Uniform(lens, 144, 256, 9) && Uniform(lens, 256, 280, 7) && Uniform(lens, 280, 288, 8)
  }

  lemma FixedLitKraft(lens: seq<nat>)
    requires IsFixedLit(lens)
    ensures KraftSum(lens) == Pow2(MAX_LENGTH)
    ensures forall s | 0 <= s < |lens| :: 0 < lens[s] <= ROOT_BITS
  {
    hide KraftSum, Pow2;
    KraftOfRun(lens, 0, 144, 8);
    KraftOfRun(lens, 144, 256, 9);
    KraftOfRun(lens, 256, 280, 7);
    KraftOfRun(lens, 280, 288, 8);
    assert lens[..288] == lens && lens[..0] == [];
    NoKraft();
    Pow2Values();
    Pow2Large();
  }

  lemma NoKraft()
    ensures KraftSum([]) == 0
  {
  }

  /** `while (i < end) { code_lengths[i] = l }`. */
  method FillLengths(codeLengths: array<nat>, start: nat, end: nat, l: nat)
    requires start <= end <= codeLengths.Length
    modifies codeLengths
    ensures Uniform(codeLengths[..], start, end, l)
    ensures forall k | 0 <= k < start :: codeLengths[k] == old(codeLengths[k])
  {
    var i := start;
    while i < end
      invariant start <= i <= end && forall k | start <= k < i :: codeLengths[k] == l
      invariant forall k | 0 <= k < start :: codeLengths[k] == old(codeLengths[k])
    {
      codeLengths[i] := l;
      i := i + 1;
    }
  }

  /** The fixed codes have tables: no error is ever reported. */
  method InitFixedHuffman(codeLengths: array<nat>, huffs0: array<nat>, huffs1: array<nat>, ghost last: bool)
    returns (ok: bool, nb0: nat, nb1: nat, ghost b: CodedBlock)
    requires codeLengths.Length == 320 && huffs0.Length == TABLE_SIZE && huffs1.Length == TABLE_SIZE
    requires huffs0 != huffs1 && codeLengths != huffs0 && codeLengths != huffs1
    modifies codeLengths, huffs0, huffs1
    ensures ok && BuiltFor(b, last, huffs0[..], nb0, huffs1[..], nb1) && b.trees == FixedTrees()
  {
    hide TableFor, Complete;
    FillLengths(codeLengths, 0, 144, 8);
    FillLengths(codeLengths, 144, 256, 9);
    FillLengths(codeLengths, 256, 280, 7);
    FillLengths(codeLengths, 280, 288, 8);
    FillLengths(codeLengths, 288, 320, 5);
    var lit, dist := codeLengths[..288], codeLengths[288..320];
    assert lit == FixedTrees().lit && dist == FixedTrees().dist;
    FixedTreesOk();
    ghost var litCall, distCall;
    ok, nb0, litCall := BuildFor(huffs0, lit, 0, 257);
    var ok1;
    ok1, nb1, distCall := BuildFor(huffs1, dist, 1, 0);
    ok := ok && ok1;
    b := CodedBlock(last, Trees(lit, dist), huffs0[..], nb0, litCall, huffs1[..], nb1, distCall);
  }
}
