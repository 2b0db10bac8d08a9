/** The fixed Huffman codes as numbers: the table of section 3.2.6 of RFC 1951, from the canonical
    construction of section 3.2.2. */
module FixedValues {
  import opened Codes
  import opened Inflate
  import opened FixedCodes

  lemma {:induction false} CountOfUniform(lens: seq<nat>, i: nat, j: nat, v: nat, l: nat)
    requires Uniform(lens, i, j, v)
    ensures Count(lens[..j], l) == Count(lens[..i], l) + if v == l then j - i else 0
    decreases j
  {
    if i < j {
      CountOfUniform(lens, i, j - 1, v, l);
      var s := lens[..j];
      assert s[..|s| - 1] == lens[..j - 1] && s[|s| - 1] == lens[j - 1];
    }
  }

  lemma CountNone(l: nat)
    ensures Count([], l) == 0
  {
  }

  /** How many of the first n symbols have codes of length l. */
  lemma FixedCounts(lens: seq<nat>, n: nat, l: nat)
    requires IsFixedLit(lens) && n <= 288
    ensures Count(lens[..n], l) ==
              (if l == 8 then (if n <= 144 then n else if n <= 280 then 144 else n - 136)
               else if l == 9 then (if n <= 144 then 0 else if n <= 256 then n - 144 else 112)
               else if l == 7 then (if n <= 256 then 0 else if n <= 280 then n - 256 else 24)
               else 0)
  {
    hide Count;
    CountNone(l);
    assert lens[..0] == [];
    if n <= 144 {
      CountOfUniform(lens, 0, n, 8, l);
    } else {
      CountOfUniform(lens, 0, 144, 8, l);
      if n <= 256 {
        CountOfUniform(lens, 144, n, 9, l);
      } else {
        CountOfUniform(lens, 144, 256, 9, l);
        if n <= 280 {
          CountOfUniform(lens, 256, n, 7, l);
        } else {
          CountOfUniform(lens, 256, 280, 7, l);
          CountOfUniform(lens, 280, n, 8, l);
        }
      }
    }
  }

  lemma FixedCountAll(lens: seq<nat>, l: nat)
    requires IsFixedLit(lens)
    ensures Count(lens, l) == if l == 8 then 152 else if l == 9 then 112 else if l == 7 then 24 else 0
  {
    FixedCounts(lens, 288, l);
    assert lens[..288] == lens;
  }

  lemma {:induction false} FixedFirstCode(lens: seq<nat>, l: nat)
    requires IsFixedLit(lens) && l <= 9
    ensures FirstCode(lens, l) == if l <= 7 then 0 else if l == 8 then 48 else 400
  {
    hide Count;
    if l > 0 {
      FixedFirstCode(lens, l - 1);
      FixedCountAll(lens, l - 1);
    }
  }

  /** The codes of section 3.2.6 of RFC 1951. */
  function FixedCode(s: nat): nat
  {
    if s < 144 then 0x30 + s
    else if s < 256 then 0x190 + (s - 144)
    else if s < 280 then s - 256
    else 0xC0 + (s - 280)
  }

  lemma FixedLitCode(s: nat)
    requires s < 288
    ensures Code(FixedTrees().lit, s) == FixedCode(s)
  {
    var lens := FixedTrees().lit;
    assert IsFixedLit(lens);
    FixedFirstCode(lens, lens[s]);
    FixedCounts(lens, s, lens[s]);
  }

  lemma {:induction false} NoShorter(lens: seq<nat>, l: nat)
    requires |lens| == 32 && Uniform(lens, 0, 32, 5) && l <= 5
    ensures FirstCode(lens, l) == 0
  {
    hide Count;
    if l > 0 {
      NoShorter(lens, l - 1);
      CountOfUniform(lens, 0, 32, 5, l - 1);
      CountNone(l - 1);
      assert lens[..32] == lens && lens[..0] == [];
    }
  }

  lemma FixedDistCode(d: nat)
    requires d < 32
    ensures Code(FixedTrees().dist, d) == d
  {
    var lens := FixedTrees().dist;
    assert Uniform(lens, 0, 32, 5);
    NoShorter(lens, 5);
    CountOfUniform(lens, 0, d, 5, 5);
    CountNone(5);
    assert lens[..0] == [];
  }
}
