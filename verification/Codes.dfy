/** Canonical Huffman codes: sections 3.1.1 and 3.2.2 of RFC 1951.

    A list of code lengths (0 meaning "no code") determines the codes. Left-aligned in 15 bits,
    the code of symbol s covers the interval [Start(s), Start(s) + Width(s)) of [0, 2^15). The
    codes of a complete list (Kraft sum one) tile that space, which is why a bit string has
    exactly one symbol to start with. */
module Codes {
  import opened Bits

  const MAX_LENGTH := 15

  predicate Lengths(lens: seq<nat>)
  {
    forall i | 0 <= i < |lens| :: lens[i] <= MAX_LENGTH
  }

  /** Whether s is a symbol that has a code. */
  predicate Coded(lens: seq<nat>, s: int)
  {
    0 <= s < |lens| && lens[s] > 0
  }

  /** How many symbols have length l. */
  function Count(lens: seq<nat>, l: nat): (r: nat)
    ensures r <= |lens|
  {
    if lens == [] then 0
    else Count(lens[..|lens| - 1], l) + if lens[|lens| - 1] == l then 1 else 0
  }

  /** The smallest code of length l: the next_code array of RFC 1951, step 2. */
  function FirstCode(lens: seq<nat>, l: nat): nat
  {
    if l == 0 then 0
    else 2 * (FirstCode(lens, l - 1) + if l == 1 then 0 else Count(lens, l - 1))
  }

  /** The code of symbol s: RFC 1951, step 3. */
  function Code(lens: seq<nat>, s: nat): nat
    requires s < |lens|
  {
    FirstCode(lens, lens[s]) + Count(lens[..s], lens[s])
  }

  /** Huffman codes are packed starting from the most significant bit: the number formed
      by the first l bits of a stream whose first bit is bit 0 of x. */
  function ReadMsb(x: nat, l: nat): nat
  {
    if l == 0 then 0 else 2 * ReadMsb(x, l - 1) + if Bit(x, l - 1) then 1 else 0
  }

  /** The stream x starts with the code of s. */
  predicate Matches(lens: seq<nat>, s: nat, x: nat)
  {
    Coded(lens, s) && ReadMsb(x, lens[s]) == Code(lens, s)
  }

  /** Two to the 15 times the Kraft sum. */
  function KraftSum(lens: seq<nat>): nat
    requires Lengths(lens)
  {
    if lens == [] then 0
    else
      var l := lens[|lens| - 1];
      KraftSum(lens[..|lens| - 1]) + if l == 0 then 0 else Pow2(MAX_LENGTH - l)
  }

  predicate Complete(lens: seq<nat>)
  {
    Lengths(lens) && KraftSum(lens) == Pow2(MAX_LENGTH)
  }

  // ---------------- Areas

  /** Left-aligned: the space taken by all codes shorter than l. */
  function Area(lens: seq<nat>, l: nat): nat
    requires l <= MAX_LENGTH + 1
  {
    if l <= 1 then 0 else Area(lens, l - 1) + Shl(Count(lens, l - 1), MAX_LENGTH - (l - 1))
  }

  function Width(lens: seq<nat>, s: nat): nat
    requires s < |lens| && Lengths(lens)
  {
    Pow2(MAX_LENGTH - lens[s])
  }

  function Start(lens: seq<nat>, s: nat): nat
    requires s < |lens| && Lengths(lens)
  {
    Area(lens, lens[s]) + Shl(Count(lens[..s], lens[s]), MAX_LENGTH - lens[s])
  }

  lemma {:induction false} FirstCodeArea(lens: seq<nat>, l: nat)
    requires l <= MAX_LENGTH
    ensures Shl(FirstCode(lens, l), MAX_LENGTH - l) == Area(lens, l)
  {
    if l <= 1 {
      ShlAdd(0, 0, MAX_LENGTH - l);
    } else {
      FirstCodeArea(lens, l - 1);
      var k := MAX_LENGTH - l;
      var f, c := FirstCode(lens, l - 1), Count(lens, l - 1);
      ShlAdd(f + c, f + c, k);
      ShlAdd(f, c, k + 1);
    }
  }

  lemma CodeStart(lens: seq<nat>, s: nat)
    requires Lengths(lens) && s < |lens|
    ensures Shl(Code(lens, s), MAX_LENGTH - lens[s]) == Start(lens, s)
  {
    FirstCodeArea(lens, lens[s]);
    ShlAdd(FirstCode(lens, lens[s]), Count(lens[..s], lens[s]), MAX_LENGTH - lens[s]);
  }

  lemma {:induction false} AreaMono(lens: seq<nat>, l: nat, m: nat)
    requires l <= m <= MAX_LENGTH + 1
    ensures Area(lens, l) <= Area(lens, m)
  {
    if l < m {
      AreaMono(lens, l, m - 1);
    }
  }

  lemma {:induction false} CountPrefix(lens: seq<nat>, s: nat, t: nat, l: nat)
    requires s < t <= |lens|
    ensures Count(lens[..s], l) + (if lens[s] == l then 1 else 0) <= Count(lens[..t], l)
  {
    var p := lens[..t];
    assert p[..t - 1] == lens[..t - 1];
    if s < t - 1 {
      CountPrefix(lens, s, t - 1, l);
    }
  }

  lemma CountBefore(lens: seq<nat>, s: nat)
    requires s < |lens|
    ensures Count(lens[..s], lens[s]) < Count(lens, lens[s])
  {
    CountPrefix(lens, s, |lens|, lens[s]);
    assert lens[..|lens|] == lens;
  }

  /** The interval of s lies within the band of its length. */
  lemma StartInBand(lens: seq<nat>, s: nat)
    requires Lengths(lens) && Coded(lens, s)
    ensures Area(lens, lens[s]) <= Start(lens, s)
    ensures Start(lens, s) + Width(lens, s) <= Area(lens, lens[s] + 1)
  {
    CountBefore(lens, s);
    ShlMono(Count(lens[..s], lens[s]), Count(lens, lens[s]), MAX_LENGTH - lens[s]);
  }

  /** Canonical order: first by length, then by symbol. */
  predicate Before(lens: seq<nat>, s: nat, t: nat)
    requires s < |lens| && t < |lens|
  {
    lens[s] < lens[t] || (lens[s] == lens[t] && s < t)
  }

  /** The intervals of different symbols are disjoint, in canonical order. */
  lemma IntervalsInOrder(lens: seq<nat>, s: nat, t: nat)
    requires Lengths(lens) && Coded(lens, s) && Coded(lens, t) && Before(lens, s, t)
    ensures Start(lens, s) + Width(lens, s) <= Start(lens, t)
  {
    if lens[s] < lens[t] {
      StartInBand(lens, s);
      StartInBand(lens, t);
      AreaMono(lens, lens[s] + 1, lens[t]);
    } else {
      CountPrefix(lens, s, t, lens[s]);
      ShlMono(Count(lens[..s], lens[s]), Count(lens[..t], lens[s]), MAX_LENGTH - lens[s]);
    }
  }

  // ---------------- The Kraft sum

  lemma {:induction false} AreaOfAppended(lens: seq<nat>, l: nat)
    requires Lengths(lens) && lens != [] && l <= MAX_LENGTH + 1
    ensures var last := lens[|lens| - 1];
            Area(lens, l) == Area(lens[..|lens| - 1], l) + if 0 < last < l then Pow2(MAX_LENGTH - last) else 0
  {
    if l > 1 {
      AreaOfAppended(lens, l - 1);
      if lens[|lens| - 1] == l - 1 {
        ShlAdd(Count(lens[..|lens| - 1], l - 1), 1, MAX_LENGTH - (l - 1));
        ShlOne(MAX_LENGTH - (l - 1));
      }
    }
  }

  lemma {:induction false} KraftIsArea(lens: seq<nat>)
    requires Lengths(lens)
    ensures KraftSum(lens) == Area(lens, MAX_LENGTH + 1)
  {
    if lens == [] {
      NoArea(lens, MAX_LENGTH + 1);
    } else {
      KraftIsArea(lens[..|lens| - 1]);
      AreaOfAppended(lens, MAX_LENGTH + 1);
    }
  }

  lemma {:induction false} NoArea(lens: seq<nat>, l: nat)
    requires lens == [] && l <= MAX_LENGTH + 1
    ensures Area(lens, l) == 0
  {
    if l > 1 {
      NoArea(lens, l - 1);
      ShlAdd(0, 0, MAX_LENGTH - (l - 1));
    }
  }

  // ---------------- Reading a stream

  lemma {:induction false} ReadMsbBound(x: nat, l: nat)
    ensures ReadMsb(x, l) < Pow2(l)
  {
    if l > 0 {
      ReadMsbBound(x, l - 1);
    }
  }

  /** The first l bits of m bits are the upper ones. */
  lemma {:induction false} ReadMsbPrefix(x: nat, l: nat, m: nat)
    requires l <= m
    ensures Shr(ReadMsb(x, m), m - l) == ReadMsb(x, l)
  {
    if l < m {
      ReadMsbPrefix(x, l, m - 1);
      assert ReadMsb(x, m) / 2 == ReadMsb(x, m - 1);
    }
  }

  /** Starting with a code means lying in its interval. */
  lemma MatchesIsInterval(lens: seq<nat>, s: nat, x: nat)
    requires Lengths(lens) && Coded(lens, s)
    ensures Matches(lens, s, x) <==>
            Start(lens, s) <= ReadMsb(x, MAX_LENGTH) < Start(lens, s) + Width(lens, s)
  {
    ReadMsbPrefix(x, lens[s], MAX_LENGTH);
    CodeStart(lens, s);
    ShrBetween(ReadMsb(x, MAX_LENGTH), Code(lens, s), MAX_LENGTH - lens[s]);
  }

  /** The m-th symbol of length l. */
  lemma {:induction false} NthOfLength(lens: seq<nat>, l: nat, m: nat) returns (s: nat)
    requires m < Count(lens, l)
    ensures s < |lens| && lens[s] == l && Count(lens[..s], l) == m
  {
    var n := |lens| - 1;
    if lens[n] == l && Count(lens[..n], l) == m {
      s := n;
    } else {
      s := NthOfLength(lens[..n], l, m);
      assert lens[..n][..s] == lens[..s];
    }
  }

  /** Every point of the space used by codes shorter than l belongs to the interval of one of them. */
  lemma {:induction false} PointHasSymbol(lens: seq<nat>, p: nat, l: nat) returns (s: nat)
    requires Lengths(lens) && l <= MAX_LENGTH + 1 && p < Area(lens, l)
    ensures Coded(lens, s) && lens[s] < l
    ensures Start(lens, s) <= p < Start(lens, s) + Width(lens, s)
  {
    if p < Area(lens, l - 1) {
      s := PointHasSymbol(lens, p, l - 1);
    } else {
      var k := MAX_LENGTH - (l - 1);
      var d, c := p - Area(lens, l - 1), Count(lens, l - 1);
      var m := Shr(d, k);
      ShrBetween(d, m, k);
      if c <= m { ShlMono(c, m, k); }
      s := NthOfLength(lens, l - 1, m);
    }
  }

  /** A stream starts with the code of at most one symbol: no code is a prefix of another. */
  lemma PrefixFree(lens: seq<nat>, s: nat, t: nat, x: nat)
    requires Lengths(lens) && Matches(lens, s, x) && Matches(lens, t, x)
    ensures s == t
  {
    MatchesIsInterval(lens, s, x);
    MatchesIsInterval(lens, t, x);
    if s != t {
      if Before(lens, s, t) { IntervalsInOrder(lens, s, t); } else { IntervalsInOrder(lens, t, s); }
    }
  }

  /** A stream starts with the code of exactly one symbol of a complete list. */
  lemma UniqueSymbol(lens: seq<nat>, x: nat) returns (s: nat)
    requires Complete(lens)
    ensures Matches(lens, s, x)
    ensures forall t: nat | Matches(lens, t, x) :: t == s
  {
    KraftIsArea(lens);
    ReadMsbBound(x, MAX_LENGTH);
    s := PointHasSymbol(lens, ReadMsb(x, MAX_LENGTH), MAX_LENGTH + 1);
    MatchesIsInterval(lens, s, x);
    forall t: nat | Matches(lens, t, x) ensures t == s { PrefixFree(lens, s, t, x); }
  }
}
