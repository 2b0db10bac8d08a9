/** Codes longer than nine bits: they are grouped by their first nine bits, the redirect key, and
    every key needs a sub-table as wide as its longest code. */
module HuffKeys {
  import opened Bits
  import opened Codes
  import opened HuffSort

  const ROOT_BITS := 9

  // ---------------- Redirect keys

  predicate Long(lens: seq<nat>, s: nat) { Coded(lens, s) && lens[s] > ROOT_BITS }

  /** The first nine bits of a long code. */
  function Key(lens: seq<nat>, s: nat): nat
    requires Long(lens, s)
  {
    Shr(Code(lens, s), lens[s] - ROOT_BITS)
  }

  /** Codes are ordered by their intervals, and so are the keys. */
  lemma KeyOfStart(lens: seq<nat>, s: nat)
    requires Lengths(lens) && Long(lens, s)
    ensures Key(lens, s) == Shr(Start(lens, s), 6)
    ensures Shl(Key(lens, s), 6) <= Start(lens, s)
    ensures Start(lens, s) + Width(lens, s) <= Shl(Key(lens, s), 6) + Pow2(6)
  {
    var l, c := lens[s], Code(lens, s);
    CodeStart(lens, s);
    ShlNested(c, Key(lens, s), l - 9, 15 - l);
    ShrBetween(Start(lens, s), Key(lens, s), 6);
  }

  lemma {:induction false} ShrMono(x: nat, y: nat, k: nat)
    requires x <= y
    ensures Shr(x, k) <= Shr(y, k)
    decreases k
  {
    if k > 0 {
      ShrMono(x / 2, y / 2, k - 1);
    }
  }

  lemma KeysInOrder(lens: seq<nat>, s: nat, t: nat)
    requires Lengths(lens) && Long(lens, s) && Long(lens, t) && Rank(lens, s) <= Rank(lens, t)
    ensures Key(lens, s) <= Key(lens, t)
  {
    KeyOfStart(lens, s);
    KeyOfStart(lens, t);
    if s != t {
      if Before(lens, t, s) { RankOrder(lens, t, s); }
      IntervalsInOrder(lens, s, t);
      ShrMono(Start(lens, s), Start(lens, t), 6);
    }
  }

  /** No code is a prefix of a later one. */
  lemma NotAPrefix(lens: seq<nat>, s: nat, t: nat)
    requires Lengths(lens) && Coded(lens, s) && Coded(lens, t) && Rank(lens, s) < Rank(lens, t)
    ensures lens[s] <= lens[t]
    ensures Shr(Code(lens, t), lens[t] - lens[s]) != Code(lens, s)
  {
    if Before(lens, t, s) { RankOrder(lens, t, s); }
    IntervalsInOrder(lens, s, t);
    CodeStart(lens, s);
    CodeStart(lens, t);
    if Shr(Code(lens, t), lens[t] - lens[s]) == Code(lens, s) {
      ShlNested(Code(lens, t), Code(lens, s), lens[t] - lens[s], 15 - lens[t]);
    }
  }

  // ---------------- How many slots a table needs

  /** The longest code with key k among the first n symbols; 0 if there is none. */
  function Longest(lens: seq<nat>, k: nat, n: nat): nat
    requires n <= |lens|
  {
    if n == 0 then 0
    else
      var rest := Longest(lens, k, n - 1);
      if Long(lens, n - 1) && Key(lens, n - 1) == k && lens[n - 1] > rest then lens[n - 1] else rest
  }

  function SlotsFor(lens: seq<nat>, k: nat): nat
  {
    var longest := Longest(lens, k, |lens|);
    if longest <= ROOT_BITS then 0 else Pow2(longest - ROOT_BITS)
  }

  /** The root table and the sub-tables of the keys below n. */
  function Used(lens: seq<nat>, n: nat): nat
  {
    if n == 0 then 512 else Used(lens, n - 1) + SlotsFor(lens, n - 1)
  }

  /** How many entries the two-level table has. */
  function SlotsNeeded(lens: seq<nat>): nat { Used(lens, 512) }

  lemma {:induction false} LongestIsMaximum(lens: seq<nat>, k: nat, n: nat)
    requires n <= |lens|
    ensures forall s: nat | s < n && Long(lens, s) && Key(lens, s) == k :: lens[s] <= Longest(lens, k, n)
    ensures Longest(lens, k, n) > 0 ==>
              exists s: nat :: s < n && Long(lens, s) && Key(lens, s) == k && lens[s] == Longest(lens, k, n)
  {
    if n > 0 {
      LongestIsMaximum(lens, k, n - 1);
      if Long(lens, n - 1) && Key(lens, n - 1) == k && lens[n - 1] > Longest(lens, k, n - 1) {
        assert lens[n - 1] == Longest(lens, k, n);
      }
    }
  }

  /** A bound that is attained is the number of slots. */
  lemma SlotsOfKey(lens: seq<nat>, s: nat, j: nat)
    requires Long(lens, s) && lens[s] == j
    requires forall t: nat | Long(lens, t) && Key(lens, t) == Key(lens, s) :: lens[t] <= j
    ensures SlotsFor(lens, Key(lens, s)) == Pow2(j - ROOT_BITS)
  {
    LongestIsMaximum(lens, Key(lens, s), |lens|);
  }

  lemma {:induction false} UsedMono(lens: seq<nat>, m: nat, n: nat)
    requires m <= n
    ensures Used(lens, m) <= Used(lens, n)
    decreases n
  {
    if m < n { UsedMono(lens, m, n - 1); }
  }

  lemma {:induction false} UsedFlat(lens: seq<nat>, m: nat, n: nat)
    requires m <= n
    requires forall s: nat | Long(lens, s) :: !(m <= Key(lens, s) < n)
    ensures Used(lens, m) == Used(lens, n)
    decreases n
  {
    if m < n {
      LongestIsMaximum(lens, n - 1, |lens|);
      UsedFlat(lens, m, n - 1);
    }
  }
}
