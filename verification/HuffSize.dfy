/** How large the two-level table of init_huff can get: 1234 entries are "big enough"
    (std/deflate/decode_deflate.wuffs:94-96).

    In canonical order the intervals of a complete code tile [0, 2^15), and lengths only grow. So the
    sub-table of a key is as wide as the last code of that key is long. If all codes of the key have
    that length, there is one code for every slot. Otherwise the length grows within the key, which
    can happen only five times, and costs at most 64 slots each time. */
module HuffSize {
  import opened Bits
  import opened Codes
  import opened HuffSort
  import opened HuffKeys

  // ---------------- Points of a complete code

  /** The symbol whose interval a point lies in. */
  lemma SymbolAt(lens: seq<nat>, p: nat) returns (s: nat)
    requires Complete(lens) && p < 32768
    ensures Coded(lens, s) && Start(lens, s) <= p < Start(lens, s) + Width(lens, s)
  {
    hide Area, Start, Width;
    KraftIsArea(lens);
    Pow2Large();
    s := PointHasSymbol(lens, p, MAX_LENGTH + 1);
  }

  /** Whoever covers the earlier point comes first. */
  lemma PointsInOrder(lens: seq<nat>, s: nat, t: nat)
    requires Lengths(lens) && Coded(lens, s) && Coded(lens, t)
    requires Start(lens, s) < Start(lens, t) + Width(lens, t) && s != t && Start(lens, s) <= Start(lens, t)
    ensures Before(lens, s, t) && lens[s] <= lens[t] && Rank(lens, s) < Rank(lens, t)
  {
    hide Start, Width, Rank;
    WidthPositive(lens, s);
    if Before(lens, t, s) {
      WidthPositive(lens, t);
      IntervalsInOrder(lens, t, s);
    }
    RankOrder(lens, s, t);
  }

  lemma WidthPositive(lens: seq<nat>, s: nat)
    requires Lengths(lens) && s < |lens|
    ensures Width(lens, s) > 0
  {
  }

  /** A short code covers whole keys. */
  lemma ShortAligned(lens: seq<nat>, s: nat, k: nat)
    requires Lengths(lens) && Coded(lens, s) && lens[s] <= ROOT_BITS
    ensures Start(lens, s) <= 64 * k <==> Start(lens, s) < 64 * k + 64
    ensures 64 * k < Start(lens, s) + Width(lens, s) <==> 64 * k + 64 <= Start(lens, s) + Width(lens, s)
  {
    hide Start, Code;
    var d := ROOT_BITS - lens[s];
    CodeStart(lens, s);
    ShlShl(Code(lens, s), d, 6);
    ShlIsMul(Shl(Code(lens, s), d), 6);
    Pow2Add(d, 6);
    Pow2Values();
    var a, w := Shl(Code(lens, s), d), Pow2(d);
    assert Start(lens, s) == 64 * a && Width(lens, s) == 64 * w;
  }

  /** The symbols that cover the first and the last point of a key with a long code lie within the key. */
  lemma LongAligned(lens: seq<nat>, s: nat, k: nat)
    requires Lengths(lens) && Long(lens, s)
    requires Start(lens, s) < 64 * k + 64 && 64 * k < Start(lens, s) + Width(lens, s)
    ensures Key(lens, s) == k && 64 * k <= Start(lens, s) && Start(lens, s) + Width(lens, s) <= 64 * k + 64
  {
    hide Start, Width, Key;
    KeyOfStart(lens, s);
    ShlIsMul(Key(lens, s), 6);
    Pow2Values();
  }

  // ---------------- The slots of one key

  /** The last code of a key is the longest. */
  lemma SlotsOfLast(lens: seq<nat>, e: nat)
    requires Lengths(lens) && Long(lens, e)
    requires Start(lens, e) + Width(lens, e) == 64 * Key(lens, e) + 64
    ensures SlotsFor(lens, Key(lens, e)) == Pow2(lens[e] - ROOT_BITS)
  {
    hide Start, Width, Key, SlotsFor, Rank;
    forall t: nat | Long(lens, t) && Key(lens, t) == Key(lens, e)
      ensures lens[t] <= lens[e]
    {
      KeyOfStart(lens, t);
      ShlIsMul(Key(lens, t), 6);
      Pow2Values();
      if lens[t] > lens[e] {
        WidthPositive(lens, t);
        IntervalsInOrder(lens, e, t);
      }
    }
    SlotsOfKey(lens, e, lens[e]);
  }

  /** A key whose codes all have one length has a code for every slot. */
  lemma OneLength(lens: seq<nat>, f: nat, e: nat, k: nat)
    requires Lengths(lens) && Long(lens, f) && Coded(lens, e) && lens[f] == lens[e]
    requires Start(lens, f) == 64 * k && Start(lens, e) + Width(lens, e) == 64 * k + 64
    ensures Rank(lens, e) + 1 == Rank(lens, f) + Pow2(lens[e] - ROOT_BITS)
  {
    hide Area, Count, Offset, Pow2;
    var l := lens[e];
    var i, j := Count(lens[..f], l), Count(lens[..e], l);
    ShlIsMul(i, MAX_LENGTH - l);
    ShlIsMul(j, MAX_LENGTH - l);
    Pow2Add(l - ROOT_BITS, MAX_LENGTH - l);
    Pow2Values();
    Cancels(i, j, Pow2(l - ROOT_BITS), Pow2(MAX_LENGTH - l));
  }

  lemma Cancels(i: int, j: int, n: int, w: int)
    requires w > 0 && j * w + w == i * w + n * w
    ensures j + 1 == i + n
  {
    MulAdd(j, 1, w);
    MulAdd(i, n, w);
    QuotientUnique(w, j + 1, 0, i + n, 0);
  }

  lemma MulAdd(a: int, b: int, w: int)
    ensures (a + b) * w == a * w + b * w
  {
  }

  // ---------------- The slots of all keys

  /** The allowance for lengths that grow within a key. */
  function Rises(l: nat): nat { if l <= ROOT_BITS + 1 then 0 else l - (ROOT_BITS + 1) }

  /** The first symbol of a key that has a long code. */
  lemma FirstOfKey(lens: seq<nat>, k: nat, e: nat) returns (f: nat)
    requires Complete(lens) && Long(lens, e) && k < 512
    requires 64 * k <= Start(lens, e) && Start(lens, e) + Width(lens, e) == 64 * k + 64
    ensures Long(lens, f) && Start(lens, f) == 64 * k && lens[f] <= lens[e]
    ensures f == e || Rank(lens, f) < Rank(lens, e)
  {
    hide Start, Width, Rank, KraftSum;
    f := SymbolAt(lens, 64 * k);
    WidthPositive(lens, e);
    if f != e {
      PointsInOrder(lens, f, e);
      if lens[f] <= ROOT_BITS {
        ShortAligned(lens, f, k);
        IntervalsInOrder(lens, f, e);
      }
    }
    LongAligned(lens, f, k);
  }

  /** The codes of a key pay for its slots, unless the length grows. */
  lemma KeyPaid(lens: seq<nat>, k: nat, f: nat, e: nat)
    requires Lengths(lens) && Long(lens, f) && Coded(lens, e) && lens[f] <= lens[e]
    requires f == e || Rank(lens, f) < Rank(lens, e)
    requires Start(lens, f) == 64 * k && Start(lens, e) + Width(lens, e) == 64 * k + 64
    ensures Rank(lens, f) + Pow2(lens[e] - ROOT_BITS) + 64 * Rises(lens[f]) <= Rank(lens, e) + 1 + 64 * Rises(lens[e])
  {
    hide Start, Width, Rank, Pow2;
    if lens[f] == lens[e] {
      OneLength(lens, f, e, k);
    } else {
      Pow2Mono(lens[e] - ROOT_BITS, 6);
      Pow2Values();
    }
  }

  lemma NoneLongBefore(lens: seq<nat>, k: nat, e: nat)
    requires Lengths(lens) && Coded(lens, e) && lens[e] <= ROOT_BITS && 64 * k <= Start(lens, e) + Width(lens, e)
    ensures Used(lens, k) == 512
  {
    hide Start, Width, Key, SlotsFor;
    forall s: nat | Long(lens, s)
      ensures !(0 <= Key(lens, s) < k)
    {
      IntervalsInOrder(lens, e, s);
      WidthPositive(lens, s);
      KeyOfStart(lens, s);
      ShlIsMul(Key(lens, s), 6);
      Pow2Values();
    }
    UsedFlat(lens, 0, k);
  }

  /** The table for the keys below k, if e is the last symbol of these keys. */
  lemma {:induction false} UsedBound(lens: seq<nat>, k: nat, e: nat)
    requires Complete(lens) && Coded(lens, e) && 0 < k <= 512
    requires Start(lens, e) < 64 * k <= Start(lens, e) + Width(lens, e)
    ensures Used(lens, k) <= 512 + Rank(lens, e) + 1 + 64 * Rises(lens[e])
    decreases k
  {
    hide Start, Width, Rank, Key, SlotsFor, KraftSum;
    if lens[e] <= ROOT_BITS {
      NoneLongBefore(lens, k, e);
    } else {
      LongAligned(lens, e, k - 1);
      SlotsOfLast(lens, e);
      var f := FirstOfKey(lens, k - 1, e);
      KeyPaid(lens, k - 1, f, e);
      if k > 1 {
        var e' := SymbolAt(lens, 64 * k - 65);
        UsedBound(lens, k - 1, e');
        WidthPositive(lens, f);
        PointsInOrder(lens, e', f);
      }
    }
  }

  /** Beyond the root table, a complete code needs at most one entry for every code and five of the
      largest sub-tables. */
  lemma SlotsSuffice(lens: seq<nat>)
    requires Complete(lens)
    ensures SlotsNeeded(lens) <= 512 + NumCoded(lens) + 5 * 64
  {
    hide Start, Width, Rank, KraftSum, Used;
    var e := SymbolAt(lens, 32767);
    UsedBound(lens, 512, e);
    RankInBand(lens, e);
  }

  // ---------------- Short codes

  lemma {:induction false} KraftOfLong(lens: seq<nat>)
    requires Lengths(lens) && forall s: nat | Coded(lens, s) :: lens[s] > ROOT_BITS
    ensures KraftSum(lens) <= 32 * |lens|
  {
    if lens != [] {
      var init, l := lens[..|lens| - 1], lens[|lens| - 1];
      forall s: nat | Coded(init, s)
        ensures init[s] > ROOT_BITS
      {
        assert Coded(lens, s);
      }
      KraftOfLong(init);
      assert l > 0 ==> Coded(lens, |lens| - 1);
      if l > 0 {
        Pow2Mono(MAX_LENGTH - l, 5);
        Pow2Values();
      }
    }
  }

  /** A complete code of fewer than 1024 symbols has a code of at most nine bits. */
  lemma ShortExists(lens: seq<nat>)
    requires Complete(lens) && |lens| < 1024
    ensures exists s: nat :: Coded(lens, s) && lens[s] <= ROOT_BITS
  {
    hide KraftSum;
    if forall s: nat | Coded(lens, s) :: lens[s] > ROOT_BITS {
      KraftOfLong(lens);
      Pow2Large();
    }
  }
}
