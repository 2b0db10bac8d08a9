/** The first half of init_huff (gen/c/std/deflate.c): counting code lengths, checking the
    subscription, and sorting the symbols into canonical order. */
module HuffSort {
  import opened Bits
  import opened Codes

  const MAX_CODES := 320

  datatype Status =
    | Ok
    | NoHuffmanCodes
    | OverSubscribed
    | UnderSubscribed
    | BadMinimumCodeLength
    | InconsistentDecoderState

  // ---------------- Counting

  /** The counts array: how many of the first n codes have each length. */
  ghost predicate Counts(counts: seq<nat>, lens: seq<nat>)
  {
    |counts| == MAX_LENGTH + 1 && forall l | 0 <= l <= MAX_LENGTH :: counts[l] == Count(lens, l)
  }

  method CountLengths(lens: seq<nat>) returns (counts: seq<nat>, status: Status)
    requires Lengths(lens) && |lens| <= MAX_CODES
    ensures status == Ok
    ensures Counts(counts, lens)
  {
    counts := seq(MAX_LENGTH + 1, _ => 0);
    status := Ok;
    var i := 0;
    while i < |lens|
      invariant 0 <= i <= |lens|
      invariant Counts(counts, lens[..i])
    {
      assert lens[..i + 1][..i] == lens[..i];
      if counts[lens[i]] >= MAX_CODES {
        status := InconsistentDecoderState;
        return;
      }
      counts := counts[lens[i] := counts[lens[i]] + 1];
      i := i + 1;
    }
    assert lens[..i] == lens;
  }

  lemma {:induction false} AllZero(lens: seq<nat>)
    ensures Count(lens, 0) == |lens| <==> forall s | 0 <= s < |lens| :: lens[s] == 0
  {
    if lens != [] {
      AllZero(lens[..|lens| - 1]);
    }
  }

  // ---------------- Subscription

  /** The subscription loop: exact for the Kraft sum. */
  method CheckSubscription(counts: seq<nat>, ghost lens: seq<nat>) returns (status: Status)
    requires Lengths(lens) && Counts(counts, lens)
    ensures status in {Ok, OverSubscribed, UnderSubscribed}
    ensures status == OverSubscribed <==> KraftSum(lens) > Pow2(MAX_LENGTH)
    ensures status == UnderSubscribed <==> KraftSum(lens) < Pow2(MAX_LENGTH)
    ensures status == Ok <==> Complete(lens)
  {
    hide Count, Area, Pow2, KraftSum;
    var remaining: nat := 1;
    var i := 1;
    SubscriptionStart(lens);
    while i <= MAX_LENGTH
      invariant 1 <= i <= MAX_LENGTH + 1
      invariant Unused(lens, i, remaining)
    {
      UnusedBound(lens, i, remaining);
      if remaining > 1073741824 {
        status := InconsistentDecoderState;
        return;
      }
      SubscriptionStep(lens, i, remaining);
      remaining := remaining * 2;
      if remaining < counts[i] {
        AreaMono(lens, i + 1, MAX_LENGTH + 1);
        KraftIsArea(lens);
        status := OverSubscribed;
        return;
      }
      remaining := remaining - counts[i];
      i := i + 1;
    }
    KraftIsArea(lens);
    status := if remaining != 0 then UnderSubscribed else Ok;
  }

  /** remaining codes of length i - 1 are not yet used by shorter codes. */
  ghost predicate Unused(lens: seq<nat>, i: nat, remaining: nat)
    requires 1 <= i <= MAX_LENGTH + 1
  {
    Shl(remaining, MAX_LENGTH - (i - 1)) + Area(lens, i) == Pow2(MAX_LENGTH)
  }

  lemma SubscriptionStart(lens: seq<nat>)
    ensures Unused(lens, 1, 1)
  {
    ShlOne(MAX_LENGTH);
  }

  lemma {:induction false} ShlGrows(x: nat, k: nat)
    ensures x <= Shl(x, k)
  {
    if k > 0 {
      ShlGrows(x, k - 1);
    }
  }

  lemma UnusedBound(lens: seq<nat>, i: nat, remaining: nat)
    requires 1 <= i <= MAX_LENGTH + 1 && Unused(lens, i, remaining)
    ensures remaining <= 32768
  {
    ShlGrows(remaining, MAX_LENGTH - (i - 1));
    assert Pow2(MAX_LENGTH) == 32768;
  }

  lemma SubscriptionStep(lens: seq<nat>, i: nat, remaining: nat)
    requires 1 <= i <= MAX_LENGTH && Unused(lens, i, remaining)
    ensures remaining * 2 < Count(lens, i) ==> Area(lens, i + 1) > Pow2(MAX_LENGTH)
    ensures Count(lens, i) <= remaining * 2 ==> Unused(lens, i + 1, remaining * 2 - Count(lens, i))
  {
    var k, c := MAX_LENGTH - i, Count(lens, i);
    ShlAdd(remaining, remaining, k);
    if remaining * 2 < c {
      ShlMono(remaining * 2, c, k);
    } else {
      ShlAdd(remaining * 2 - c, c, k);
    }
  }

  // ---------------- Offsets

  /** How many symbols have a code shorter than l. */
  function Offset(lens: seq<nat>, l: nat): nat
  {
    if l <= 1 then 0 else Offset(lens, l - 1) + Count(lens, l - 1)
  }

  /** The position of s in canonical order. */
  function Rank(lens: seq<nat>, s: nat): nat
    requires s < |lens|
  {
    Offset(lens, lens[s]) + Count(lens[..s], lens[s])
  }

  function NumCoded(lens: seq<nat>): nat { Offset(lens, MAX_LENGTH + 1) }

  lemma {:induction false} OffsetMono(lens: seq<nat>, l: nat, m: nat)
    requires l <= m
    ensures Offset(lens, l) <= Offset(lens, m)
  {
    if l < m {
      OffsetMono(lens, l, m - 1);
    }
  }

  lemma {:induction false} OffsetOfAppended(lens: seq<nat>, l: nat)
    requires lens != []
    ensures Offset(lens, l) == Offset(lens[..|lens| - 1], l) + if 0 < lens[|lens| - 1] < l then 1 else 0
  {
    if l > 1 {
      OffsetOfAppended(lens, l - 1);
    }
  }

  lemma {:induction false} OffsetBound(lens: seq<nat>, l: nat)
    ensures Offset(lens, l) <= |lens|
    decreases |lens|, l
  {
    if lens == [] {
      if l > 1 { OffsetBound(lens, l - 1); }
    } else {
      OffsetOfAppended(lens, l);
      OffsetBound(lens[..|lens| - 1], l);
    }
  }

  lemma RankInBand(lens: seq<nat>, s: nat)
    requires Coded(lens, s) && Lengths(lens)
    ensures Offset(lens, lens[s]) <= Rank(lens, s) < Offset(lens, lens[s] + 1) <= NumCoded(lens)
  {
    CountBefore(lens, s);
    OffsetMono(lens, lens[s] + 1, MAX_LENGTH + 1);
  }

  /** Ranks follow canonical order, so different symbols have different ranks. */
  lemma RankOrder(lens: seq<nat>, s: nat, t: nat)
    requires Coded(lens, s) && Coded(lens, t) && Lengths(lens) && Before(lens, s, t)
    ensures Rank(lens, s) < Rank(lens, t)
  {
    if lens[s] < lens[t] {
      RankInBand(lens, s);
      RankInBand(lens, t);
      OffsetMono(lens, lens[s] + 1, lens[t]);
    } else {
      CountPrefix(lens, s, t, lens[s]);
    }
  }

  lemma {:induction false} RankOnto(lens: seq<nat>, k: nat, l: nat) returns (s: nat)
    requires Lengths(lens) && l <= MAX_LENGTH + 1 && k < Offset(lens, l)
    ensures Coded(lens, s) && Rank(lens, s) == k
  {
    if k < Offset(lens, l - 1) {
      s := RankOnto(lens, k, l - 1);
    } else {
      s := NthOfLength(lens, l - 1, k - Offset(lens, l - 1));
    }
  }

  ghost predicate Offsets(offsets: seq<nat>, lens: seq<nat>, done: seq<nat>)
  {
    |offsets| == MAX_LENGTH + 1 &&
    forall l | 1 <= l <= MAX_LENGTH :: offsets[l] == Offset(lens, l) + Count(done, l)
  }

  method ComputeOffsets(counts: seq<nat>, ghost lens: seq<nat>)
    returns (offsets: seq<nat>, nSymbols: nat, status: Status)
    requires Counts(counts, lens) && |lens| <= MAX_CODES
    ensures status == if NumCoded(lens) > 288 then InconsistentDecoderState else Ok
    ensures Offsets(offsets, lens, [])
    ensures nSymbols == NumCoded(lens)
  {
    offsets := seq(MAX_LENGTH + 1, _ => 0);
    nSymbols := 0;
    status := Ok;
    var i := 1;
    while i <= MAX_LENGTH
      invariant 1 <= i <= MAX_LENGTH + 1
      invariant nSymbols == Offset(lens, i)
      invariant |offsets| == MAX_LENGTH + 1
      invariant forall l | 1 <= l < i :: offsets[l] == Offset(lens, l)
    {
      OffsetBound(lens, i + 1);
      offsets := offsets[i := nSymbols];
      var count := counts[i];
      if nSymbols > MAX_CODES - count {
        status := InconsistentDecoderState;
        return;
      }
      nSymbols := nSymbols + count;
      i := i + 1;
    }
    if nSymbols > 288 {
      status := InconsistentDecoderState;
    }
  }

  // ---------------- Sorting

  /** The first n entries of symbols are the coded symbols in canonical order. */
  ghost predicate Sorted(symbols: seq<nat>, lens: seq<nat>)
  {
    && NumCoded(lens) <= |symbols|
    && (forall k | 0 <= k < NumCoded(lens) :: Coded(lens, symbols[k]) && Rank(lens, symbols[k]) == k)
    && (forall s {:trigger symbols[Rank(lens, s)]} | Coded(lens, s) ::
          Rank(lens, s) < NumCoded(lens) && symbols[Rank(lens, s)] == s)
  }

  method SortSymbols(lens: seq<nat>, offsets0: seq<nat>)
    returns (symbols: seq<nat>, offsets: seq<nat>, status: Status)
    requires Lengths(lens) && |lens| <= MAX_CODES
    requires Offsets(offsets0, lens, [])
    ensures status == Ok
    ensures |symbols| == MAX_CODES && Sorted(symbols, lens)
    ensures Offsets(offsets, lens, lens)
  {
    offsets := offsets0;
    symbols := seq(MAX_CODES, _ => 0);
    status := Ok;
    OffsetBound(lens, MAX_LENGTH + 1);
    var i := 0;
    while i < |lens|
      invariant 0 <= i <= |lens| && |symbols| == MAX_CODES
      invariant Offsets(offsets, lens, lens[..i])
      invariant Placed(symbols, lens, i)
    {
      assert lens[..i + 1][..i] == lens[..i];
      if lens[i] != 0 {
        RankInBand(lens, i);
        assert offsets[lens[i]] == Rank(lens, i);
        if offsets[lens[i]] >= MAX_CODES {
          status := InconsistentDecoderState;
          return;
        }
        PlaceNext(symbols, lens, i);
        symbols := symbols[offsets[lens[i]] := i];
        offsets := offsets[lens[i] := offsets[lens[i]] + 1];
      }
      i := i + 1;
    }
    assert lens[..i] == lens;
    PlacedIsSorted(symbols, lens);
  }

  /** The coded symbols below i are where their ranks say. */
  ghost predicate Placed(symbols: seq<nat>, lens: seq<nat>, i: nat)
    requires i <= |lens|
  {
    forall s | Coded(lens, s) && s < i :: Rank(lens, s) < |symbols| && symbols[Rank(lens, s)] == s
  }

  lemma PlaceNext(symbols: seq<nat>, lens: seq<nat>, i: nat)
    requires Lengths(lens) && Coded(lens, i) && Rank(lens, i) < |symbols|
    requires Placed(symbols, lens, i)
    ensures Placed(symbols[Rank(lens, i) := i], lens, i + 1)
  {
    forall s | Coded(lens, s) && s < i
      ensures Rank(lens, s) != Rank(lens, i)
    {
      if Before(lens, s, i) { RankOrder(lens, s, i); } else { RankOrder(lens, i, s); }
    }
  }

  lemma PlacedIsSorted(symbols: seq<nat>, lens: seq<nat>)
    requires Lengths(lens) && NumCoded(lens) <= |symbols| && Placed(symbols, lens, |lens|)
    ensures Sorted(symbols, lens)
  {
    forall k | 0 <= k < NumCoded(lens)
      ensures Coded(lens, symbols[k]) && Rank(lens, symbols[k]) == k
    {
      var s := RankOnto(lens, k, MAX_LENGTH + 1);
    }
    forall s | Coded(lens, s) ensures Rank(lens, s) < NumCoded(lens) { RankInBand(lens, s); }
  }

  // ---------------- Neighbours in canonical order

  /** What it means for t to follow s immediately. */
  ghost predicate Follows(lens: seq<nat>, s: nat, t: nat)
  {
    && Coded(lens, s) && Coded(lens, t)
    && if lens[s] == lens[t] then Count(lens[..t], lens[t]) == Count(lens[..s], lens[t]) + 1
       else
         && lens[s] < lens[t]
         && Count(lens[..t], lens[t]) == 0
         && Count(lens[..s], lens[s]) + 1 == Count(lens, lens[s])
         && forall m | lens[s] < m < lens[t] :: Count(lens, m) == 0
  }

  lemma {:induction false} NoneBetween(lens: seq<nat>, l: nat, m: nat)
    requires 1 <= l <= m && Offset(lens, l) == Offset(lens, m)
    ensures forall n | l <= n < m :: Count(lens, n) == 0
  {
    if l < m {
      OffsetMono(lens, l, m - 1);
      NoneBetween(lens, l, m - 1);
    }
  }

  lemma NextInOrder(lens: seq<nat>, s: nat, t: nat)
    requires Lengths(lens) && Coded(lens, s) && Coded(lens, t)
    requires Rank(lens, t) == Rank(lens, s) + 1
    ensures Follows(lens, s, t)
  {
    if Before(lens, t, s) { RankOrder(lens, t, s); }
    if lens[s] < lens[t] {
      RankInBand(lens, s);
      RankInBand(lens, t);
      OffsetMono(lens, lens[s] + 1, lens[t]);
      NoneBetween(lens, lens[s] + 1, lens[t]);
    }
  }

  lemma {:induction false} AreaUnchanged(lens: seq<nat>, l: nat, m: nat)
    requires 1 <= l <= m <= MAX_LENGTH + 1
    requires forall n | l <= n < m :: Count(lens, n) == 0
    ensures Area(lens, l) == Area(lens, m)
  {
    if l < m {
      AreaUnchanged(lens, l, m - 1);
      ShlAdd(0, 0, MAX_LENGTH - (m - 1));
    }
  }

  /** Neighbours in canonical order are neighbours in code space. */
  lemma FollowsTouches(lens: seq<nat>, s: nat, t: nat)
    requires Lengths(lens) && Follows(lens, s, t)
    ensures Start(lens, t) == Start(lens, s) + Width(lens, s)
  {
    var k := MAX_LENGTH - lens[s];
    ShlAdd(Count(lens[..s], lens[s]), 1, k);
    ShlOne(k);
    if lens[s] < lens[t] {
      AreaUnchanged(lens, lens[s] + 1, lens[t]);
      ShlAdd(0, 0, MAX_LENGTH - lens[t]);
    }
  }

  lemma FirstStartsAtZero(lens: seq<nat>, s: nat)
    requires Lengths(lens) && Coded(lens, s) && Rank(lens, s) == 0
    ensures Start(lens, s) == 0
  {
    NoneBetween(lens, 1, lens[s]);
    AreaUnchanged(lens, 1, lens[s]);
    ShlAdd(0, 0, MAX_LENGTH - lens[s]);
  }

  lemma {:induction false} ShlInjective(x: nat, y: nat, k: nat)
    requires Shl(x, k) == Shl(y, k)
    ensures x == y
  {
    if k > 0 {
      ShlInjective(x, y, k - 1);
    }
  }

  /** The code increment: add one, then append zero bits up to the new length. */
  lemma NextCode(lens: seq<nat>, s: nat, t: nat)
    requires Lengths(lens) && Follows(lens, s, t)
    ensures lens[s] <= lens[t]
    ensures Code(lens, t) == Shl(Code(lens, s) + 1, lens[t] - lens[s])
  {
    FollowsTouches(lens, s, t);
    CodeStart(lens, s);
    CodeStart(lens, t);
    var k := MAX_LENGTH - lens[t];
    ShlAdd(Code(lens, s), 1, MAX_LENGTH - lens[s]);
    ShlOne(MAX_LENGTH - lens[s]);
    ShlShl(Code(lens, s) + 1, lens[t] - lens[s], k);
    ShlInjective(Code(lens, t), Shl(Code(lens, s) + 1, lens[t] - lens[s]), k);
  }

  lemma FirstCodeIsZero(lens: seq<nat>, s: nat)
    requires Lengths(lens) && Coded(lens, s) && Rank(lens, s) == 0
    ensures Code(lens, s) == 0
  {
    FirstStartsAtZero(lens, s);
    CodeStart(lens, s);
    ShlAdd(0, 0, MAX_LENGTH - lens[s]);
    ShlInjective(Code(lens, s), 0, MAX_LENGTH - lens[s]);
  }
}
