/** Bitwise interval arithmetic (lang/interval/interval.go, And and Or).

    The proofs reason about bit positions only. With `Droppable(a, b, q)` for "the interval [a, b]
    leaves room to clear bit q of b and set everything to its right", the two maximisers pick the
    leftmost useful position of that kind. Negative bounds occur because the minima are computed
    as the complement of a maximum over complemented intervals. */
module IntervalBitwise {
  import opened Bits
  import opened Interval

  // ---------------- Positions that may be flipped

  /** Some bit at q or further left is set in b and clear in a. */
  ghost predicate Droppable(a: int, b: int, q: nat)
  {
    exists r: nat :: q <= r && Bit(b, r) && !Bit(a, r)
  }

  /** m is b with bit k cleared and all bits to its right set. */
  ghost predicate FlippedAt(m: int, b: int, k: nat)
  {
    forall i: nat :: Bit(m, i) == if i > k then Bit(b, i) else i < k
  }

  function FlipAt(b: int, k: nat): int
  {
    Or(AndNot(b, Pow2(k + 1) - 1), Pow2(k) - 1)
  }

  lemma FlipAtBits(b: int, k: nat)
    ensures FlippedAt(FlipAt(b, k), b, k)
    ensures SameSign(FlipAt(b, k), b)
  {
    var u := AndNot(b, Pow2(k + 1) - 1);
    AndSign(b, Not(Pow2(k + 1) - 1));
    OrSign(u, Pow2(k) - 1);
    forall i: nat
      ensures Bit(FlipAt(b, k), i) == if i > k then Bit(b, i) else i < k
    {
      BitOr(u, Pow2(k) - 1, i);
      BitAndNot(b, Pow2(k + 1) - 1, i);
      BitMask(k + 1, i);
      BitMask(k, i);
    }
  }

  /** Flipping at a droppable position stays inside [a, b]. */
  lemma FlippedInRange(a: int, b: int, k: nat, m: int)
    requires a <= b && SameSign(a, b) && SameSign(m, b)
    requires Bit(b, k) && Droppable(a, b, k) && FlippedAt(m, b, k)
    ensures a <= m <= b
  {
    FirstDifferenceOrders(m, b, k);
    var r: nat :| k <= r && Bit(b, r) && !Bit(a, r);
    if m < a {
      var p := TopDifference(m, a);
      assert Bit(m, r) == if r > k then Bit(b, r) else r < k;
      if p > k {
        FirstDifferenceOrders(b, a, p);
      }
    }
  }

  /** An element below b first differs from it at a droppable position. */
  lemma BelowTop(a: int, b: int, xx: int) returns (q: nat)
    requires a <= xx < b && SameSign(a, b)
    ensures !Bit(xx, q) && Bit(b, q) && Droppable(a, b, q)
    ensures forall i: nat | q < i :: Bit(xx, i) == Bit(b, i)
  {
    q := TopDifference(xx, b);
    var p := TopDifference(a, b);
    if p < q {
      FirstDifferenceOrders(xx, a, q);
    }
  }

  // ---------------- bitFillRight

  const MAX_BITS := 0xFFFF

  /** What bitFillRight accepts: it panics on larger inputs. */
  predicate Fits(v: nat) { BitLen(v) <= MAX_BITS }

  /** Some bit of x at p or further left is set. */
  ghost predicate SetFrom(x: int, p: nat)
  {
    exists q: nat :: p <= q && Bit(x, q)
  }

  ghost predicate IsFilled(f: int, x: int)
  {
    forall p: nat :: Bit(f, p) == SetFrom(x, p)
  }

  /** Rounds up to a power of two minus one: every bit at or to the right of a set bit is set. */
  method BitFillRight(i: nat) returns (f: nat, panics: bool)
    ensures panics <==> !Fits(i)
    ensures !panics ==> IsFilled(f, i) && f == Pow2(BitLen(i)) - 1
  {
    f, panics := 0, false;
    if i != 0 {
      if BitLen(i) > MAX_BITS {
        panics := true;
        return;
      }
      f := 1;
      f := f * Pow2(BitLen(i));
      f := f - 1;
    }
    FilledMask(i);
  }

  lemma FilledMask(i: nat)
    ensures IsFilled(Pow2(BitLen(i)) - 1, i)
  {
    var n := BitLen(i);
    forall p: nat
      ensures Bit(Pow2(n) - 1, p) == SetFrom(i, p)
    {
      BitMask(n, p);
      if p < n {
        TopBit(i);
        assert p <= n - 1 && Bit(i, n - 1);
      } else {
        forall q: nat | p <= q ensures !Bit(i, q) { BitAtOrAbove(i, q); }
      }
    }
  }

  lemma SubsetFits(u: int, v: int)
    requires 0 <= u && 0 <= v
    requires forall i: nat :: Bit(u, i) ==> Bit(v, i)
    ensures BitLen(u) <= BitLen(v)
  {
    SubsetOrders(u, v);
    BitLenMono(u, v);
  }

  /** The bits of `b & ~a` for bounds of one sign. */
  lemma DroppedBits(a: int, b: int)
    requires SameSign(a, b)
    ensures 0 <= AndNot(b, a)
    ensures forall i: nat :: Bit(AndNot(b, a), i) == (Bit(b, i) && !Bit(a, i))
  {
    AndSign(b, Not(a));
    forall i: nat ensures Bit(AndNot(b, a), i) == (Bit(b, i) && !Bit(a, i)) { BitAndNot(b, a, i); }
  }

  /** The bounds differ in so many bits that bitFillRight panics. */
  predicate Wide(x: IntRange)
  {
    x.lo.Int? && x.hi.Int? && !Fits(Abs(AndNot(x.hi.v, x.lo.v)))
  }

  // ---------------- orMax

  ghost predicate Available(a: int, b: int, c: int, d: int, k: nat)
  {
    Bit(b, k) && Bit(d, k) && (Droppable(a, b, k) || Droppable(c, d, k))
  }

  ghost predicate AvailableLeftOf(a: int, b: int, c: int, d: int, i: nat)
  {
    exists k: nat :: i < k && Available(a, b, c, d, k)
  }

  /** The bits that orMax returns. */
  ghost predicate OrMaxBits(a: int, b: int, c: int, d: int, r: int)
  {
    forall i: nat :: Bit(r, i) == (Bit(b, i) || Bit(d, i) || AvailableLeftOf(a, b, c, d, i))
  }

  lemma AvailableIsSymmetric(a: int, b: int, c: int, d: int, r: int)
    requires OrMaxBits(a, b, c, d, r)
    ensures OrMaxBits(c, d, a, b, r)
    ensures forall k: nat :: Available(a, b, c, d, k) == Available(c, d, a, b, k)
  {
    forall k: nat ensures Available(a, b, c, d, k) == Available(c, d, a, b, k) {}
    forall i: nat ensures AvailableLeftOf(a, b, c, d, i) == AvailableLeftOf(c, d, a, b, i) {
      if AvailableLeftOf(a, b, c, d, i) {
        var k: nat :| i < k && Available(a, b, c, d, k);
        assert Available(c, d, a, b, k);
      }
      if AvailableLeftOf(c, d, a, b, i) {
        var k: nat :| i < k && Available(c, d, a, b, k);
        assert Available(a, b, c, d, k);
      }
    }
  }

  /** If xx has a bit that b lacks, and to its left `xx | yy` has all that `b | d` has,
      then something to its left was available. */
  lemma GainNeedsAvailable(a: int, b: int, c: int, d: int, xx: int, yy: int, p: nat)
    requires a <= xx <= b && c <= yy <= d
    requires SameSign(a, b) && SameSign(c, d)
    requires Bit(xx, p) && !Bit(b, p)
    requires forall i: nat | p < i && (Bit(b, i) || Bit(d, i)) :: Bit(xx, i) || Bit(yy, i)
    ensures AvailableLeftOf(a, b, c, d, p)
  {
    var q := BelowTop(a, b, xx);
    if Bit(d, q) {
      assert Available(a, b, c, d, q);
    } else {
      assert Bit(yy, q);
      var q' := BelowTop(c, d, yy);
      assert Available(a, b, c, d, q');
    }
  }

  lemma OrUpper(a: int, b: int, c: int, d: int, r: int, xx: int, yy: int)
    requires a <= xx <= b && c <= yy <= d
    requires SameSign(a, b) && SameSign(c, d) && SameSign(a, c) && SameSign(r, b)
    requires OrMaxBits(a, b, c, d, r)
    ensures Or(xx, yy) <= r
  {
    var z := Or(xx, yy);
    OrSign(xx, yy);
    if r < z {
      var p := TopDifference(r, z);
      forall i: nat ensures Bit(z, i) == (Bit(xx, i) || Bit(yy, i)) { BitOr(xx, yy, i); }
      if Bit(xx, p) {
        GainNeedsAvailable(a, b, c, d, xx, yy, p);
      } else {
        AvailableIsSymmetric(a, b, c, d, r);
        GainNeedsAvailable(c, d, a, b, yy, xx, p);
      }
    }
  }

  /** Dropping the leftmost available bit k on the first side attains the maximum. */
  lemma OrAttained(a: int, b: int, c: int, d: int, r: int, k: nat)
    requires a <= b && c <= d
    requires SameSign(a, b) && SameSign(c, d) && SameSign(a, c)
    requires OrMaxBits(a, b, c, d, r)
    requires Bit(b, k) && Bit(d, k) && Droppable(a, b, k)
    requires forall j: nat | k < j :: !Available(a, b, c, d, j)
    ensures a <= FlipAt(b, k) <= b && Or(FlipAt(b, k), d) == r
  {
    hide And, Bit;
    var m := FlipAt(b, k);
    FlipAtBits(b, k);
    FlippedInRange(a, b, k, m);
    assert Available(a, b, c, d, k);
    forall i: nat ensures Bit(Or(m, d), i) == Bit(r, i) { BitOr(m, d, i); }
    BitsExt(Or(m, d), r);
  }

  ghost predicate IsMaximum(op: Op, x: IntRange, y: IntRange, r: int)
  {
    r in Values(op, x, y) && BoundedAbove(Values(op, x, y), r)
  }

  /** Both bounds finite, the interval not empty, no sign change. */
  predicate Operand(x: IntRange)
  {
    x.lo.Int? && x.hi.Int? && x.lo.v <= x.hi.v && SameSign(x.lo.v, x.hi.v)
  }

  lemma OrMaximum(x: IntRange, y: IntRange, r: int, avail: nat)
    requires Operand(x) && Operand(y) && SameSign(x.lo.v, y.lo.v) && SameSign(r, x.lo.v)
    requires forall i: nat :: Bit(avail, i) == Available(x.lo.v, x.hi.v, y.lo.v, y.hi.v, i)
    requires OrMaxBits(x.lo.v, x.hi.v, y.lo.v, y.hi.v, r)
    ensures IsMaximum(OpOr, x, y, r)
  {
    var a, b, c, d := x.lo.v, x.hi.v, y.lo.v, y.hi.v;
    forall xx, yy | x.Contains(xx) && y.Contains(yy) ensures Or(xx, yy) <= r { OrUpper(a, b, c, d, r, xx, yy); }
    if avail == 0 {
      forall i: nat ensures Bit(Or(b, d), i) == Bit(r, i) {
        BitOr(b, d, i);
        forall k: nat ensures !Available(a, b, c, d, k) { BitOfSign(k); assert !Bit(avail, k); }
      }
      BitsExt(Or(b, d), r);
      InValues(OpOr, x, y, b, d);
    } else {
      var k := BitLen(avail) - 1;
      TopBit(avail);
      assert Available(a, b, c, d, k);
      forall j: nat | k < j ensures !Available(a, b, c, d, j) { BitAtOrAbove(avail, j); }
      if Droppable(a, b, k) {
        OrAttained(a, b, c, d, r, k);
        InValues(OpOr, x, y, FlipAt(b, k), d);
      } else {
        AvailableIsSymmetric(a, b, c, d, r);
        OrAttained(c, d, a, b, r, k);
        OrCommutes(b, FlipAt(d, k));
        InValues(OpOr, x, y, b, FlipAt(d, k));
      }
    }
  }

  /** The positions that may be dropped on either side. */
  method DroppableBits(x: IntRange, y: IntRange) returns (j: nat, panics: bool)
    requires Operand(x) && Operand(y)
    ensures panics <==> Wide(x) || Wide(y)
    ensures !panics ==> Fits(j)
    ensures !panics ==>
              forall k: nat :: Bit(j, k) <==> Droppable(x.lo.v, x.hi.v, k) || Droppable(y.lo.v, y.hi.v, k)
  {
    var i := AndNot(x.hi.v, x.lo.v);
    var u := AndNot(y.hi.v, y.lo.v);
    DroppedBits(x.lo.v, x.hi.v);
    DroppedBits(y.lo.v, y.hi.v);
    UnionFits(u, i);
    var v := Or(u, i);
    forall n: nat ensures Bit(v, n) == (Bit(u, n) || Bit(i, n)) { BitOr(u, i, n); }
    j, panics := BitFillRight(v);
    if panics {
      return;
    }
    MaskFits(BitLen(v));
    forall k: nat ensures Bit(j, k) <==> Droppable(x.lo.v, x.hi.v, k) || Droppable(y.lo.v, y.hi.v, k) {
      assert Bit(j, k) == SetFrom(v, k);
    }
  }

  lemma {:induction false} MaskFits(n: nat)
    ensures BitLen(Pow2(n) - 1) == n
  {
    if n > 0 {
      assert (Pow2(n) - 1) / 2 == Pow2(n - 1) - 1;
      MaskFits(n - 1);
    }
  }

  /** When orMax panics. */
  predicate OrMaxPanics(x: IntRange, y: IntRange)
    requires Operand(x) && Operand(y)
  {
    if x.lo.v == 0 && y.lo.v == 0 then !Fits(Abs(And(x.hi.v, y.hi.v))) else Wide(x) || Wide(y)
  }

  /** The largest `xx | yy` for xx in x and yy in y. */
  method OrMax(x: IntRange, y: IntRange) returns (r: int, panics: bool)
    requires Operand(x) && Operand(y) && SameSign(x.lo.v, y.lo.v)
    ensures panics <==> OrMaxPanics(x, y)
    ensures !panics ==> IsMaximum(OpOr, x, y, r)
  {
    r := 0;
    var j: nat;
    if x.lo.v == 0 && y.lo.v == 0 {
      AvailableFromZero(x.hi.v, y.hi.v);
      j := And(x.hi.v, y.hi.v);
    } else {
      j, panics := DroppableBits(x, y);
      if panics {
        return;
      }
      j := AvailableBits(x, y, j);
    }
    ghost var avail := j;
    j, panics := BitFillRight(j);
    if panics {
      return;
    }
    FillShifted(j, avail);
    j := j / 2;
    r := Or(Or(j, x.hi.v), y.hi.v);
    OrSign(j, x.hi.v);
    OrSign(Or(j, x.hi.v), y.hi.v);
    ResultBits(x, y, avail, j);
    OrMaximum(x, y, r, avail);
  }

  lemma AvailableFromZero(b: nat, d: nat)
    ensures 0 <= And(b, d)
    ensures forall i: nat :: Bit(And(b, d), i) == Available(0, b, 0, d, i)
  {
    AndSign(b, d);
    forall i: nat ensures Bit(And(b, d), i) == Available(0, b, 0, d, i) {
      BitAnd(b, d, i);
      BitOfSign(i);
    }
  }

  lemma ResultBits(x: IntRange, y: IntRange, avail: nat, j: nat)
    requires Operand(x) && Operand(y)
    requires forall i: nat :: Bit(avail, i) == Available(x.lo.v, x.hi.v, y.lo.v, y.hi.v, i)
    requires forall i: nat :: Bit(j, i) == SetFrom(avail, i + 1)
    ensures OrMaxBits(x.lo.v, x.hi.v, y.lo.v, y.hi.v, Or(Or(j, x.hi.v), y.hi.v))
  {
    var a, b, c, d := x.lo.v, x.hi.v, y.lo.v, y.hi.v;
    forall i: nat
      ensures Bit(Or(Or(j, b), d), i) == (Bit(b, i) || Bit(d, i) || AvailableLeftOf(a, b, c, d, i))
    {
      BitOr(j, b, i);
      BitOr(Or(j, b), d, i);
      if SetFrom(avail, i + 1) {
        var k: nat :| i + 1 <= k && Bit(avail, k);
        assert Available(a, b, c, d, k);
      }
      if AvailableLeftOf(a, b, c, d, i) {
        var k: nat :| i < k && Available(a, b, c, d, k);
        assert Bit(avail, k);
      }
    }
  }

  lemma UnionFits(u: nat, v: nat)
    ensures 0 <= Or(u, v)
    ensures Fits(Or(u, v)) <==> Fits(u) && Fits(v)
  {
    OrSign(u, v);
    var z := Or(u, v);
    forall i: nat ensures Bit(z, i) == (Bit(u, i) || Bit(v, i)) { BitOr(u, v, i); }
    SubsetFits(u, z);
    SubsetFits(v, z);
    if z > 0 {
      TopBit(z);
      BitOr(u, v, BitLen(z) - 1);
      if BitLen(u) <= BitLen(z) - 1 { BitAtOrAbove(u, BitLen(z) - 1); }
      if BitLen(v) <= BitLen(z) - 1 { BitAtOrAbove(v, BitLen(z) - 1); }
    }
  }

  /** `f & xMax & yMax`: the step of orMax that restricts to positions set on both sides. */
  method AvailableBits(x: IntRange, y: IntRange, f: nat) returns (j: nat)
    requires Operand(x) && Operand(y) && Fits(f)
    requires forall k: nat :: Bit(f, k) <==> Droppable(x.lo.v, x.hi.v, k) || Droppable(y.lo.v, y.hi.v, k)
    ensures Fits(j)
    ensures forall i: nat :: Bit(j, i) == Available(x.lo.v, x.hi.v, y.lo.v, y.hi.v, i)
  {
    AndSign(f, x.hi.v);
    j := And(f, x.hi.v);
    ghost var j0 := j;
    AndSign(j, y.hi.v);
    j := And(j, y.hi.v);
    forall i: nat ensures Bit(j, i) == (Bit(f, i) && Bit(x.hi.v, i) && Bit(y.hi.v, i)) {
      BitAnd(f, x.hi.v, i);
      BitAnd(j0, y.hi.v, i);
    }
    SubsetFits(j, f);
  }

  lemma FillShifted(f: nat, j: int)
    requires IsFilled(f, j)
    ensures forall i: nat :: Bit(f / 2, i) == SetFrom(j, i + 1)
  {
    forall i: nat ensures Bit(f / 2, i) == SetFrom(j, i + 1) {
      assert Bit(f, i + 1) == Bit(f / 2, i);
    }
  }

  // ---------------- andMax

  /** Bit q of b is droppable and does not help against d. */
  ghost predicate Useless(a: int, b: int, d: int, q: nat)
  {
    Bit(b, q) && !Bit(d, q) && Droppable(a, b, q)
  }

  /** r is d & (b flipped at its leftmost useless position k), or d & b when there is none (k < 0). */
  ghost predicate BestAgainst(a: int, b: int, d: int, k: int, r: int)
  {
    && SameSign(r, b)
    && (forall q: nat :: Useless(a, b, d, q) ==> q <= k)
    && (if k < 0 then forall i: nat :: Bit(r, i) == (Bit(d, i) && Bit(b, i))
        else Useless(a, b, d, k) && forall i: nat :: Bit(r, i) == (Bit(d, i) && if i > k then Bit(b, i) else i < k))
  }

  lemma TopsBelow(a: int, b: int, d: int, k: int, r: int)
    requires SameSign(b, d) && BestAgainst(a, b, d, k, r)
    ensures And(b, d) <= r
  {
    AndSign(b, d);
    forall i: nat ensures Bit(And(b, d), i) ==> Bit(r, i) { BitAnd(b, d, i); }
    SubsetOrders(And(b, d), r);
  }

  lemma LosesATopBit(b: int, d: int, xx: int, yy: int, q: nat)
    requires SameSign(b, d) && SameSign(xx, b) && SameSign(yy, d)
    requires Bit(b, q) && Bit(d, q) && !(Bit(xx, q) && Bit(yy, q))
    requires forall i: nat | q < i :: Bit(xx, i) == Bit(b, i) && Bit(yy, i) == Bit(d, i)
    ensures And(xx, yy) < And(b, d)
  {
    AndSign(b, d);
    AndSign(xx, yy);
    forall i: nat
      ensures Bit(And(b, d), i) == (Bit(b, i) && Bit(d, i)) && Bit(And(xx, yy), i) == (Bit(xx, i) && Bit(yy, i))
    {
      BitAnd(b, d, i);
      BitAnd(xx, yy, i);
    }
    FirstDifferenceOrders(And(xx, yy), And(b, d), q);
  }

  /** Against d itself. */
  lemma AndUpperTop(a: int, b: int, d: int, k: int, r: int, xx: int)
    requires a <= xx <= b && SameSign(a, b) && SameSign(b, d) && BestAgainst(a, b, d, k, r)
    ensures And(xx, d) <= r
  {
    TopsBelow(a, b, d, k, r);
    if xx < b {
      var q := BelowTop(a, b, xx);
      if Bit(d, q) {
        LosesATopBit(b, d, xx, d, q);
      } else {
        assert Useless(a, b, d, q);
        AndSign(xx, d);
        forall i: nat ensures Bit(And(xx, d), i) ==> Bit(r, i) { BitAnd(xx, d, i); }
        SubsetOrders(And(xx, d), r);
      }
    }
  }

  /** Against some yy that first differs from d at q', to the right of where xx differs from b. */
  lemma AndUpperRight(b: int, d: int, k: nat, r: int, xx: int, yy: int, q: nat, q': nat)
    requires SameSign(b, d) && SameSign(xx, b) && SameSign(yy, d) && SameSign(r, b)
    requires q' < q <= k && !Bit(d, k)
    requires forall i: nat :: Bit(r, i) == (Bit(d, i) && if i > k then Bit(b, i) else i < k)
    requires forall i: nat | q < i :: Bit(xx, i) == Bit(b, i)
    requires Bit(d, q') && !Bit(yy, q') && forall i: nat | q' < i :: Bit(yy, i) == Bit(d, i)
    ensures And(xx, yy) <= r
  {
    hide And, Bit;
    var z := And(xx, yy);
    AndSign(xx, yy);
    forall i: nat | q' < i ensures Bit(z, i) ==> Bit(r, i) { BitAnd(xx, yy, i); }
    BitAnd(xx, yy, q');
    BelowAfterGap(z, r, q');
  }

  lemma BelowAfterGap(z: int, r: int, p: nat)
    requires SameSign(z, r) && !Bit(z, p) && Bit(r, p)
    requires forall i: nat | p < i :: Bit(z, i) ==> Bit(r, i)
    ensures z <= r
  {
    if r < z {
      var t := TopDifference(r, z);
    }
  }

  lemma AndUpper(a: int, b: int, c: int, d: int, k: int, r: int, l: int, t: int, xx: int, yy: int)
    requires a <= xx <= b && c <= yy <= d
    requires SameSign(a, b) && SameSign(c, d) && SameSign(b, d)
    requires BestAgainst(a, b, d, k, r) && BestAgainst(c, d, b, l, t)
    ensures And(xx, yy) <= r || And(xx, yy) <= t
  {
    if yy == d {
      AndUpperTop(a, b, d, k, r, xx);
    } else if xx == b {
      AndUpperTop(c, d, b, l, t, yy);
      AndCommutes(xx, yy);
    } else {
      var q := BelowTop(a, b, xx);
      var q' := BelowTop(c, d, yy);
      TopsBelow(a, b, d, k, r);
      if q == q' || (q > q' && Bit(d, q)) {
        LosesATopBit(b, d, xx, yy, q);
      } else if q > q' {
        assert Useless(a, b, d, q);
        AndUpperRight(b, d, k, r, xx, yy, q, q');
      } else if Bit(b, q') {
        LosesATopBit(b, d, xx, yy, q');
      } else {
        assert Useless(c, d, b, q');
        AndUpperRight(d, b, l, t, yy, xx, q', q);
        AndCommutes(xx, yy);
      }
    }
  }

  lemma AndAttained(x: IntRange, d: int, k: int, r: int) returns (xx: int)
    requires Operand(x) && SameSign(x.hi.v, d) && BestAgainst(x.lo.v, x.hi.v, d, k, r)
    ensures x.Contains(xx) && And(xx, d) == r
  {
    xx := if k < 0 then x.hi.v else FlipAt(x.hi.v, k);
    if k >= 0 {
      FlipAtBits(x.hi.v, k);
      FlippedInRange(x.lo.v, x.hi.v, k, xx);
    }
    forall i: nat ensures Bit(And(xx, d), i) == Bit(r, i) { BitAnd(xx, d, i); }
    BitsExt(And(xx, d), r);
  }

  /** One half of andMax: the best element of x against the top d of the other interval. */
  method AndHalf(x: IntRange, d: int) returns (r: int, panics: bool, ghost k: int)
    requires Operand(x) && SameSign(x.hi.v, d)
    ensures panics <==> Wide(x)
    ensures !panics ==> BestAgainst(x.lo.v, x.hi.v, d, k, r)
  {
    r, k := 0, 0;
    DroppedBits(x.lo.v, x.hi.v);
    var j: nat := AndNot(x.hi.v, x.lo.v);
    ghost var u := j;
    j, panics := BitFillRight(j);
    if panics {
      return;
    }
    MaskFits(BitLen(u));
    j := UselessBits(x, d, j, u);
    ghost var w := j;
    k := BitLen(w) - 1;
    j, panics := BitFillRight(j);
    var i := AndNot(x.hi.v, j);
    j := j / 2;
    r := And(Or(j, i), d);
    HalfResult(x, d, w, r);
  }

  /** `fill & xMax & ~yMax`. */
  method UselessBits(x: IntRange, d: int, f: nat, ghost u: nat) returns (j: nat)
    requires Operand(x) && Fits(f) && IsFilled(f, u)
    requires forall i: nat :: Bit(u, i) == (Bit(x.hi.v, i) && !Bit(x.lo.v, i))
    ensures Fits(j)
    ensures forall q: nat :: Bit(j, q) == Useless(x.lo.v, x.hi.v, d, q)
  {
    AndSign(f, x.hi.v);
    var g := And(f, x.hi.v);
    AndSign(g, Not(d));
    j := AndNot(g, d);
    forall q: nat ensures Bit(j, q) == Useless(x.lo.v, x.hi.v, d, q) && (Bit(j, q) ==> Bit(f, q)) {
      BitAnd(f, x.hi.v, q);
      BitAndNot(g, d, q);
      assert Bit(f, q) == SetFrom(u, q);
    }
    SubsetFits(j, f);
  }

  lemma HalfResult(x: IntRange, d: int, w: nat, r: int)
    requires Operand(x) && SameSign(x.hi.v, d)
    requires forall q: nat :: Bit(w, q) == Useless(x.lo.v, x.hi.v, d, q)
    requires var f := Pow2(BitLen(w)) - 1; r == And(Or(f / 2, AndNot(x.hi.v, f)), d)
    ensures BestAgainst(x.lo.v, x.hi.v, d, BitLen(w) - 1, r)
  {
    var b, n := x.hi.v, BitLen(w);
    var f := Pow2(n) - 1;
    var i, j := AndNot(b, f), f / 2;
    AndSign(b, Not(f));
    OrSign(j, i);
    AndSign(Or(j, i), d);
    forall q: nat | Useless(x.lo.v, b, d, q) ensures q <= n - 1 {
      if n <= q { BitAtOrAbove(w, q); }
    }
    if n > 0 {
      TopBit(w);
    }
    forall p: nat
      ensures Bit(r, p) == (Bit(d, p) && (p < n - 1 || (p >= n && Bit(b, p))))
    {
      BitAnd(Or(j, i), d, p);
      BitOr(j, i, p);
      BitAndNot(b, f, p);
      BitMask(n, p);
      BitMask(n, p + 1);
    }
  }

  predicate Overlap(x: IntRange, y: IntRange)
    requires Operand(x) && Operand(y)
  {
    y.hi.v >= x.lo.v && x.hi.v >= y.lo.v
  }

  /** The largest `xx & yy` for xx in x and yy in y. */
  method AndMax(x: IntRange, y: IntRange) returns (r: int, panics: bool)
    requires Operand(x) && Operand(y) && SameSign(x.lo.v, y.lo.v)
    ensures panics <==> !Overlap(x, y) && (Wide(x) || Wide(y))
    ensures !panics ==> IsMaximum(OpAnd, x, y, r)
  {
    panics := false;
    if y.hi.v >= x.lo.v && x.hi.v >= y.lo.v {
      r := if x.hi.v > y.hi.v then y.hi.v else x.hi.v;
      OverlapMaximum(x, y, r);
      return;
    }
    r := 0;
    var j, t;
    ghost var k, l;
    j, panics, k := AndHalf(x, y.hi.v);
    if panics {
      return;
    }
    t, panics, l := AndHalf(y, x.hi.v);
    if panics {
      return;
    }
    r := if j < t then t else j;
    AndMaximum(x, y, j, k, t, l);
  }

  lemma AndMaximum(x: IntRange, y: IntRange, j: int, k: int, t: int, l: int)
    requires Operand(x) && Operand(y) && SameSign(x.lo.v, y.lo.v)
    requires BestAgainst(x.lo.v, x.hi.v, y.hi.v, k, j)
    requires BestAgainst(y.lo.v, y.hi.v, x.hi.v, l, t)
    ensures IsMaximum(OpAnd, x, y, if j < t then t else j)
  {
    var xx := AndAttained(x, y.hi.v, k, j);
    InValues(OpAnd, x, y, xx, y.hi.v);
    var yy := AndAttained(y, x.hi.v, l, t);
    AndCommutes(yy, x.hi.v);
    InValues(OpAnd, x, y, x.hi.v, yy);
    forall a, b | x.Contains(a) && y.Contains(b) ensures And(a, b) <= j || And(a, b) <= t {
      AndUpper(x.lo.v, x.hi.v, y.lo.v, y.hi.v, k, j, l, t, a, b);
    }
  }

  /** For operands of one sign, `&` is at most either operand. */
  lemma AndBelow(a: int, b: int)
    requires SameSign(a, b)
    ensures And(a, b) <= a && And(a, b) <= b
  {
    AndSign(a, b);
    forall i: nat ensures Bit(And(a, b), i) == (Bit(a, i) && Bit(b, i)) { BitAnd(a, b, i); }
    SubsetOrders(And(a, b), a);
    SubsetOrders(And(a, b), b);
  }

  lemma AndSelf(a: int)
    ensures And(a, a) == a
  {
    forall i: nat ensures Bit(And(a, a), i) == Bit(a, i) { BitAnd(a, a, i); }
    BitsExt(And(a, a), a);
  }

  lemma OverlapMaximum(x: IntRange, y: IntRange, r: int)
    requires Operand(x) && Operand(y) && SameSign(x.lo.v, y.lo.v)
    requires y.hi.v >= x.lo.v && x.hi.v >= y.lo.v
    requires r == if x.hi.v > y.hi.v then y.hi.v else x.hi.v
    ensures IsMaximum(OpAnd, x, y, r)
  {
    AndSelf(r);
    InValues(OpAnd, x, y, r, r);
    forall a, b | x.Contains(a) && y.Contains(b) ensures And(a, b) <= r { AndBelow(a, b); }
  }

  // ---------------- And and Or

  function Complement(x: IntRange): (r: IntRange)
    requires x.lo.Int? && x.hi.Int?
    ensures forall i :: r.Contains(i) <==> x.Contains(Not(i))
  {
    IntRange(Int(Not(x.hi.v)), Int(Not(x.lo.v)))
  }

  lemma ComplementOperand(x: IntRange)
    requires Operand(x)
    ensures Operand(Complement(x)) && SameSign(Complement(x).lo.v, Not(x.lo.v))
    ensures Wide(Complement(x)) == Wide(x)
  {
    assert Not(Not(x.lo.v)) == x.lo.v && Not(Not(x.hi.v)) == x.hi.v;
    AndCommutes(x.hi.v, Not(x.lo.v));
  }

  ghost predicate IsMinimum(op: Op, x: IntRange, y: IntRange, r: int)
  {
    r in Values(op, x, y) && BoundedBelow(Values(op, x, y), r)
  }

  /** De Morgan: the minimum of one operator is the complement of the maximum of the other. */
  lemma MinimumByComplement(op: Op, x: IntRange, y: IntRange, r: int)
    requires op.OpAnd? || op.OpOr?
    requires x.lo.Int? && x.hi.Int? && y.lo.Int? && y.hi.Int?
    requires IsMaximum(if op.OpAnd? then OpOr else OpAnd, Complement(x), Complement(y), r)
    ensures IsMinimum(op, x, y, Not(r))
  {
    var dual := if op.OpAnd? then OpOr else OpAnd;
    var xx, yy :| Complement(x).Contains(xx) && Complement(y).Contains(yy) && Valid(dual, yy) && Apply(dual, xx, yy) == r;
    assert Not(Not(xx)) == xx && Not(Not(yy)) == yy;
    InValues(op, x, y, Not(xx), Not(yy));
    forall a, b | x.Contains(a) && y.Contains(b) ensures Not(r) <= Apply(op, a, b) {
      assert Not(Not(a)) == a && Not(Not(b)) == b;
      InValues(dual, Complement(x), Complement(y), Not(a), Not(b));
    }
  }

  lemma MinMaxIsHull(op: Op, x: IntRange, y: IntRange, lo: int, hi: int)
    requires IsMinimum(op, x, y, lo) && IsMaximum(op, x, y, hi)
    ensures IsHull(IntRange(Int(lo), Int(hi)), Values(op, x, y))
  {
  }

  /** Operands that are not refused: not empty and not negative. */
  predicate Proper(x: IntRange, y: IntRange)
  {
    !x.Empty() && !y.Empty() && !x.ContainsNegative() && !y.ContainsNegative()
  }

  /** `And` panics exactly when both operands are finite and the bounds of one differ in more than
      0xFFFF bits. It refuses negative operands and is otherwise exact. */
  method AndRange(x: IntRange, y: IntRange) returns (z: IntRange, ok: bool, panics: bool)
    ensures panics <==> Proper(x, y) && x.hi.Int? && y.hi.Int? && (Wide(x) || Wide(y))
    ensures !panics ==> (ok <==> x.Empty() || y.Empty() || forall i | i < 0 :: !x.Contains(i) && !y.Contains(i))
    ensures !panics ==> if ok then IsHull(z, Values(OpAnd, x, y)) else z == EVERYTHING
  {
    panics := false;
    Membership(x);
    Membership(y);
    if x.Empty() || y.Empty() {
      EmptyOperand(OpAnd, x, y);
      return EMPTY, true, false;
    }
    if x.ContainsNegative() || y.ContainsNegative() {
      return EVERYTHING, false, false;
    }
    z, ok := EVERYTHING, true;
    var zMax: int;
    if x.hi.Int? {
      if y.hi.Int? {
        zMax, panics := AndMax(x, y);
        if panics {
          return;
        }
      } else {
        AndWithRay(x, y);
        return IntRange(Int(0), x.hi), true, false;
      }
    } else {
      ValuesCommute(OpAnd, x, y);
      AndWithRay(y, x);
      if y.hi.Int? {
        return IntRange(Int(0), y.hi), true, false;
      } else {
        return IntRange(Int(0), Nil), true, false;
      }
    }
    var notX, notY := Complement(x), Complement(y);
    ComplementOperand(x);
    ComplementOperand(y);
    var zMin;
    zMin, panics := OrMax(notX, notY);
    if panics {
      return;
    }
    MinimumByComplement(OpAnd, x, y, zMin);
    zMin := Not(zMin);
    MinMaxIsHull(OpAnd, x, y, zMin, zMax);
    z := IntRange(Int(zMin), Int(zMax));
  }

  lemma ValuesCommute(op: Op, x: IntRange, y: IntRange)
    requires op.OpAnd? || op.OpOr?
    ensures Values(op, x, y) == Values(op, y, x)
  {
    forall a, b ensures Apply(op, a, b) == Apply(op, b, a) { AndCommutes(a, b); OrCommutes(a, b); }
    forall v ensures v in Values(op, x, y) <==> v in Values(op, y, x) {
      if v in Values(op, x, y) {
        var a, b :| x.Contains(a) && y.Contains(b) && Apply(op, a, b) == v;
        InValues(op, y, x, b, a);
      }
      if v in Values(op, y, x) {
        var a, b :| y.Contains(a) && x.Contains(b) && Apply(op, a, b) == v;
        InValues(op, x, y, b, a);
      }
    }
  }

  /** Beyond any n there is a power of two that shares no bit with a, and a mask that covers a. */
  lemma FarMask(a: nat, n: nat) returns (e: nat)
    ensures n <= Pow2(e) - 1 && a <= Pow2(e) - 1
    ensures And(a, Pow2(e)) == 0 && And(a, Pow2(e) - 1) == a
  {
    e := a + n;
    Pow2Above(e);
    AndMask(a, e);
    DivModUnique(a, Pow2(e), 0, a);
    forall i: nat ensures Bit(And(a, Pow2(e)), i) == Bit(0, i) {
      BitAnd(a, Pow2(e), i);
      BitOfSign(i);
      BitPow2(e, i);
      if i == e { BitLenBounds(a); if BitLen(a) > e { Pow2Mono(e, BitLen(a) - 1); } BitAtOrAbove(a, e); }
    }
    BitsExt(And(a, Pow2(e)), 0);
  }

  lemma {:induction false} BitPow2(e: nat, i: nat)
    ensures Bit(Pow2(e), i) == (i == e)
    decreases i
  {
    if e == 0 {
      if i > 0 { BitOfSign(i - 1); }
    } else if i > 0 {
      BitPow2(e - 1, i - 1);
    }
  }

  /** When y is unbounded, `xx & yy` reaches down to 0 and up to xx. */
  lemma AndWithRay(x: IntRange, y: IntRange)
    requires !x.Empty() && !x.ContainsNegative() && !y.ContainsNegative() && y.hi.Nil?
    ensures IsHull(IntRange(Int(0), x.hi), Values(OpAnd, x, y))
  {
    var s := Values(OpAnd, x, y);
    forall a, b | x.Contains(a) && y.Contains(b) ensures 0 <= And(a, b) <= a { AndSign(a, b); AndBelow(a, b); }
    var e := FarMask(x.lo.v, y.lo.v);
    InValues(OpAnd, x, y, x.lo.v, Pow2(e));
    if x.hi.Int? {
      e := FarMask(x.hi.v, y.lo.v);
      InValues(OpAnd, x, y, x.hi.v, Pow2(e) - 1);
    } else {
      forall m ensures !BoundedAbove(s, m) {
        var a := x.lo.v + Abs(m) + 1;
        var e := FarMask(a, y.lo.v);
        InValues(OpAnd, x, y, a, Pow2(e) - 1);
      }
    }
  }

  lemma OrAbove(a: int, b: int)
    requires SameSign(a, b)
    ensures a <= Or(a, b) && b <= Or(a, b)
  {
    AndBelow(Not(a), Not(b));
  }

  lemma OrSelf(a: int)
    ensures Or(a, a) == a
  {
    AndSelf(Not(a));
  }

  /** With an unbounded operand there is no maximum. */
  lemma OrUnbounded(x: IntRange, y: IntRange)
    requires !x.Empty() && !y.Empty() && !x.ContainsNegative() && !y.ContainsNegative()
    requires x.hi.Nil? || y.hi.Nil?
    ensures NoGreatest(Values(OpOr, x, y))
  {
    forall m ensures !BoundedAbove(Values(OpOr, x, y), m) {
      var a := if x.hi.Nil? then x.lo.v + Abs(m) + 1 else x.lo.v;
      var b := if x.hi.Nil? then y.lo.v else y.lo.v + Abs(m) + 1;
      OrAbove(a, b);
      InValues(OpOr, x, y, a, b);
    }
  }

  /** If x contains the least element of y, that is the least `xx | yy`. */
  lemma OrLeastShared(x: IntRange, y: IntRange)
    requires !x.ContainsNegative() && !y.Empty() && !y.ContainsNegative() && x.Contains(y.lo.v)
    ensures IsMinimum(OpOr, x, y, y.lo.v)
  {
    OrSelf(y.lo.v);
    InValues(OpOr, x, y, y.lo.v, y.lo.v);
    forall a, b | x.Contains(a) && y.Contains(b) ensures y.lo.v <= Or(a, b) { OrAbove(a, b); }
  }

  /** If x lies below y, a minimum over y cut off at the fill of its least element is one over y. */
  lemma OrCutOff(x: IntRange, y: IntRange, cut: IntRange, r: int)
    requires !x.ContainsNegative() && !y.ContainsNegative() && y.hi.Nil?
    requires x.lo.Int? && x.hi.Int? && x.hi.v < y.lo.v
    requires cut == IntRange(y.lo, Int(Pow2(BitLen(y.lo.v)) - 1))
    requires IsMinimum(OpOr, x, cut, r)
    ensures IsMinimum(OpOr, x, y, r)
  {
    ValuesMonotone(OpOr, x, cut, x, y);
    var n := BitLen(y.lo.v);
    forall a, b | x.Contains(a) && y.Contains(b) ensures r <= Or(a, b) {
      OrAbove(a, b);
      BitLenBounds(y.lo.v);
      if b > Pow2(n) - 1 {
        OrBelowPow2(a, y.lo.v, n);
        InValues(OpOr, x, cut, a, y.lo.v);
      } else {
        InValues(OpOr, x, cut, a, b);
      }
    }
  }

  lemma OrBelowPow2(a: nat, b: nat, n: nat)
    requires a < Pow2(n) && b < Pow2(n)
    ensures 0 <= Or(a, b) < Pow2(n)
  {
    var m := Pow2(n) - 1;
    OrSign(a, b);
    BitsBelow(a, n);
    BitsBelow(b, n);
    forall i: nat ensures Bit(Or(a, b), i) ==> Bit(m, i) { BitOr(a, b, i); BitMask(n, i); }
    SubsetOrders(Or(a, b), m);
  }

  lemma BitsBelow(a: nat, n: nat)
    requires a < Pow2(n)
    ensures forall i: nat | n <= i :: !Bit(a, i)
  {
    BitLenBounds(a);
    if BitLen(a) > n { Pow2Mono(n, BitLen(a) - 1); }
    forall i: nat | n <= i ensures !Bit(a, i) { BitAtOrAbove(a, i); }
  }

  /** The least `xx | yy`, as the complement of a greatest `&`. */
  method OrMin(x: IntRange, y: IntRange) returns (zMin: int, panics: bool)
    requires Operand(x) && Operand(y) && SameSign(x.lo.v, y.lo.v)
    ensures panics <==> !Overlap(x, y) && (Wide(x) || Wide(y))
    ensures !panics ==> IsMinimum(OpOr, x, y, zMin)
  {
    var notX, notY := Complement(x), Complement(y);
    ComplementOperand(x);
    ComplementOperand(y);
    zMin, panics := AndMax(notX, notY);
    if panics {
      return;
    }
    MinimumByComplement(OpOr, x, y, zMin);
    zMin := Not(zMin);
  }

  /** y is unbounded and lies above x, and its least element has more than 0xFFFF bits. */
  predicate FarRay(x: IntRange, y: IntRange)
  {
    x.lo.Int? && x.hi.Int? && y.lo.Int? && y.hi.Nil? && x.hi.v < y.lo.v && !Fits(Abs(y.lo.v))
  }

  /** When `Or` panics. */
  predicate OrPanics(x: IntRange, y: IntRange)
    requires Proper(x, y)
  {
    if x.hi.Int? && y.hi.Int? then OrMaxPanics(x, y) else FarRay(x, y) || FarRay(y, x)
  }

  /** `Or` refuses negative operands and is otherwise exact, where it does not panic. */
  method OrRange(x: IntRange, y: IntRange) returns (z: IntRange, ok: bool, panics: bool)
    ensures panics <==> Proper(x, y) && OrPanics(x, y)
    ensures !panics ==> (ok <==> x.Empty() || y.Empty() || forall i | i < 0 :: !x.Contains(i) && !y.Contains(i))
    ensures !panics ==> if ok then IsHull(z, Values(OpOr, x, y)) else z == EVERYTHING
  {
    panics := false;
    Membership(x);
    Membership(y);
    if x.Empty() || y.Empty() {
      EmptyOperand(OpOr, x, y);
      return EMPTY, true, false;
    }
    if x.ContainsNegative() || y.ContainsNegative() {
      return EVERYTHING, false, false;
    }
    z, ok := EVERYTHING, true;
    var zMin;
    if x.hi.Int? && y.hi.Int? {
      var zMax;
      zMax, panics := OrMax(x, y);
      if panics {
        return;
      }
      zMin, panics := OrMin(x, y);
      MinMaxIsHull(OpOr, x, y, zMin, zMax);
      z := IntRange(Int(zMin), Int(zMax));
    } else {
      zMin, panics := OrMinWithRay(x, y);
      if panics {
        return;
      }
      OrUnbounded(x, y);
      z := IntRange(Int(zMin), Nil);
    }
  }

  /** The part of `Or` for an unbounded operand. */
  method OrMinWithRay(x0: IntRange, y0: IntRange) returns (zMin: int, panics: bool)
    requires Proper(x0, y0) && (x0.hi.Nil? || y0.hi.Nil?)
    ensures panics <==> FarRay(x0, y0) || FarRay(y0, x0)
    ensures !panics ==> IsMinimum(OpOr, x0, y0, zMin)
  {
    zMin, panics := 0, false;
    var x, y := x0, y0;
    ValuesCommute(OpOr, x, y);
    if x.Contains(y.lo.v) {
      OrLeastShared(x, y);
      return y.lo.v, false;
    }
    if y.Contains(x.lo.v) {
      OrLeastShared(y, x);
      return x.lo.v, false;
    }
    if x.hi.Nil? && y.hi.Nil? {
      assert false; // the first "unreachable" panic
    }
    if x.hi.Nil? {
      x, y := y, x;
    }
    if x.hi.v >= y.lo.v {
      assert false; // the second "unreachable" panic
    }
    var f;
    f, panics := BitFillRight(y.lo.v);
    if panics {
      return;
    }
    BitLenBounds(y.lo.v);
    MaskFits(BitLen(y.lo.v));
    var cut := IntRange(y.lo, Int(f));
    NarrowOperands(x, cut);
    zMin, panics := OrMin(x, cut);
    OrCutOff(x, y, cut, zMin);
  }

  /** Bounds of few bits differ in few bits. */
  lemma NarrowOperands(x: IntRange, y: IntRange)
    requires Operand(x) && Operand(y) && 0 <= x.lo.v && x.hi.v < y.lo.v && Fits(y.hi.v)
    ensures !Wide(x) && !Wide(y)
  {
    BitLenMono(x.hi.v, y.hi.v);
    DroppedBits(x.lo.v, x.hi.v);
    DroppedBits(y.lo.v, y.hi.v);
    SubsetFits(AndNot(x.hi.v, x.lo.v), x.hi.v);
    SubsetFits(AndNot(y.hi.v, y.lo.v), y.hi.v);
  }
}
