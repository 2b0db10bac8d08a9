/** Interval arithmetic on big integers (lang/interval/interval.go).

    Every operation is related to one reference notion: the hull of the set of values that the
    operator takes when its operands range over the two intervals. */
module Interval {
  import opened Bits

  // ---------------- Intervals

  /** A *big.Int that may be nil, meaning unbounded. */
  datatype Bound = Nil | Int(v: int)

  /** An integer interval, inclusive at both ends; it is empty when lo exceeds hi. */
  datatype IntRange = IntRange(lo: Bound, hi: Bound) {

    predicate Contains(i: int)
    {
      (lo.Int? ==> lo.v <= i) && (hi.Int? ==> i <= hi.v)
    }

    predicate Empty()
    {
      lo.Int? && hi.Int? && lo.v > hi.v
    }

    predicate ContainsNegative()
    {
      if lo.Nil? then true
      else if lo.v >= 0 then false
      else hi.Nil? || lo.v <= hi.v
    }

    predicate ContainsPositive()
    {
      if hi.Nil? then true
      else if hi.v <= 0 then false
      else lo.Nil? || lo.v <= hi.v
    }

    predicate ContainsZero()
    {
      (lo.Nil? || lo.v <= 0) && (hi.Nil? || hi.v >= 0)
    }

    predicate JustZero()
    {
      lo == Int(0) && hi == Int(0)
    }
  }

  const EMPTY := IntRange(Int(1), Int(-1))
  const EVERYTHING := IntRange(Nil, Nil)
  const ZERO := IntRange(Int(0), Int(0))

  /** Some member of a non-empty interval. */
  function Witness(x: IntRange): (i: int)
    requires !x.Empty()
    ensures x.Contains(i)
  {
    if x.lo.Int? then x.lo.v else if x.hi.Int? then x.hi.v else 0
  }

  /** The predicates that only look at the bounds mean what their names say. */
  lemma Membership(x: IntRange)
    ensures x.Empty() <==> forall i :: !x.Contains(i)
    ensures x.ContainsNegative() <==> exists i :: x.Contains(i) && i < 0
    ensures x.ContainsPositive() <==> exists i :: x.Contains(i) && i > 0
    ensures x.ContainsZero() <==> x.Contains(0)
  {
    if !x.Empty() { assert x.Contains(Witness(x)); }
    if x.ContainsNegative() {
      assert x.Contains(if x.lo.Int? then x.lo.v else if x.hi.Int? && x.hi.v < 0 then x.hi.v else -1);
    }
    if x.ContainsPositive() {
      assert x.Contains(if x.hi.Int? then x.hi.v else if x.lo.Int? && x.lo.v > 0 then x.lo.v else 1);
    }
  }

  // ---------------- The reference: hulls of sets of values

  datatype Op = OpAdd | OpSub | OpMul | OpLsh | OpQuo | OpRsh | OpAnd | OpOr

  /** Division truncated towards zero, as big.Int.Quo. */
  function Quo(a: int, b: int): int
    requires b != 0
  {
    if (a >= 0) == (b > 0) then Abs(a) / Abs(b) else -(Abs(a) / Abs(b))
  }

  function Lsh(a: int, n: nat): int { a * Pow2(n) }

  /** Shift right, rounding towards minus infinity. */
  function Rsh(a: int, n: nat): int { a / Pow2(n) }

  /** Whether `a op b` means anything: no negative shifts, no division by zero. */
  predicate Valid(op: Op, b: int)
  {
    match op
    case OpLsh => 0 <= b
    case OpRsh => 0 <= b
    case OpQuo => b != 0
    case _ => true
  }

  function Apply(op: Op, a: int, b: int): int
    requires Valid(op, b)
  {
    match op
    case OpAdd => a + b
    case OpSub => a - b
    case OpMul => a * b
    case OpLsh => Lsh(a, b)
    case OpQuo => Quo(a, b)
    case OpRsh => Rsh(a, b)
    case OpAnd => And(a, b)
    case OpOr => Or(a, b)
  }

  /** Everything that `a op b` can be, for a in x and b in y. */
  ghost function Values(op: Op, x: IntRange, y: IntRange): iset<int>
  {
    iset a, b | x.Contains(a) && y.Contains(b) && Valid(op, b) :: Apply(op, a, b)
  }

  lemma InValues(op: Op, x: IntRange, y: IntRange, a: int, b: int)
    requires x.Contains(a) && y.Contains(b) && Valid(op, b)
    ensures Apply(op, a, b) in Values(op, x, y)
  {
  }

  ghost predicate BoundedBelow(s: iset<int>, m: int) { forall v | v in s :: m <= v }
  ghost predicate BoundedAbove(s: iset<int>, m: int) { forall v | v in s :: v <= m }
  ghost predicate NoLeast(s: iset<int>) { forall m :: !BoundedBelow(s, m) }
  ghost predicate NoGreatest(s: iset<int>) { forall m :: !BoundedAbove(s, m) }

  /** z is the smallest interval that contains s: finite ends are attained, a nil end means unbounded. */
  ghost predicate IsHull(z: IntRange, s: iset<int>)
  {
    if s == iset{} then z.Empty()
    else
      && (if z.lo.Int? then z.lo.v in s && BoundedBelow(s, z.lo.v) else NoLeast(s))
      && (if z.hi.Int? then z.hi.v in s && BoundedAbove(s, z.hi.v) else NoGreatest(s))
  }

  /** A hull contains every value, and lies inside every interval that does. */
  lemma HullIsLeast(z: IntRange, s: iset<int>, w: IntRange)
    requires IsHull(z, s)
    ensures forall v | v in s :: z.Contains(v)
    ensures (forall v | v in s :: w.Contains(v)) ==> forall v | z.Contains(v) :: w.Contains(v)
  {
    if (forall v | v in s :: w.Contains(v)) && s != iset{} {
      if w.lo.Int? { assert BoundedBelow(s, w.lo.v); }
      if w.hi.Int? { assert BoundedAbove(s, w.hi.v); }
    }
  }

  // ---------------- Add and Sub

  function Add(x: IntRange, y: IntRange): (z: IntRange)
  {
    if x.Empty() || y.Empty() then EMPTY
    else IntRange(
           if x.lo.Int? && y.lo.Int? then Int(x.lo.v + y.lo.v) else Nil,
           if x.hi.Int? && y.hi.Int? then Int(x.hi.v + y.hi.v) else Nil)
  }

  function Sub(x: IntRange, y: IntRange): (z: IntRange)
  {
    if x.Empty() || y.Empty() then EMPTY
    else IntRange(
           if x.lo.Int? && y.hi.Int? && (x.hi.Int? || y.lo.Int?) then Int(x.lo.v - y.hi.v) else Nil,
           if x.hi.Int? && y.lo.Int? && (x.lo.Int? || y.hi.Int?) then Int(x.hi.v - y.lo.v) else Nil)
  }

  lemma EmptyOperand(op: Op, x: IntRange, y: IntRange)
    requires x.Empty() || y.Empty()
    ensures Values(op, x, y) == iset{}
  {
  }

  lemma {:induction false} AddIsHull(x: IntRange, y: IntRange)
    ensures IsHull(Add(x, y), Values(OpAdd, x, y))
  {
    var s := Values(OpAdd, x, y);
    if !x.Empty() && !y.Empty() {
      var a, b := Witness(x), Witness(y);
      InValues(OpAdd, x, y, a, b);
      if x.lo.Int? && y.lo.Int? {
        InValues(OpAdd, x, y, x.lo.v, y.lo.v);
      } else {
        forall m ensures !BoundedBelow(s, m) {
          var d := Abs(a) + Abs(b) + Abs(m) + 1;
          InValues(OpAdd, x, y, if x.lo.Nil? then a - d else a, if x.lo.Nil? then b else b - d);
        }
      }
      if x.hi.Int? && y.hi.Int? {
        InValues(OpAdd, x, y, x.hi.v, y.hi.v);
      } else {
        forall m ensures !BoundedAbove(s, m) {
          var d := Abs(a) + Abs(b) + Abs(m) + 1;
          InValues(OpAdd, x, y, if x.hi.Nil? then a + d else a, if x.hi.Nil? then b else b + d);
        }
      }
    }
  }

  /** One operand unbounded on one side only, the other on the opposite side only. */
  predicate OpposedRays(x: IntRange, y: IntRange)
  {
    || (x.lo.Int? && x.hi.Nil? && y.lo.Nil? && y.hi.Int?)
    || (x.lo.Nil? && x.hi.Int? && y.lo.Int? && y.hi.Nil?)
  }

  lemma SubContains(x: IntRange, y: IntRange)
    ensures forall a, b | x.Contains(a) && y.Contains(b) :: Sub(x, y).Contains(a - b)
  {
  }

  /** `Sub` gives the exact hull, except for opposed rays: there it gives up a finite end. */
  lemma {:induction false} SubIsHullExactlyUnlessOpposed(x: IntRange, y: IntRange)
    ensures IsHull(Sub(x, y), Values(OpSub, x, y)) <==> !OpposedRays(x, y)
  {
    var s := Values(OpSub, x, y);
    if !x.Empty() && !y.Empty() {
      var a, b := Witness(x), Witness(y);
      InValues(OpSub, x, y, a, b);
      if x.lo.Int? && y.hi.Int? {
        InValues(OpSub, x, y, x.lo.v, y.hi.v);
        assert BoundedBelow(s, x.lo.v - y.hi.v);
      } else {
        forall m ensures !BoundedBelow(s, m) {
          var d := Abs(a) + Abs(b) + Abs(m) + 1;
          InValues(OpSub, x, y, if x.lo.Nil? then a - d else a, if x.lo.Nil? then b else b + d);
        }
      }
      if x.hi.Int? && y.lo.Int? {
        InValues(OpSub, x, y, x.hi.v, y.lo.v);
        assert BoundedAbove(s, x.hi.v - y.lo.v);
      } else {
        forall m ensures !BoundedAbove(s, m) {
          var d := Abs(a) + Abs(b) + Abs(m) + 1;
          InValues(OpSub, x, y, if x.hi.Nil? then a + d else a, if x.hi.Nil? then b else b - d);
        }
      }
    }
  }

  // ---------------- Accumulating a hull: biggerIntPair

  /** A big.Int or one of the two infinities. */
  datatype BiggerInt = MinusInf | Finite(i: int) | PlusInf

  predicate Leq(x: BiggerInt, y: BiggerInt)
  {
    x.MinusInf? || y.PlusInf? || (x.Finite? && y.Finite? && x.i <= y.i)
  }

  function Lesser(x: BiggerInt, y: BiggerInt): BiggerInt { if Leq(x, y) then x else y }
  function Greater(x: BiggerInt, y: BiggerInt): BiggerInt { if Leq(x, y) then y else x }

  /** The infimum of s; that of the empty set is plus infinity. */
  ghost predicate IsInf(b: BiggerInt, s: iset<int>)
  {
    match b
    case PlusInf => s == iset{}
    case Finite(i) => i in s && BoundedBelow(s, i)
    case MinusInf => NoLeast(s)
  }

  ghost predicate IsSup(b: BiggerInt, s: iset<int>)
  {
    match b
    case MinusInf => s == iset{}
    case Finite(i) => i in s && BoundedAbove(s, i)
    case PlusInf => NoGreatest(s)
  }

  class BiggerIntPair {
    var lo: BiggerInt
    var hi: BiggerInt

    /** The pair holds the infimum and the supremum of s. */
    ghost predicate Spans(s: iset<int>)
      reads this
    {
      IsInf(lo, s) && IsSup(hi, s)
    }

    constructor ()
      ensures lo == PlusInf && hi == MinusInf
      ensures Spans(iset{})
    {
      lo, hi := PlusInf, MinusInf;
    }

    method LowerMin(y: BiggerInt)
      modifies this`lo
      ensures lo == Lesser(old(lo), y)
    {
      if lo.PlusInf? || y.MinusInf? || (lo.Finite? && y.Finite? && lo.i > y.i) {
        lo := y;
      }
    }

    method RaiseMax(y: BiggerInt)
      modifies this`hi
      ensures hi == Greater(old(hi), y)
    {
      if hi.MinusInf? || y.PlusInf? || (hi.Finite? && y.Finite? && hi.i < y.i) {
        hi := y;
      }
    }

    /** Both of the above, for the extremes of a further set of values. */
    method Widen(least: BiggerInt, greatest: BiggerInt, ghost s: iset<int>, ghost t: iset<int>)
      requires Spans(s) && IsInf(least, t) && IsSup(greatest, t)
      modifies this
      ensures Spans(s + t)
    {
      HullOfUnion(lo, hi, s, least, greatest, t);
      LowerMin(least);
      RaiseMax(greatest);
    }

    method ToIntRange(ghost s: iset<int>) returns (z: IntRange)
      requires Spans(s)
      ensures IsHull(z, s)
    {
      assert s == iset{} ==> BoundedBelow(s, 0) && BoundedAbove(s, 0);
      if lo.PlusInf? || hi.MinusInf? {
        z := EMPTY;
      } else {
        z := IntRange(if lo.Finite? then Int(lo.i) else Nil, if hi.Finite? then Int(hi.i) else Nil);
      }
    }

    method FromIntRange(y: IntRange)
      requires !y.Empty()
      modifies this
      ensures Spans(Members(y))
    {
      lo := if y.lo.Int? then Finite(y.lo.v) else MinusInf;
      hi := if y.hi.Int? then Finite(y.hi.v) else PlusInf;
      MembersHull(y);
    }
  }

  ghost function Members(y: IntRange): iset<int>
  {
    iset i | y.Contains(i)
  }

  lemma MembersHull(y: IntRange)
    requires !y.Empty()
    ensures if y.lo.Int? then y.lo.v in Members(y) && BoundedBelow(Members(y), y.lo.v) else NoLeast(Members(y))
    ensures if y.hi.Int? then y.hi.v in Members(y) && BoundedAbove(Members(y), y.hi.v) else NoGreatest(Members(y))
  {
    var w := Witness(y);
    if y.lo.Nil? {
      forall m ensures !BoundedBelow(Members(y), m) {
        assert w - Abs(w) - Abs(m) - 1 in Members(y);
      }
    }
    if y.hi.Nil? {
      forall m ensures !BoundedAbove(Members(y), m) {
        assert w + Abs(w) + Abs(m) + 1 in Members(y);
      }
    }
  }

  lemma HullOfUnion(lo: BiggerInt, hi: BiggerInt, s: iset<int>, lo': BiggerInt, hi': BiggerInt, t: iset<int>)
    requires IsInf(lo, s) && IsInf(lo', t) && IsSup(hi, s) && IsSup(hi', t)
    ensures IsInf(Lesser(lo, lo'), s + t)
    ensures IsSup(Greater(hi, hi'), s + t)
  {
    forall m | BoundedBelow(s + t, m) ensures BoundedBelow(s, m) && BoundedBelow(t, m) {
      assert forall v | v in s :: v in s + t;
      assert forall v | v in t :: v in s + t;
    }
    forall m | BoundedAbove(s + t, m) ensures BoundedAbove(s, m) && BoundedAbove(t, m) {
      assert forall v | v in s :: v in s + t;
      assert forall v | v in t :: v in s + t;
    }
  }

  // ---------------- Splitting by sign

  datatype Split = Split(neg: IntRange, pos: IntRange, negEmpty: bool, hasZero: bool, posEmpty: bool)

  /** The negative, zero and positive parts of x. */
  function SplitSigns(x: IntRange): (r: Split)
    ensures forall i :: r.neg.Contains(i) <==> x.Contains(i) && i < 0
    ensures forall i :: r.pos.Contains(i) <==> x.Contains(i) && i > 0
    ensures r.hasZero <==> x.Contains(0)
    ensures SplitOk(r)
  {
    if x.lo.Int? && x.lo.v > 0 then Split(EMPTY, x, true, false, x.Empty())
    else if x.hi.Int? && x.hi.v < 0 then Split(x, EMPTY, x.Empty(), false, true)
    else
      var neg := IntRange(x.lo, if x.hi.Int? && x.hi.v < -1 then x.hi else Int(-1));
      var pos := IntRange(if x.lo.Int? && x.lo.v > 1 then x.lo else Int(1), x.hi);
      Split(neg, pos, neg.Empty(), x.ContainsZero(), pos.Empty())
  }

  predicate SplitOk(r: Split)
  {
    && r.negEmpty == r.neg.Empty() && r.posEmpty == r.pos.Empty()
    && r.neg.hi.Int? && r.pos.lo.Int?
    && (!r.negEmpty ==> r.neg.hi.v < 0)
    && (!r.posEmpty ==> 0 < r.pos.lo.v)
  }

  // ---------------- Mirror images, which turn every quadrant into the positive one

  function Negated(x: IntRange): (r: IntRange)
    ensures forall i :: r.Contains(i) <==> x.Contains(-i)
    ensures r.Empty() == x.Empty()
  {
    IntRange(if x.hi.Int? then Int(-x.hi.v) else Nil, if x.lo.Int? then Int(-x.lo.v) else Nil)
  }

  function Opposite(b: BiggerInt): BiggerInt
  {
    match b
    case MinusInf => PlusInf
    case Finite(i) => Finite(-i)
    case PlusInf => MinusInf
  }

  ghost function Negatives(s: iset<int>): iset<int>
  {
    iset v | v in s :: -v
  }

  lemma InNegatives(s: iset<int>, v: int)
    ensures v in Negatives(s) <==> -v in s
  {
    assert v == -(-v);
  }

  lemma HullOfNegatives(lo: BiggerInt, hi: BiggerInt, s: iset<int>)
    requires IsInf(lo, s) && IsSup(hi, s)
    ensures IsInf(Opposite(hi), Negatives(s)) && IsSup(Opposite(lo), Negatives(s))
  {
    var n := Negatives(s);
    forall v ensures v in n <==> -v in s { InNegatives(s, v); }
    forall m | BoundedBelow(n, m) ensures BoundedAbove(s, -m) { assert forall v | v in s :: -v in n; }
    forall m | BoundedAbove(n, m) ensures BoundedBelow(s, -m) { assert forall v | v in s :: -v in n; }
    if NoGreatest(s) { forall m ensures !BoundedBelow(n, m) { assert !BoundedAbove(s, -m); } }
    if NoLeast(s) { forall m ensures !BoundedAbove(n, m) { assert !BoundedBelow(s, -m); } }
  }

  predicate Signed(op: Op) { op.OpMul? || op.OpLsh? || op.OpQuo? }

  lemma ApplyNegated(op: Op, a: int, b: int)
    requires Signed(op) && Valid(op, b)
    ensures Apply(op, -a, b) == -Apply(op, a, b)
    ensures !op.OpLsh? ==> Apply(op, a, -b) == -Apply(op, a, b)
  {
    if op.OpLsh? { assert -a * Pow2(b) == -(a * Pow2(b)); }
  }

  lemma NegatedLeft(op: Op, x: IntRange, y: IntRange, v: int)
    requires Signed(op) && v in Values(op, x, y)
    ensures -v in Values(op, Negated(x), y)
  {
    var a, b :| x.Contains(a) && y.Contains(b) && Valid(op, b) && Apply(op, a, b) == v;
    ApplyNegated(op, a, b);
    InValues(op, Negated(x), y, -a, b);
  }

  lemma NegatedRight(op: Op, x: IntRange, y: IntRange, v: int)
    requires (op.OpMul? || op.OpQuo?) && v in Values(op, x, y)
    ensures -v in Values(op, x, Negated(y))
  {
    var a, b :| x.Contains(a) && y.Contains(b) && Valid(op, b) && Apply(op, a, b) == v;
    ApplyNegated(op, a, b);
    InValues(op, x, Negated(y), a, -b);
  }

  lemma ValuesNegatedLeft(op: Op, x: IntRange, y: IntRange)
    requires Signed(op)
    ensures Values(op, x, y) == Negatives(Values(op, Negated(x), y))
  {
    forall v
      ensures v in Values(op, x, y) <==> v in Negatives(Values(op, Negated(x), y))
    {
      InNegatives(Values(op, Negated(x), y), v);
      if v in Values(op, x, y) { NegatedLeft(op, x, y, v); }
      if -v in Values(op, Negated(x), y) { NegatedLeft(op, Negated(x), y, -v); }
    }
  }

  lemma ValuesNegatedRight(op: Op, x: IntRange, y: IntRange)
    requires op.OpMul? || op.OpQuo?
    ensures Values(op, x, y) == Negatives(Values(op, x, Negated(y)))
  {
    forall v
      ensures v in Values(op, x, y) <==> v in Negatives(Values(op, x, Negated(y)))
    {
      InNegatives(Values(op, x, Negated(y)), v);
      if v in Values(op, x, y) { NegatedRight(op, x, y, v); }
      if -v in Values(op, x, Negated(y)) { NegatedRight(op, x, Negated(y), -v); }
    }
  }

  lemma MirrorLeft(op: Op, x: IntRange, y: IntRange, lo: BiggerInt, hi: BiggerInt)
    requires Signed(op)
    requires IsInf(lo, Values(op, Negated(x), y)) && IsSup(hi, Values(op, Negated(x), y))
    ensures IsInf(Opposite(hi), Values(op, x, y)) && IsSup(Opposite(lo), Values(op, x, y))
  {
    ValuesNegatedLeft(op, x, y);
    HullOfNegatives(lo, hi, Values(op, Negated(x), y));
  }

  lemma MirrorRight(op: Op, x: IntRange, y: IntRange, lo: BiggerInt, hi: BiggerInt)
    requires op.OpMul? || op.OpQuo?
    requires IsInf(lo, Values(op, x, Negated(y))) && IsSup(hi, Values(op, x, Negated(y)))
    ensures IsInf(Opposite(hi), Values(op, x, y)) && IsSup(Opposite(lo), Values(op, x, y))
  {
    ValuesNegatedRight(op, x, y);
    HullOfNegatives(lo, hi, Values(op, x, Negated(y)));
  }

  lemma MirrorBoth(op: Op, x: IntRange, y: IntRange, lo: BiggerInt, hi: BiggerInt)
    requires op.OpMul? || op.OpQuo?
    requires IsInf(lo, Values(op, Negated(x), Negated(y))) && IsSup(hi, Values(op, Negated(x), Negated(y)))
    ensures IsInf(lo, Values(op, x, y)) && IsSup(hi, Values(op, x, y))
  {
    MirrorLeft(op, x, Negated(y), lo, hi);
    MirrorRight(op, x, y, Opposite(hi), Opposite(lo));
  }

  // ---------------- Mul and Lsh

  lemma MulMono(a: int, a': int, b: int, b': int)
    requires 0 <= a <= a' && 0 <= b <= b'
    ensures a * b <= a' * b'
  {
    assert a * b <= a' * b;
    assert a' * b <= a' * b';
  }

  lemma CombineMono(op: Op, a: int, a': int, b: int, b': int)
    requires op.OpMul? || op.OpLsh?
    requires 0 <= a <= a' && 0 <= b <= b'
    ensures Apply(op, a, b) <= Apply(op, a', b')
  {
    if op.OpLsh? {
      Pow2Mono(b, b');
      MulMono(a, a', Pow2(b), Pow2(b'));
    } else {
      MulMono(a, a', b, b');
    }
  }

  lemma CombineGrows(op: Op, a: int, b: int)
    requires op.OpMul? || op.OpLsh?
    requires 1 <= a && 1 <= b
    ensures a <= Apply(op, a, b) && b <= Apply(op, a, b)
  {
    Pow2Above(b);
    if op.OpLsh? {
      MulMono(a, a, 1, Pow2(b));
      MulMono(1, a, Pow2(b), Pow2(b));
    } else {
      MulMono(a, a, 1, b);
      MulMono(1, a, b, b);
    }
  }

  function TopCorner(op: Op, x: IntRange, y: IntRange): BiggerInt
    requires y.hi.Int? ==> Valid(op, y.hi.v)
  {
    if x.hi.Nil? || y.hi.Nil? then PlusInf else Finite(Apply(op, x.hi.v, y.hi.v))
  }

  /** In the positive quadrant both operators are monotonic, so the corners are the extremes. */
  lemma PositiveQuadrant(op: Op, x: IntRange, y: IntRange)
    requires op.OpMul? || op.OpLsh?
    requires !x.Empty() && x.lo.Int? && 1 <= x.lo.v
    requires !y.Empty() && y.lo.Int? && 1 <= y.lo.v
    ensures IsInf(Finite(Apply(op, x.lo.v, y.lo.v)), Values(op, x, y))
    ensures IsSup(TopCorner(op, x, y), Values(op, x, y))
  {
    var s := Values(op, x, y);
    InValues(op, x, y, x.lo.v, y.lo.v);
    forall v | v in s
      ensures Apply(op, x.lo.v, y.lo.v) <= v
      ensures x.hi.Int? && y.hi.Int? ==> v <= Apply(op, x.hi.v, y.hi.v)
    {
      var a, b :| x.Contains(a) && y.Contains(b) && Valid(op, b) && Apply(op, a, b) == v;
      CombineMono(op, x.lo.v, a, y.lo.v, b);
      if x.hi.Int? && y.hi.Int? { CombineMono(op, a, x.hi.v, b, y.hi.v); }
    }
    if x.hi.Int? && y.hi.Int? {
      InValues(op, x, y, x.hi.v, y.hi.v);
    } else {
      forall m ensures !BoundedAbove(s, m) {
        var a := if x.hi.Nil? then x.lo.v + Abs(m) + 1 else x.lo.v;
        var b := if x.hi.Nil? then y.lo.v else y.lo.v + Abs(m) + 1;
        InValues(op, x, y, a, b);
        CombineGrows(op, a, b);
      }
    }
  }

  function BottomCorner(op: Op, x: IntRange, y: IntRange): BiggerInt
    requires y.hi.Int? ==> Valid(op, y.hi.v)
  {
    if x.lo.Nil? || y.hi.Nil? then MinusInf else Finite(Apply(op, x.lo.v, y.hi.v))
  }

  lemma NegativePositiveQuadrant(op: Op, x: IntRange, y: IntRange)
    requires op.OpMul? || op.OpLsh?
    requires !x.Empty() && x.hi.Int? && x.hi.v <= -1
    requires !y.Empty() && y.lo.Int? && 1 <= y.lo.v
    ensures IsInf(BottomCorner(op, x, y), Values(op, x, y))
    ensures IsSup(Finite(Apply(op, x.hi.v, y.lo.v)), Values(op, x, y))
  {
    PositiveQuadrant(op, Negated(x), y);
    MirrorLeft(op, x, y, Finite(Apply(op, -x.hi.v, y.lo.v)), TopCorner(op, Negated(x), y));
    ApplyNegated(op, x.hi.v, y.lo.v);
    if x.lo.Int? && y.hi.Int? { ApplyNegated(op, x.lo.v, y.hi.v); }
  }

  lemma PositiveNegativeQuadrant(x: IntRange, y: IntRange)
    requires !x.Empty() && x.lo.Int? && 1 <= x.lo.v
    requires !y.Empty() && y.hi.Int? && y.hi.v <= -1
    ensures IsInf(if x.hi.Nil? || y.lo.Nil? then MinusInf else Finite(x.hi.v * y.lo.v), Values(OpMul, x, y))
    ensures IsSup(Finite(x.lo.v * y.hi.v), Values(OpMul, x, y))
  {
    PositiveQuadrant(OpMul, x, Negated(y));
    MirrorRight(OpMul, x, y, Finite(Apply(OpMul, x.lo.v, -y.hi.v)), TopCorner(OpMul, x, Negated(y)));
    ApplyNegated(OpMul, x.lo.v, y.hi.v);
    if x.hi.Int? && y.lo.Int? { ApplyNegated(OpMul, x.hi.v, y.lo.v); }
  }

  lemma NegativeQuadrant(x: IntRange, y: IntRange)
    requires !x.Empty() && x.hi.Int? && x.hi.v <= -1
    requires !y.Empty() && y.hi.Int? && y.hi.v <= -1
    ensures IsInf(Finite(x.hi.v * y.hi.v), Values(OpMul, x, y))
    ensures IsSup(if x.lo.Nil? || y.lo.Nil? then PlusInf else Finite(x.lo.v * y.lo.v), Values(OpMul, x, y))
  {
    NegativePositiveQuadrant(OpMul, x, Negated(y));
    MirrorRight(OpMul, x, y, BottomCorner(OpMul, x, Negated(y)), Finite(Apply(OpMul, x.hi.v, -y.hi.v)));
    ApplyNegated(OpMul, x.hi.v, y.hi.v);
    if x.lo.Int? && y.lo.Int? { ApplyNegated(OpMul, x.lo.v, y.lo.v); }
  }

  /** The four sign quadrants together. */
  ghost function Quadrants(op: Op, x: IntRange, y: IntRange): iset<int>
  {
    var p, q := SplitSigns(x), SplitSigns(y);
    Values(op, p.neg, q.neg) + Values(op, p.neg, q.pos) + Values(op, p.pos, q.neg) + Values(op, p.pos, q.pos)
  }

  lemma UnionAssociates(z: iset<int>, a: iset<int>, b: iset<int>, c: iset<int>, d: iset<int>)
    ensures z + (a + b + c + d) == z + a + b + c + d
  {
  }

  lemma ValuesMonotone(op: Op, x: IntRange, y: IntRange, x': IntRange, y': IntRange)
    requires forall i | x.Contains(i) :: x'.Contains(i)
    requires forall i | y.Contains(i) :: y'.Contains(i)
    ensures Values(op, x, y) <= Values(op, x', y')
  {
  }

  lemma QuadrantsWithin(op: Op, x: IntRange, y: IntRange)
    ensures Quadrants(op, x, y) <= Values(op, x, y)
  {
    var p, q := SplitSigns(x), SplitSigns(y);
    ValuesMonotone(op, p.neg, q.neg, x, y);
    ValuesMonotone(op, p.neg, q.pos, x, y);
    ValuesMonotone(op, p.pos, q.neg, x, y);
    ValuesMonotone(op, p.pos, q.pos, x, y);
  }

  lemma QuadrantsCover(op: Op, x: IntRange, y: IntRange, a: int, b: int)
    requires x.Contains(a) && y.Contains(b) && Valid(op, b)
    requires a != 0 && b != 0
    ensures Apply(op, a, b) in Quadrants(op, x, y)
  {
    var p, q := SplitSigns(x), SplitSigns(y);
    InValues(op, if a < 0 then p.neg else p.pos, if b < 0 then q.neg else q.pos, a, b);
  }

  /** What remains outside the quadrants: zero operands. */
  ghost function ZeroPart(op: Op, x: IntRange, y: IntRange): iset<int>
  {
    if op.OpLsh? && y.Contains(0) then Members(x)
    else if (op.OpMul? && y.Contains(0)) || x.Contains(0) then iset{0}
    else iset{}
  }

  lemma ZeroAndQuadrants(op: Op, x: IntRange, y: IntRange)
    requires op.OpMul? || op.OpLsh?
    requires !x.Empty() && !y.Empty()
    requires op.OpLsh? ==> !y.ContainsNegative()
    ensures Values(op, x, y) == ZeroPart(op, x, y) + Quadrants(op, x, y)
  {
    var s, t := Values(op, x, y), ZeroPart(op, x, y) + Quadrants(op, x, y);
    QuadrantsWithin(op, x, y);
    Membership(y);
    forall v | v in s ensures v in t {
      var a, b :| x.Contains(a) && y.Contains(b) && Valid(op, b) && Apply(op, a, b) == v;
      if a != 0 && b != 0 {
        QuadrantsCover(op, x, y, a, b);
      } else {
        ZeroOperand(op, a, b);
      }
    }
    forall v | v in ZeroPart(op, x, y) ensures v in s {
      var a := if x.Contains(v) then v else Witness(x);
      var b := if y.Contains(0) then 0 else Witness(y);
      ZeroOperand(op, a, b);
      InValues(op, x, y, a, b);
    }
  }

  lemma ZeroOperand(op: Op, a: int, b: int)
    requires (op.OpMul? || op.OpLsh?) && Valid(op, b)
    ensures a == 0 || (op.OpMul? && b == 0) ==> Apply(op, a, b) == 0
    ensures op.OpLsh? && b == 0 ==> Apply(op, a, b) == a
  {
    if op.OpLsh? && a == 0 { assert 0 * Pow2(b) == 0; }
    if op.OpLsh? && b == 0 { assert a * Pow2(0) == a; }
  }

  method MulLsh(x: IntRange, y: IntRange, shift: bool) returns (z: IntRange)
    requires shift ==> x.Empty() || !y.ContainsNegative()
    ensures IsHull(z, Values(if shift then OpLsh else OpMul, x, y))
  {
    var op := if shift then OpLsh else OpMul;
    if x.Empty() || y.Empty() {
      EmptyOperand(op, x, y);
      return EMPTY;
    }
    ghost var all := Values(op, x, y);
    ZeroAndQuadrants(op, x, y);
    Membership(y);
    var p, q := SplitSigns(x), SplitSigns(y);
    if x.JustZero() || (!shift && y.JustZero()) {
      AllZero(op, x, y);
      return ZERO;
    }
    var ret := new BiggerIntPair();
    if q.hasZero && shift {
      ret.FromIntRange(x);
    } else if (q.hasZero && !shift) || p.hasZero {
      ret.lo, ret.hi := Finite(0), Finite(0);
    }
    ghost var s := ZeroPart(op, x, y);
    assert ret.Spans(s);
    MulNegative(op, p, q, ret, s);
    s := s + Values(op, p.neg, q.neg) + Values(op, p.neg, q.pos);
    MulPositive(op, p, q, ret, s);
    s := s + Values(op, p.pos, q.neg) + Values(op, p.pos, q.pos);
    UnionAssociates(ZeroPart(op, x, y), Values(op, p.neg, q.neg), Values(op, p.neg, q.pos),
                    Values(op, p.pos, q.neg), Values(op, p.pos, q.pos));
    z := ret.ToIntRange(all);
  }

  lemma AllZero(op: Op, x: IntRange, y: IntRange)
    requires op.OpMul? || op.OpLsh?
    requires !x.Empty() && !y.Empty()
    requires op.OpLsh? ==> !y.ContainsNegative()
    requires x.JustZero() || (op.OpMul? && y.JustZero())
    ensures IsHull(ZERO, Values(op, x, y))
  {
    Membership(y);
    InValues(op, x, y, Witness(x), Witness(y));
    forall a, b | x.Contains(a) && y.Contains(b) && Valid(op, b) ensures Apply(op, a, b) == 0 {
      ZeroOperand(op, a, b);
    }
  }

  /** The part of `mulLsh` for negative x. */
  method MulNegative(op: Op, p: Split, q: Split, ret: BiggerIntPair, ghost s: iset<int>)
    requires op.OpMul? || op.OpLsh?
    requires SplitOk(p) && SplitOk(q) && ret.Spans(s)
    requires op.OpLsh? ==> q.negEmpty
    modifies ret
    ensures ret.Spans(s + Values(op, p.neg, q.neg) + Values(op, p.neg, q.pos))
  {
    ghost var s1 := s + Values(op, p.neg, q.neg);
    if !p.negEmpty && !q.negEmpty {
      NegativeQuadrant(p.neg, q.neg);
      ret.Widen(Finite(p.neg.hi.v * q.neg.hi.v),
                if p.neg.lo.Nil? || q.neg.lo.Nil? then PlusInf else Finite(p.neg.lo.v * q.neg.lo.v),
                s, Values(op, p.neg, q.neg));
    } else {
      EmptyOperand(op, p.neg, q.neg);
      assert s1 == s;
    }
    if !p.negEmpty && !q.posEmpty {
      NegativePositiveQuadrant(op, p.neg, q.pos);
      ret.Widen(if p.neg.lo.Nil? || q.pos.hi.Nil? then MinusInf else Finite(Apply(op, p.neg.lo.v, q.pos.hi.v)),
                Finite(Apply(op, p.neg.hi.v, q.pos.lo.v)),
                s1, Values(op, p.neg, q.pos));
    } else {
      EmptyOperand(op, p.neg, q.pos);
      assert s1 + Values(op, p.neg, q.pos) == s1;
    }
  }

  /** The part of `mulLsh` for positive x. */
  method MulPositive(op: Op, p: Split, q: Split, ret: BiggerIntPair, ghost s: iset<int>)
    requires op.OpMul? || op.OpLsh?
    requires SplitOk(p) && SplitOk(q) && ret.Spans(s)
    requires op.OpLsh? ==> q.negEmpty
    modifies ret
    ensures ret.Spans(s + Values(op, p.pos, q.neg) + Values(op, p.pos, q.pos))
  {
    ghost var s1 := s + Values(op, p.pos, q.neg);
    if !p.posEmpty && !q.negEmpty {
      PositiveNegativeQuadrant(p.pos, q.neg);
      ret.Widen(if p.pos.hi.Nil? || q.neg.lo.Nil? then MinusInf else Finite(p.pos.hi.v * q.neg.lo.v),
                Finite(p.pos.lo.v * q.neg.hi.v),
                s, Values(op, p.pos, q.neg));
    } else {
      EmptyOperand(op, p.pos, q.neg);
      assert s1 == s;
    }
    if !p.posEmpty && !q.posEmpty {
      PositiveQuadrant(op, p.pos, q.pos);
      ret.Widen(Finite(Apply(op, p.pos.lo.v, q.pos.lo.v)),
                if p.pos.hi.Nil? || q.pos.hi.Nil? then PlusInf else Finite(Apply(op, p.pos.hi.v, q.pos.hi.v)),
                s1, Values(op, p.pos, q.pos));
    } else {
      EmptyOperand(op, p.pos, q.pos);
      assert s1 + Values(op, p.pos, q.pos) == s1;
    }
  }

  method Mul(x: IntRange, y: IntRange) returns (z: IntRange)
    ensures IsHull(z, Values(OpMul, x, y))
  {
    z := MulLsh(x, y, false);
  }

  /** A shift by a possibly negative amount is refused. */
  method LshRange(x: IntRange, y: IntRange) returns (z: IntRange, ok: bool)
    ensures ok <==> x.Empty() || forall b | y.Contains(b) :: Valid(OpLsh, b)
    ensures if ok then IsHull(z, Values(OpLsh, x, y)) else z == EVERYTHING
  {
    Membership(y);
    if !x.Empty() && y.ContainsNegative() {
      return EVERYTHING, false;
    }
    z := MulLsh(x, y, true);
    ok := true;
  }

  // ---------------- Quo

  lemma DivMono(a: int, a': int, d: int)
    requires a <= a' && 0 < d
    ensures a / d <= a' / d
  {
    var k := a / d - a' / d;
    assert a == a / d * d + a % d && a' == a' / d * d + a' % d;
    MulSub(a / d, a' / d, d);
    if k >= 1 { MulAtLeast(k, d); }
  }

  lemma DivNonneg(a: int, d: int)
    requires 0 <= a && 0 < d
    ensures 0 <= a / d
  {
  }

  lemma DivByLarger(a: int, d: int, d': int)
    requires 0 <= a && 0 < d <= d'
    ensures a / d' <= a / d
  {
    var q := a / d';
    DivNonneg(a, d');
    assert q * d' <= a;
    MulMono(q, q, d, d');
    DivMono(q * d, a, d);
    DivModUnique(q * d, d, q, 0);
  }

  lemma DivSmall(a: int, d: int)
    requires 0 <= a < d
    ensures a / d == 0
  {
    DivModUnique(a, d, 0, a);
  }

  function QuoLeast(x: IntRange, y: IntRange): BiggerInt
    requires x.lo.Int? && (y.hi.Int? ==> y.hi.v != 0)
  {
    if y.hi.Nil? then Finite(0) else Finite(Quo(x.lo.v, y.hi.v))
  }

  function QuoGreatest(x: IntRange, y: IntRange): BiggerInt
    requires y.lo.Int? && y.lo.v != 0
  {
    if x.hi.Nil? then PlusInf else Finite(Quo(x.hi.v, y.lo.v))
  }

  lemma PositiveQuo(x: IntRange, y: IntRange)
    requires !x.Empty() && x.lo.Int? && 1 <= x.lo.v
    requires !y.Empty() && y.lo.Int? && 1 <= y.lo.v
    ensures IsInf(QuoLeast(x, y), Values(OpQuo, x, y))
    ensures IsSup(QuoGreatest(x, y), Values(OpQuo, x, y))
  {
    var s := Values(OpQuo, x, y);
    forall v | v in s
      ensures 0 <= v
      ensures y.hi.Int? ==> Quo(x.lo.v, y.hi.v) <= v
      ensures x.hi.Int? ==> v <= Quo(x.hi.v, y.lo.v)
    {
      var a, b :| x.Contains(a) && y.Contains(b) && Valid(OpQuo, b) && Apply(OpQuo, a, b) == v;
      DivNonneg(a, b);
      if y.hi.Int? { DivMono(x.lo.v, a, b); DivByLarger(x.lo.v, b, y.hi.v); }
      if x.hi.Int? { DivMono(a, x.hi.v, b); DivByLarger(x.hi.v, y.lo.v, b); }
    }
    if y.hi.Int? {
      InValues(OpQuo, x, y, x.lo.v, y.hi.v);
    } else {
      DivSmall(x.lo.v, y.lo.v + x.lo.v);
      InValues(OpQuo, x, y, x.lo.v, y.lo.v + x.lo.v);
    }
    if x.hi.Int? {
      InValues(OpQuo, x, y, x.hi.v, y.lo.v);
    } else {
      forall m ensures !BoundedAbove(s, m) {
        var k := x.lo.v + Abs(m) + 1;
        MulMono(k, k, 1, y.lo.v);
        InValues(OpQuo, x, y, k * y.lo.v, y.lo.v);
        DivModUnique(k * y.lo.v, y.lo.v, k, 0);
      }
    }
  }

  lemma QuoNegated(a: int, b: int)
    requires b != 0
    ensures Quo(-a, b) == -Quo(a, b) && Quo(a, -b) == -Quo(a, b)
  {
  }

  lemma NegativePositiveQuo(x: IntRange, y: IntRange)
    requires !x.Empty() && x.hi.Int? && x.hi.v <= -1
    requires !y.Empty() && y.lo.Int? && 1 <= y.lo.v
    ensures IsInf(if x.lo.Nil? then MinusInf else Finite(Quo(x.lo.v, y.lo.v)), Values(OpQuo, x, y))
    ensures IsSup(if y.hi.Nil? then Finite(0) else Finite(Quo(x.hi.v, y.hi.v)), Values(OpQuo, x, y))
  {
    PositiveQuo(Negated(x), y);
    MirrorLeft(OpQuo, x, y, QuoLeast(Negated(x), y), QuoGreatest(Negated(x), y));
  }

  lemma PositiveNegativeQuo(x: IntRange, y: IntRange)
    requires !x.Empty() && x.lo.Int? && 1 <= x.lo.v
    requires !y.Empty() && y.hi.Int? && y.hi.v <= -1
    ensures IsInf(if x.hi.Nil? then MinusInf else Finite(Quo(x.hi.v, y.hi.v)), Values(OpQuo, x, y))
    ensures IsSup(if y.lo.Nil? then Finite(0) else Finite(Quo(x.lo.v, y.lo.v)), Values(OpQuo, x, y))
  {
    var y' := Negated(y);
    PositiveQuo(x, y');
    var lo, hi := QuoLeast(x, y'), QuoGreatest(x, y');
    assert Opposite(hi) == if x.hi.Nil? then MinusInf else Finite(Quo(x.hi.v, y.hi.v)) by {
      if x.hi.Int? { QuoNegated(x.hi.v, y.hi.v); }
    }
    assert Opposite(lo) == if y.lo.Nil? then Finite(0) else Finite(Quo(x.lo.v, y.lo.v)) by {
      if y.lo.Int? { QuoNegated(x.lo.v, y.lo.v); }
    }
    MirrorRight(OpQuo, x, y, lo, hi);
  }

  lemma NegativeQuo(x: IntRange, y: IntRange)
    requires !x.Empty() && x.hi.Int? && x.hi.v <= -1
    requires !y.Empty() && y.hi.Int? && y.hi.v <= -1
    ensures IsInf(if y.lo.Nil? then Finite(0) else Finite(Quo(x.hi.v, y.lo.v)), Values(OpQuo, x, y))
    ensures IsSup(if x.lo.Nil? then PlusInf else Finite(Quo(x.lo.v, y.hi.v)), Values(OpQuo, x, y))
  {
    PositiveQuo(Negated(x), Negated(y));
    MirrorBoth(OpQuo, x, y, QuoLeast(Negated(x), Negated(y)), QuoGreatest(Negated(x), Negated(y)));
    if y.lo.Int? { QuoBothNegated(x.hi.v, y.lo.v); }
    if x.lo.Int? { QuoBothNegated(x.lo.v, y.hi.v); }
  }

  lemma QuoBothNegated(a: int, b: int)
    requires b != 0
    ensures Quo(-a, -b) == Quo(a, b)
  {
  }

  lemma QuoZeroAndQuadrants(x: IntRange, y: IntRange)
    requires !x.Empty() && !y.Empty() && !y.Contains(0)
    ensures Values(OpQuo, x, y) == (if x.Contains(0) then iset{0} else iset{}) + Quadrants(OpQuo, x, y)
  {
    var zero := if x.Contains(0) then iset{0} else iset{};
    var s, t := Values(OpQuo, x, y), zero + Quadrants(OpQuo, x, y);
    QuadrantsWithin(OpQuo, x, y);
    forall v | v in s ensures v in t {
      var a, b :| x.Contains(a) && y.Contains(b) && Valid(OpQuo, b) && Apply(OpQuo, a, b) == v;
      if a != 0 { QuadrantsCover(OpQuo, x, y, a, b); } else { DivSmall(0, Abs(b)); }
    }
    forall v | v in zero ensures v in s {
      var b := Witness(y);
      DivSmall(0, Abs(b));
      InValues(OpQuo, x, y, 0, b);
    }
  }

  lemma ZeroDividend(x: IntRange, y: IntRange)
    requires x.JustZero() && !y.Empty() && !y.Contains(0)
    ensures IsHull(ZERO, Values(OpQuo, x, y))
  {
    InValues(OpQuo, x, y, 0, Witness(y));
    forall b | y.Contains(b) ensures Quo(0, b) == 0 { DivSmall(0, Abs(b)); }
  }

  /** Division by a range that contains zero is refused. */
  method QuoRange(x: IntRange, y: IntRange) returns (z: IntRange, ok: bool)
    ensures ok <==> x.Empty() || forall b | y.Contains(b) :: Valid(OpQuo, b)
    ensures if ok then IsHull(z, Values(OpQuo, x, y)) else z == EVERYTHING
  {
    Membership(y);
    if x.Empty() || y.Empty() {
      EmptyOperand(OpQuo, x, y);
      return EMPTY, true;
    }
    if y.ContainsZero() {
      assert !Valid(OpQuo, 0);
      return EVERYTHING, false;
    }
    ok := true;
    QuoZeroAndQuadrants(x, y);
    var p, q := SplitSigns(x), SplitSigns(y);
    if x.JustZero() {
      ZeroDividend(x, y);
      return ZERO, true;
    }
    var ret := new BiggerIntPair();
    ghost var s := iset{};
    if p.hasZero {
      ret.lo, ret.hi := Finite(0), Finite(0);
      s := iset{0};
    }
    QuoNegative(p, q, ret, s);
    s := s + Values(OpQuo, p.neg, q.neg) + Values(OpQuo, p.neg, q.pos);
    QuoPositive(p, q, ret, s);
    s := s + Values(OpQuo, p.pos, q.neg) + Values(OpQuo, p.pos, q.pos);
    UnionAssociates(if p.hasZero then iset{0} else iset{}, Values(OpQuo, p.neg, q.neg), Values(OpQuo, p.neg, q.pos),
                    Values(OpQuo, p.pos, q.neg), Values(OpQuo, p.pos, q.pos));
    z := ret.ToIntRange(s);
  }

  /** The part of `Quo` for negative x. */
  method QuoNegative(p: Split, q: Split, ret: BiggerIntPair, ghost s: iset<int>)
    requires SplitOk(p) && SplitOk(q) && ret.Spans(s)
    modifies ret
    ensures ret.Spans(s + Values(OpQuo, p.neg, q.neg) + Values(OpQuo, p.neg, q.pos))
  {
    ghost var s1 := s + Values(OpQuo, p.neg, q.neg);
    if !p.negEmpty && !q.negEmpty {
      NegativeQuo(p.neg, q.neg);
      ret.Widen(if q.neg.lo.Nil? then Finite(0) else Finite(Quo(p.neg.hi.v, q.neg.lo.v)),
                if p.neg.lo.Nil? then PlusInf else Finite(Quo(p.neg.lo.v, q.neg.hi.v)),
                s, Values(OpQuo, p.neg, q.neg));
    } else {
      EmptyOperand(OpQuo, p.neg, q.neg);
      assert s1 == s;
    }
    if !p.negEmpty && !q.posEmpty {
      NegativePositiveQuo(p.neg, q.pos);
      ret.Widen(if p.neg.lo.Nil? then MinusInf else Finite(Quo(p.neg.lo.v, q.pos.lo.v)),
                if q.pos.hi.Nil? then Finite(0) else Finite(Quo(p.neg.hi.v, q.pos.hi.v)),
                s1, Values(OpQuo, p.neg, q.pos));
    } else {
      EmptyOperand(OpQuo, p.neg, q.pos);
      assert s1 + Values(OpQuo, p.neg, q.pos) == s1;
    }
  }

  /** The part of `Quo` for positive x. */
  method QuoPositive(p: Split, q: Split, ret: BiggerIntPair, ghost s: iset<int>)
    requires SplitOk(p) && SplitOk(q) && ret.Spans(s)
    modifies ret
    ensures ret.Spans(s + Values(OpQuo, p.pos, q.neg) + Values(OpQuo, p.pos, q.pos))
  {
    ghost var s1 := s + Values(OpQuo, p.pos, q.neg);
    if !p.posEmpty && !q.negEmpty {
      PositiveNegativeQuo(p.pos, q.neg);
      ret.Widen(if p.pos.hi.Nil? then MinusInf else Finite(Quo(p.pos.hi.v, q.neg.hi.v)),
                if q.neg.lo.Nil? then Finite(0) else Finite(Quo(p.pos.lo.v, q.neg.lo.v)),
                s, Values(OpQuo, p.pos, q.neg));
    } else {
      EmptyOperand(OpQuo, p.pos, q.neg);
      assert s1 == s;
    }
    if !p.posEmpty && !q.posEmpty {
      PositiveQuo(p.pos, q.pos);
      ret.Widen(if q.pos.hi.Nil? then Finite(0) else Finite(Quo(p.pos.lo.v, q.pos.hi.v)),
                if p.pos.hi.Nil? then PlusInf else Finite(Quo(p.pos.hi.v, q.pos.lo.v)),
                s1, Values(OpQuo, p.pos, q.pos));
    } else {
      EmptyOperand(OpQuo, p.pos, q.pos);
      assert s1 + Values(OpQuo, p.pos, q.pos) == s1;
    }
  }

  // ---------------- Rsh

  /** Shifting further right moves towards zero from above and towards minus one from below. */
  lemma RshFurther(a: int, m: nat, n: nat)
    requires m <= n
    ensures 0 <= a ==> 0 <= Rsh(a, n) <= Rsh(a, m)
    ensures a < 0 ==> Rsh(a, m) <= Rsh(a, n) <= -1
  {
    DivDivPow2(a, m, n - m);
    var c, d := a / Pow2(m), Pow2(n - m);
    if 0 <= a {
      DivNonneg(a, Pow2(m));
      DivNonneg(c, d);
      DivByLarger(c, 1, d);
    } else {
      DivMono(a, -1, Pow2(m));
      DivModUnique(-1, Pow2(m), -1, Pow2(m) - 1);
      DivMono(c, -1, d);
      DivModUnique(-1, d, -1, d - 1);
      MulMono(-c, -c, 1, d);
      assert c * d <= c;
      DivMono(c * d, c, d);
      DivModUnique(c * d, d, c, 0);
    }
  }

  lemma RshAll(a: int)
    ensures 0 <= a ==> Rsh(a, a) == 0
    ensures a < 0 ==> Rsh(a, -a) == -1
  {
    Pow2Above(Abs(a));
    if 0 <= a {
      DivSmall(a, Pow2(a));
    } else {
      DivModUnique(a, Pow2(-a), -1, Pow2(-a) + a);
    }
  }

  lemma NegativeRsh(x: IntRange, y: IntRange)
    requires !x.Empty() && x.hi.Int? && x.hi.v <= -1
    requires !y.Empty() && y.lo.Int? && 0 <= y.lo.v
    ensures IsInf(if x.lo.Nil? then MinusInf else Finite(Rsh(x.lo.v, y.lo.v)), Values(OpRsh, x, y))
    ensures IsSup(if y.hi.Nil? then Finite(-1) else Finite(Rsh(x.hi.v, y.hi.v)), Values(OpRsh, x, y))
  {
    var s := Values(OpRsh, x, y);
    forall v | v in s
      ensures v <= -1
      ensures x.lo.Int? ==> Rsh(x.lo.v, y.lo.v) <= v
      ensures y.hi.Int? ==> v <= Rsh(x.hi.v, y.hi.v)
    {
      var a, b :| x.Contains(a) && y.Contains(b) && Valid(OpRsh, b) && Apply(OpRsh, a, b) == v;
      RshFurther(a, y.lo.v, b);
      if x.lo.Int? { DivMono(x.lo.v, a, Pow2(y.lo.v)); }
      if y.hi.Int? { RshFurther(a, b, y.hi.v); DivMono(a, x.hi.v, Pow2(y.hi.v)); }
    }
    if x.lo.Int? {
      InValues(OpRsh, x, y, x.lo.v, y.lo.v);
    } else {
      forall m ensures !BoundedBelow(s, m) {
        var k, d := x.hi.v - Abs(m) - 1, Pow2(y.lo.v);
        MulMono(-k, -k, 1, d);
        assert k * d <= k;
        InValues(OpRsh, x, y, k * d, y.lo.v);
        DivModUnique(k * d, d, k, 0);
      }
    }
    if y.hi.Int? {
      InValues(OpRsh, x, y, x.hi.v, y.hi.v);
    } else {
      RshAll(x.hi.v);
      RshFurther(x.hi.v, -x.hi.v, y.lo.v - x.hi.v);
      InValues(OpRsh, x, y, x.hi.v, y.lo.v - x.hi.v);
    }
  }

  lemma PositiveRsh(x: IntRange, y: IntRange)
    requires !x.Empty() && x.lo.Int? && 0 <= x.lo.v
    requires !y.Empty() && y.lo.Int? && 0 <= y.lo.v
    ensures IsInf(if y.hi.Nil? then Finite(0) else Finite(Rsh(x.lo.v, y.hi.v)), Values(OpRsh, x, y))
    ensures IsSup(if x.hi.Nil? then PlusInf else Finite(Rsh(x.hi.v, y.lo.v)), Values(OpRsh, x, y))
  {
    var s := Values(OpRsh, x, y);
    forall v | v in s
      ensures 0 <= v
      ensures x.hi.Int? ==> v <= Rsh(x.hi.v, y.lo.v)
      ensures y.hi.Int? ==> Rsh(x.lo.v, y.hi.v) <= v
    {
      var a, b :| x.Contains(a) && y.Contains(b) && Valid(OpRsh, b) && Apply(OpRsh, a, b) == v;
      RshFurther(a, y.lo.v, b);
      if x.hi.Int? { DivMono(a, x.hi.v, Pow2(y.lo.v)); }
      if y.hi.Int? { RshFurther(a, b, y.hi.v); DivMono(x.lo.v, a, Pow2(y.hi.v)); }
    }
    if x.hi.Int? {
      InValues(OpRsh, x, y, x.hi.v, y.lo.v);
    } else {
      forall m ensures !BoundedAbove(s, m) {
        var k, d := x.lo.v + Abs(m) + 1, Pow2(y.lo.v);
        MulMono(k, k, 1, d);
        InValues(OpRsh, x, y, k * d, y.lo.v);
        DivModUnique(k * d, d, k, 0);
      }
    }
    if y.hi.Int? {
      InValues(OpRsh, x, y, x.lo.v, y.hi.v);
    } else {
      RshAll(x.lo.v);
      RshFurther(x.lo.v, x.lo.v, y.lo.v + x.lo.v);
      InValues(OpRsh, x, y, x.lo.v, y.lo.v + x.lo.v);
    }
  }

  lemma RshBySign(x: IntRange, y: IntRange)
    requires !y.Empty() && y.lo.Int? && 0 <= y.lo.v
    ensures Values(OpRsh, x, y) ==
            (if x.Contains(0) then iset{0} else iset{})
            + Values(OpRsh, SplitSigns(x).neg, y) + Values(OpRsh, SplitSigns(x).pos, y)
  {
    var p := SplitSigns(x);
    var zero := if x.Contains(0) then iset{0} else iset{};
    var s, t := Values(OpRsh, x, y), zero + Values(OpRsh, p.neg, y) + Values(OpRsh, p.pos, y);
    forall v | v in s ensures v in t {
      var a, b :| x.Contains(a) && y.Contains(b) && Valid(OpRsh, b) && Apply(OpRsh, a, b) == v;
      if a == 0 { DivSmall(0, Pow2(b)); } else { InValues(OpRsh, if a < 0 then p.neg else p.pos, y, a, b); }
    }
    forall v | v in zero ensures v in s {
      DivSmall(0, Pow2(y.lo.v));
      InValues(OpRsh, x, y, 0, y.lo.v);
    }
  }

  /** A shift by a possibly negative amount is refused. */
  method RshRange(x: IntRange, y: IntRange) returns (z: IntRange, ok: bool)
    ensures ok <==> x.Empty() || forall b | y.Contains(b) :: Valid(OpRsh, b)
    ensures if ok then IsHull(z, Values(OpRsh, x, y)) else z == EVERYTHING
  {
    Membership(y);
    if x.Empty() || y.Empty() {
      EmptyOperand(OpRsh, x, y);
      return EMPTY, true;
    }
    if y.ContainsNegative() {
      return EVERYTHING, false;
    }
    ok := true;
    RshBySign(x, y);
    var p := SplitSigns(x);
    if x.JustZero() {
      EmptyOperand(OpRsh, p.neg, y);
      EmptyOperand(OpRsh, p.pos, y);
      assert Values(OpRsh, x, y) == iset{0};
      return ZERO, true;
    }
    var ret := new BiggerIntPair();
    ghost var s := iset{};
    if p.hasZero {
      ret.lo, ret.hi := Finite(0), Finite(0);
      s := iset{0};
    }
    RshParts(p, y, ret, s);
    s := s + Values(OpRsh, p.neg, y) + Values(OpRsh, p.pos, y);
    z := ret.ToIntRange(s);
  }

  /** The parts of `Rsh` for negative and for positive x. */
  method RshParts(p: Split, y: IntRange, ret: BiggerIntPair, ghost s: iset<int>)
    requires SplitOk(p) && ret.Spans(s)
    requires !y.Empty() && y.lo.Int? && 0 <= y.lo.v
    modifies ret
    ensures ret.Spans(s + Values(OpRsh, p.neg, y) + Values(OpRsh, p.pos, y))
  {
    ghost var s1 := s + Values(OpRsh, p.neg, y);
    if !p.negEmpty {
      NegativeRsh(p.neg, y);
      ret.Widen(if p.neg.lo.Nil? then MinusInf else Finite(Rsh(p.neg.lo.v, y.lo.v)),
                if y.hi.Nil? then Finite(-1) else Finite(Rsh(p.neg.hi.v, y.hi.v)),
                s, Values(OpRsh, p.neg, y));
    } else {
      EmptyOperand(OpRsh, p.neg, y);
      assert s1 == s;
    }
    if !p.posEmpty {
      PositiveRsh(p.pos, y);
      ret.Widen(if y.hi.Nil? then Finite(0) else Finite(Rsh(p.pos.lo.v, y.hi.v)),
                if p.pos.hi.Nil? then PlusInf else Finite(Rsh(p.pos.hi.v, y.lo.v)),
                s1, Values(OpRsh, p.pos, y));
    } else {
      EmptyOperand(OpRsh, p.pos, y);
      assert s1 + Values(OpRsh, p.pos, y) == s1;
    }
  }
}
