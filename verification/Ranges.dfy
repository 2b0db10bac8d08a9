/** The ranges that the checker computes for expressions, and what it proves with them
    (bcheckExpr and its helpers in lang/check/bounds.go, proveBinaryOp in lang/check/assert.go,
    the rules of lang/check/data.go). */
module Ranges {
  import opened Options
  import opened Programs
  import opened Rendering
  import opened Facts
  import Bits
  import Interval
  import IntervalBitwise

  // ---------------- Binary operators

  const MAX_INT_BITS := 64

  function Smaller(a: int, b: int): int { if a < b then a else b }
  function Larger(a: int, b: int): int { if a < b then b else a }

  /** The range of `l op r` from those of l and r; None is an error. (The tests for r.hi < 0 only
      concern empty ranges.) */
  function OpRange(op: Arith, l: Range, r: Range): Option<Range>
  {
    match op
    case Plus => Some(Range(l.lo + r.lo, l.hi + r.hi))
    case Minus => Some(Range(l.lo - r.hi, l.hi - r.lo))
    case Star => if l.lo < 0 || r.lo < 0 then None else Some(Range(l.lo * r.lo, l.hi * r.hi))
    case ShiftL =>
      if l.lo < 0 || r.lo < 0 || r.hi > MAX_SHIFT || r.hi < 0 then None
      else Some(Range(Interval.Lsh(l.lo, r.lo), Interval.Lsh(l.hi, r.hi)))
    case ShiftR =>
      if l.lo < 0 || r.lo < 0 then None
      else if r.lo >= MAX_INT_BITS then Some(Range(0, 0))
      else if r.hi >= MAX_INT_BITS || r.hi < 0 then Some(Range(0, Interval.Rsh(l.hi, r.lo)))
      else Some(Range(Interval.Rsh(l.lo, r.hi), Interval.Rsh(l.hi, r.lo)))
    case Percent => if l.lo < 0 || r.lo <= 0 then None else Some(Range(0, r.hi - 1))
    case Amp => Masked(l, r, Smaller(l.hi, r.hi))
    case Pipe => Masked(l, r, Larger(l.hi, r.hi))
    case Hat => Masked(l, r, Larger(l.hi, r.hi))
    case Slash => None
    case AmpHat => None
  }

  /** From zero to z rounded up to a power of two minus one. */
  function Masked(l: Range, r: Range, z: int): Option<Range>
  {
    if l.lo < 0 || l.hi > U64_MAX || r.lo < 0 || r.hi > U64_MAX then None
    else Some(Range(0, Bits.Pow2(Bits.BitLen(Bits.Abs(z))) - 1))
  }

  lemma U64Max()
    ensures U64_MAX == Bits.Pow2(MAX_INT_BITS) - 1
  {
    Bits.Pow2Large();
    Bits.Pow2Add(32, 32);
  }

  lemma ShiftLeftSound(l: Range, r: Range, a: int, b: int)
    requires 0 <= l.lo <= a <= l.hi && 0 <= r.lo <= b <= r.hi
    ensures Interval.Lsh(l.lo, r.lo) <= Interval.Lsh(a, b) <= Interval.Lsh(l.hi, r.hi)
  {
    Bits.Pow2Mono(r.lo, b);
    Bits.Pow2Mono(b, r.hi);
    Interval.MulMono(l.lo, a, Bits.Pow2(r.lo), Bits.Pow2(b));
    Interval.MulMono(a, l.hi, Bits.Pow2(b), Bits.Pow2(r.hi));
  }

  lemma ShiftRightMono(a: int, a': int, b: nat, b': nat)
    requires 0 <= a <= a' && b <= b'
    ensures 0 <= Interval.Rsh(a, b') <= Interval.Rsh(a', b)
  {
    Bits.Pow2Mono(b, b');
    Interval.DivNonneg(a, Bits.Pow2(b'));
    Interval.DivByLarger(a, Bits.Pow2(b), Bits.Pow2(b'));
    Interval.DivMono(a, a', Bits.Pow2(b));
  }

  lemma BitwiseSound(l: Range, r: Range, a: int, b: int)
    requires 0 <= l.lo <= a <= l.hi && 0 <= r.lo <= b <= r.hi
    ensures 0 <= Bits.And(a, b) < Bits.Pow2(Bits.BitLen(Bits.Abs(Smaller(l.hi, r.hi))))
    ensures 0 <= Bits.Or(a, b) < Bits.Pow2(Bits.BitLen(Bits.Abs(Larger(l.hi, r.hi))))
    ensures 0 <= Bits.Xor(a, b) < Bits.Pow2(Bits.BitLen(Bits.Abs(Larger(l.hi, r.hi))))
  {
    hide Bits.And, Bits.Or, Bits.AndNot, Bits.Xor;
    Bits.BitLenBounds(Smaller(l.hi, r.hi));
    Bits.BitLenBounds(Larger(l.hi, r.hi));
    Bits.AndSign(a, b);
    IntervalBitwise.AndBelow(a, b);
    IntervalBitwise.OrBelowPow2(a, b, Bits.BitLen(Larger(l.hi, r.hi)));
    XorBelowOr(a, b);
  }

  lemma XorBelowOr(a: nat, b: nat)
    ensures 0 <= Bits.Xor(a, b) <= Bits.Or(a, b)
  {
    hide Bits.And, Bits.Or;
    var u, v := Bits.Or(a, b), Bits.And(a, b);
    Bits.OrSign(a, b);
    Bits.AndSign(a, b);
    Bits.AndSign(u, Bits.Not(v));
    forall i: nat
      ensures Bits.Bit(Bits.And(u, Bits.Not(v)), i) ==> Bits.Bit(u, i)
    {
      Bits.BitAnd(u, Bits.Not(v), i);
    }
    Bits.SubsetOrders(Bits.And(u, Bits.Not(v)), u);
  }

  /** Whatever the operands are in their ranges, the operator is defined and its value is in range. */
  lemma OpRangeSound(op: Arith, l: Range, r: Range, a: int, b: int)
    requires OpRange(op, l, r).Some? && l.Has(a) && r.Has(b)
    requires op == ShiftR && r.lo >= MAX_INT_BITS ==> l.hi <= U64_MAX
    ensures Defined(op, b) && OpRange(op, l, r).value.Has(Apply(op, a, b))
  {
    hide Interval.Lsh, Interval.Rsh, Bits.And, Bits.Or, Bits.Xor;
    match op
    case Star =>
      Interval.MulMono(l.lo, a, r.lo, b);
      Interval.MulMono(a, l.hi, b, r.hi);
    case ShiftL => ShiftLeftSound(l, r, a, b);
    case ShiftR =>
      if r.lo >= MAX_INT_BITS {
        U64Max();
        ShiftedOut(a, b);
      } else {
        ShiftRightMono(a, l.hi, r.lo, b);
        ShiftRightMono(l.lo, a, b, r.hi);
      }
    case Amp => BitwiseSound(l, r, a, b);
    case Pipe => BitwiseSound(l, r, a, b);
    case Hat => BitwiseSound(l, r, a, b);
    case _ =>
  }

  lemma ShiftedOut(a: int, b: nat)
    requires 0 <= a < Bits.Pow2(MAX_INT_BITS) && MAX_INT_BITS <= b
    ensures Interval.Rsh(a, b) == 0
  {
    Bits.Pow2Mono(MAX_INT_BITS, b);
    Interval.DivSmall(a, Bits.Pow2(b));
  }

  /** A right shift by 64 or more is taken to give zero, which is right exactly when the largest
      operand really is shifted out. */
  lemma FarShiftSoundIff(l: Range, r: Range)
    requires 0 <= l.lo <= l.hi && MAX_INT_BITS <= r.lo <= r.hi
    ensures (forall a, b | l.Has(a) && r.Has(b) :: OpRange(ShiftR, l, r).value.Has(Apply(ShiftR, a, b)))
            <==> l.hi < Bits.Pow2(r.lo)
  {
    if l.hi < Bits.Pow2(r.lo) {
      forall a, b | l.Has(a) && r.Has(b)
        ensures OpRange(ShiftR, l, r).value.Has(Apply(ShiftR, a, b))
      {
        Bits.Pow2Mono(r.lo, b);
        Interval.DivSmall(a, Bits.Pow2(b));
      }
    } else {
      assert l.Has(l.hi) && r.Has(r.lo);
      Interval.DivMono(Bits.Pow2(r.lo), l.hi, Bits.Pow2(r.lo));
      assert Apply(ShiftR, l.hi, r.lo) == l.hi / Bits.Pow2(r.lo) >= 1;
    }
  }

  // ---------------- Against exact interval arithmetic

  predicate IsU64(r: Range) { 0 <= r.lo && r.hi <= U64_MAX }

  function AsIntRange(r: Range): Interval.IntRange
  {
    Interval.IntRange(Interval.Int(r.lo), Interval.Int(r.hi))
  }

  function Exactly(op: Arith): Interval.Op
  {
    match op
    case Plus => Interval.OpAdd
    case Star => Interval.OpMul
    case ShiftL => Interval.OpLsh
    case ShiftR => Interval.OpRsh
    case Amp => Interval.OpAnd
    case _ => Interval.OpOr
  }

  /** For 64-bit operands, the range of +, *, <<, >>, & and | contains the exact interval z, which is
      the one that the interval package returns. */
  lemma ContainsExact(op: Arith, l: Range, r: Range, z: Interval.IntRange)
    requires op in {Plus, Star, ShiftL, ShiftR, Amp, Pipe} && IsU64(l) && IsU64(r)
    requires OpRange(op, l, r).Some?
    requires Interval.IsHull(z, Interval.Values(Exactly(op), AsIntRange(l), AsIntRange(r)))
    ensures forall v | z.Contains(v) :: OpRange(op, l, r).value.Has(v)
  {
    hide Interval.Lsh, Interval.Rsh, Bits.And, Bits.Or, Interval.IsHull, OpRange;
    var q := OpRange(op, l, r).value;
    var s := Interval.Values(Exactly(op), AsIntRange(l), AsIntRange(r));
    forall v | v in s
      ensures AsIntRange(q).Contains(v)
    {
      var a, b :| AsIntRange(l).Contains(a) && AsIntRange(r).Contains(b)
                  && Interval.Valid(Exactly(op), b) && v == Interval.Apply(Exactly(op), a, b);
      OpRangeSound(op, l, r, a, b);
    }
    Interval.HullIsLeast(z, s, AsIntRange(q));
  }

  // ---------------- Expressions

  /** A difference is narrowed by what a fact says about its two sides. */
  function NarrowedBy(f: Cond, l: Term, r: Term, n: Range): Range
  {
    if !(f.Cmp? && Eq(l, f.lhs) && Eq(r, f.rhs)) then n
    else match f.rel
      case Less => Range(n.lo, Smaller(n.hi, -1))
      case LessEq => Range(n.lo, Smaller(n.hi, 0))
      case GreaterEq => Range(Larger(n.lo, 0), n.hi)
      case Greater => Range(Larger(n.lo, 1), n.hi)
      case _ => n
  }

  function Narrowed(facts: Facts, l: Term, r: Term, n: Range): Range
  {
    if facts == [] then n else Narrowed(facts[1..], l, r, NarrowedBy(facts[0], l, r, n))
  }

  lemma {:induction false} NarrowedSound(facts: Facts, l: Term, r: Term, n: Range, s: State)
    requires AllHold(facts, s) && n.Has(Eval(l, s) - Eval(r, s))
    ensures Narrowed(facts, l, r, n).Has(Eval(l, s) - Eval(r, s))
  {
    if facts != [] {
      assert Truth(facts[0], s);
      NarrowedSound(facts[1..], l, r, NarrowedBy(facts[0], l, r, n), s);
    }
  }

  function BinaryRange(facts: Facts, op: Arith, l: Term, lr: Range, r: Term, rr: Range): Option<Range>
  {
    match OpRange(op, lr, rr)
    case None => None
    case Some(n) => Some(if op == Minus then Narrowed(facts, l, r, n) else n)
  }

  /** The checked range of t; None is an error. */
  function CheckTerm(typ: Typing, facts: Facts, t: Term): Option<Range>
    decreases t, 2
  {
    match RawRange(typ, facts, t)
    case None => None
    case Some(n) =>
      match Refined(facts, t, n)
      case None => None
      case Some(q) => if typ(t).Some? && !q.Within(typ(t).value) then None else Some(q)
  }

  function RawRange(typ: Typing, facts: Facts, t: Term): Option<Range>
    decreases t, 1
  {
    match t
    case Const(v, _) => Some(Range(v, v))
    case Var(_) => typ(t)
    case Neg(e) =>
      (match CheckTerm(typ, facts, e)
       case None => None
       case Some(r) => Some(Range(-r.hi, -r.lo)))
    case As(e, _) => CheckTerm(typ, facts, e)
    case Bin(op, l, r) => CheckBinary(typ, facts, op, l, r)
  }

  function CheckBinary(typ: Typing, facts: Facts, op: Arith, l: Term, r: Term): Option<Range>
    decreases Bin(op, l, r), 0
  {
    match CheckTerm(typ, facts, l)
    case None => None
    case Some(lr) =>
      match CheckTerm(typ, facts, r)
      case None => None
      case Some(rr) => BinaryRange(facts, op, l, lr, r, rr)
  }

  predicate CheckCond(typ: Typing, facts: Facts, c: Cond)
  {
    match c
    case Cmp(_, l, r) => CheckTerm(typ, facts, l).Some? && CheckTerm(typ, facts, r).Some?
    case And(d, e) => CheckCond(typ, facts, d) && CheckCond(typ, facts, e)
    case Or(d, e) => CheckCond(typ, facts, d) && CheckCond(typ, facts, e)
    case Not(d) => CheckCond(typ, facts, d)
  }

  /** No ideal constant of more than 64 bits is shifted right. */
  predicate Narrow(t: Term)
  {
    match t
    case Const(_, _) => true
    case Var(_) => true
    case Neg(e) => Narrow(e)
    case As(e, _) => Narrow(e)
    case Bin(op, l, r) => Narrow(l) && Narrow(r) && (op == ShiftR && l.Const? ==> l.v <= U64_MAX)
  }

  predicate NarrowCond(c: Cond)
  {
    match c
    case Cmp(_, l, r) => Narrow(l) && Narrow(r)
    case And(d, e) => NarrowCond(d) && NarrowCond(e)
    case Or(d, e) => NarrowCond(d) && NarrowCond(e)
    case Not(d) => NarrowCond(d)
  }

  ghost predicate Reaches(typ: Typing, facts: Facts, s: State)
  {
    TypingOk(typ) && InTypes(typ, s) && AllHold(facts, s)
  }

  /** An accepted expression can be evaluated without leaving any type, within the range computed. */
  lemma {:induction false} TermSound(typ: Typing, facts: Facts, t: Term, s: State)
    requires Reaches(typ, facts, s) && Narrow(t)
    requires CheckTerm(typ, facts, t).Some?
    ensures Safe(typ, t, s) && CheckTerm(typ, facts, t).value.Has(Eval(t, s))
    ensures t.Const? ==> CheckTerm(typ, facts, t).value.hi <= t.v
    decreases t, 1
  {
    hide OpRange, Refined, Apply, Defined;
    var n := RawRange(typ, facts, t).value;
    match t {
      case Const(_, _) =>
      case Var(x) => assert Fits(typ, Var(x), s(x));
      case Neg(e) => TermSound(typ, facts, e, s);
      case As(e, _) => TermSound(typ, facts, e, s);
      case Bin(op, l, r) => BinarySound(typ, facts, op, l, r, s);
    }
    RefinedSound(facts, t, n, s);
  }

  lemma {:induction false} BinarySound(typ: Typing, facts: Facts, op: Arith, l: Term, r: Term, s: State)
    requires Reaches(typ, facts, s) && Narrow(Bin(op, l, r))
    requires CheckBinary(typ, facts, op, l, r).Some?
    ensures Safe(typ, l, s) && Safe(typ, r, s) && Defined(op, Eval(r, s))
    ensures CheckBinary(typ, facts, op, l, r).value.Has(Eval(Bin(op, l, r), s))
    decreases Bin(op, l, r), 0
  {
    hide OpRange, Refined;
    TermSound(typ, facts, l, s);
    TermSound(typ, facts, r, s);
    var lr, rr := CheckTerm(typ, facts, l).value, CheckTerm(typ, facts, r).value;
    assert typ(l).Some? || l.Const?;
    OpRangeSound(op, lr, rr, Eval(l, s), Eval(r, s));
    if op == Minus {
      NarrowedSound(facts, l, r, OpRange(op, lr, rr).value, s);
    }
  }

  lemma {:induction false} CondSound(typ: Typing, facts: Facts, c: Cond, s: State)
    requires Reaches(typ, facts, s) && NarrowCond(c)
    requires CheckCond(typ, facts, c)
    ensures SafeCond(typ, c, s)
  {
    match c
    case Cmp(_, l, r) =>
      TermSound(typ, facts, l, s);
      TermSound(typ, facts, r, s);
    case And(d, e) =>
      CondSound(typ, facts, d, s);
      CondSound(typ, facts, e, s);
    case Or(d, e) =>
      CondSound(typ, facts, d, s);
      CondSound(typ, facts, e, s);
    case Not(d) => CondSound(typ, facts, d, s);
  }

  // ---------------- Proving comparisons

  /** Whether the relation holds for all values in the two ranges, as far as their ends tell. */
  predicate ProvedByRanges(rel: Relation, l: Range, r: Range)
  {
    match rel
    case NotEq => l.hi < r.lo || l.lo > r.hi
    case Less => l.hi < r.lo
    case LessEq => l.hi <= r.lo
    case EqEq => l.lo == r.hi && l.hi == r.lo
    case GreaterEq => l.lo >= r.hi
    case Greater => l.lo > r.hi
  }

  /** For ranges that are not empty, the ends tell exactly. */
  lemma ByRangesExact(rel: Relation, l: Range, r: Range)
    requires l.lo <= l.hi && r.lo <= r.hi && (l.lo == l.hi || r.lo == r.hi)
    ensures ProvedByRanges(rel, l, r) <==> forall a, b | l.Has(a) && r.Has(b) :: Compare(rel, a, b)
  {
    assert l.Has(l.lo) && l.Has(l.hi) && r.Has(r.lo) && r.Has(r.hi);
    if (forall a, b | l.Has(a) && r.Has(b) :: Compare(rel, a, b)) && rel == NotEq {
      assert !(l.Has(r.lo) && r.Has(r.lo)) && !(l.Has(l.lo) && r.Has(l.lo));
    }
  }

  predicate Implies(p: Relation, q: Relation)
  {
    || p == q
    || (p == Less && q in {NotEq, LessEq})
    || (p == Greater && q in {NotEq, GreaterEq})
  }

  /** The search through the facts: it ends at the first that decides. */
  predicate ProvedByFacts(facts: Facts, rel: Relation, l: Term, r: Term)
  {
    if facts == [] then false
    else
      var f := facts[0];
      if !(f.Cmp? && Eq(f.lhs, l)) then ProvedByFacts(facts[1..], rel, l, r)
      else if Implies(f.rel, rel) && Eq(f.rhs, r) then true
      else if f.rel == EqEq && r.Const? && f.rhs.Const? then Compare(rel, f.rhs.v, r.v)
      else ProvedByFacts(facts[1..], rel, l, r)
  }

  predicate Proves(typ: Typing, facts: Facts, rel: Relation, l: Term, r: Term)
  {
    if l.Const? && CheckTerm(typ, facts, r).None? then false
    else if l.Const? && ProvedByRanges(rel, Range(l.v, l.v), CheckTerm(typ, facts, r).value) then true
    else if r.Const? && CheckTerm(typ, facts, l).None? then false
    else if r.Const? && ProvedByRanges(rel, CheckTerm(typ, facts, l).value, Range(r.v, r.v)) then true
    else ProvedByFacts(facts, rel, l, r)
  }

  lemma {:induction false} ByFactsSound(facts: Facts, rel: Relation, l: Term, r: Term, s: State)
    requires AllHold(facts, s) && ProvedByFacts(facts, rel, l, r)
    ensures Compare(rel, Eval(l, s), Eval(r, s))
  {
    var f := facts[0];
    assert Truth(f, s);
    if f.Cmp? && Eq(f.lhs, l) && ((Implies(f.rel, rel) && Eq(f.rhs, r)) || (f.rel == EqEq && r.Const? && f.rhs.Const?)) {
    } else {
      ByFactsSound(facts[1..], rel, l, r, s);
    }
  }

  lemma ProvesSound(typ: Typing, facts: Facts, rel: Relation, l: Term, r: Term, s: State)
    requires Reaches(typ, facts, s) && Narrow(l) && Narrow(r)
    requires Proves(typ, facts, rel, l, r)
    ensures Compare(rel, Eval(l, s), Eval(r, s))
  {
    hide CheckTerm;
    if l.Const? && CheckTerm(typ, facts, r).Some? {
      TermSound(typ, facts, r, s);
    }
    if r.Const? && CheckTerm(typ, facts, l).Some? {
      TermSound(typ, facts, l, s);
    }
    if ProvedByFacts(facts, rel, l, r) {
      ByFactsSound(facts, rel, l, r, s);
    }
  }

  // ---------------- Proofs by a named rule

  /** What a rule asks to be proved of a claim: nothing fits, or these comparisons in order. */
  function Requirements(w: Reason, claim: Cond): Option<seq<Cond>>
  {
    if !claim.Cmp? then None
    else
      var a, b := claim.lhs, claim.rhs;
      match w.rule
      case LtFlip => if claim.rel == Less then Some([Cmp(Greater, b, a)]) else None
      case LtLtLt => Through(Less, claim, w.args, Less, Less)
      case LtLtEq => Through(Less, claim, w.args, Less, EqEq)
      case LtEqLt => Through(Less, claim, w.args, EqEq, Less)
      case LtLtLe => Through(Less, claim, w.args, Less, LessEq)
      case LtLeLt => Through(Less, claim, w.args, LessEq, Less)
      case LeFlip => if claim.rel == LessEq then Some([Cmp(GreaterEq, b, a)]) else None
      case LeLeLe => Through(LessEq, claim, w.args, LessEq, LessEq)
      case LeLeEq => Through(LessEq, claim, w.args, LessEq, EqEq)
      case LeEqLe => Through(LessEq, claim, w.args, EqEq, LessEq)
      case LtSumRight =>
        if claim.rel == Less && b.Bin? && b.op == Plus then Some([Cmp(Less, a, b.r), Cmp(LessEq, Number(0), b.l)])
        else None
      case LtSumParts =>
        if claim.rel == Less && b.Bin? && b.op == Plus && "b0" in w.args && "c0" in w.args then
          Some([Cmp(Less, a, Bin(Plus, w.args["b0"], w.args["c0"])),
                Cmp(LessEq, w.args["b0"], b.l), Cmp(LessEq, w.args["c0"], b.r)])
        else None
      case SumLeDifference =>
        if claim.rel == LessEq && a.Bin? && a.op == Plus then Some([Cmp(LessEq, a.l, Bin(Minus, b, a.r))])
        else None
  }

  /** A claim about a and b proved through the argument named c. */
  function Through(rel: Relation, claim: Cond, args: map<string, Term>, p: Relation, q: Relation): Option<seq<Cond>>
    requires claim.Cmp?
  {
    if claim.rel == rel && "c" in args then Some([Cmp(p, claim.lhs, args["c"]), Cmp(q, args["c"], claim.rhs)])
    else None
  }

  lemma HoldsAt(cs: seq<Cond>, i: nat, s: State)
    requires i < |cs| && AllHold(cs, s)
    ensures Truth(cs[i], s)
  {
  }

  /** Each of the thirteen rules is a valid inference. */
  lemma RulesSound(w: Reason, claim: Cond, s: State)
    requires Requirements(w, claim).Some? && AllHold(Requirements(w, claim).value, s)
    ensures Truth(claim, s)
  {
    hide Through;
    var due := Requirements(w, claim).value;
    hide AllHold;
    match w.rule
    case LtFlip => HoldsAt(due, 0, s);
    case LeFlip => HoldsAt(due, 0, s);
    case LtSumRight =>
      HoldsAt(due, 0, s);
      HoldsAt(due, 1, s);
    case LtSumParts =>
      HoldsAt(due, 0, s);
      HoldsAt(due, 1, s);
      HoldsAt(due, 2, s);
    case SumLeDifference => HoldsAt(due, 0, s);
    case LtLtLt => ThroughSound(Less, claim, w.args, Less, Less, s);
    case LtLtEq => ThroughSound(Less, claim, w.args, Less, EqEq, s);
    case LtEqLt => ThroughSound(Less, claim, w.args, EqEq, Less, s);
    case LtLtLe => ThroughSound(Less, claim, w.args, Less, LessEq, s);
    case LtLeLt => ThroughSound(Less, claim, w.args, LessEq, Less, s);
    case LeLeLe => ThroughSound(LessEq, claim, w.args, LessEq, LessEq, s);
    case LeLeEq => ThroughSound(LessEq, claim, w.args, LessEq, EqEq, s);
    case LeEqLe => ThroughSound(LessEq, claim, w.args, EqEq, LessEq, s);
  }

  lemma ThroughSound(rel: Relation, claim: Cond, args: map<string, Term>, p: Relation, q: Relation, s: State)
    requires rel == Less ==> (p == Less && q in {Less, EqEq, LessEq}) || (p in {EqEq, LessEq} && q == Less)
    requires rel == LessEq ==> p in {LessEq, EqEq} && q in {LessEq, EqEq}
    requires rel in {Less, LessEq} && claim.Cmp? && Through(rel, claim, args, p, q).Some?
    requires AllHold(Through(rel, claim, args, p, q).value, s)
    ensures Truth(claim, s)
  {
    var due := Through(rel, claim, args, p, q).value;
    HoldsAt(due, 0, s);
    HoldsAt(due, 1, s);
  }

  predicate ProvesAll(typ: Typing, facts: Facts, due: seq<Cond>)
  {
    forall c | c in due :: c.Cmp? && Proves(typ, facts, c.rel, c.lhs, c.rhs)
  }

  predicate NarrowReason(w: Option<Reason>)
  {
    w.Some? ==> forall k | k in w.value.args :: Narrow(w.value.args[k])
  }

  /** Whether the checker can show the condition, and how. */
  predicate Shows(typ: Typing, facts: Facts, c: Cond, why: Option<Reason>)
  {
    match why
    case None => c.Cmp? && Proves(typ, facts, c.rel, c.lhs, c.rhs)
    case Some(w) => Requirements(w, c).Some? && ProvesAll(typ, facts, Requirements(w, c).value)
  }

  lemma RequirementsNarrow(w: Reason, claim: Cond)
    requires NarrowCond(claim) && NarrowReason(Some(w)) && Requirements(w, claim).Some?
    ensures forall c | c in Requirements(w, claim).value :: NarrowCond(c)
  {
  }

  lemma ShowsSound(typ: Typing, facts: Facts, c: Cond, why: Option<Reason>, s: State)
    requires Reaches(typ, facts, s) && NarrowCond(c) && NarrowReason(why)
    requires Shows(typ, facts, c, why)
    ensures Truth(c, s)
  {
    hide Proves, Requirements;
    match why
    case None => ProvesSound(typ, facts, c.rel, c.lhs, c.rhs, s);
    case Some(w) =>
      RequirementsNarrow(w, c);
      forall d | d in Requirements(w, c).value
        ensures Truth(d, s)
      {
        ProvesSound(typ, facts, d.rel, d.lhs, d.rhs, s);
      }
      RulesSound(w, c, s);
  }
}
