/** The checker's lists of facts (lang/check/assert.go, lang/ast/eq.go, invert in lang/check/bounds.go).

    A fact list stands for the states in which all its conditions hold. */
module Facts {
  import opened Options
  import opened Programs
  import opened Rendering

  type Facts = seq<Cond>

  // ---------------- Which variables a fact is about

  predicate Mentions(t: Term, x: string)
  {
    match t
    case Const(_, _) => false
    case Var(y) => x == y
    case Neg(e) => Mentions(e, x)
    case As(e, _) => Mentions(e, x)
    case Bin(_, l, r) => Mentions(l, x) || Mentions(r, x)
  }

  predicate CondMentions(c: Cond, x: string)
  {
    match c
    case Cmp(_, l, r) => Mentions(l, x) || Mentions(r, x)
    case And(d, e) => CondMentions(d, x) || CondMentions(e, x)
    case Or(d, e) => CondMentions(d, x) || CondMentions(e, x)
    case Not(d) => CondMentions(d, x)
  }

  /** Storing to a variable leaves the expressions that do not mention it alone. */
  lemma {:induction false} EvalUnmentioned(t: Term, s: State, x: string, v: int)
    requires !Mentions(t, x)
    ensures Eval(t, Set(s, x, v)) == Eval(t, s)
  {
    match t
    case Const(_, _) =>
    case Var(_) =>
    case Neg(e) => EvalUnmentioned(e, s, x, v);
    case As(e, _) => EvalUnmentioned(e, s, x, v);
    case Bin(_, l, r) =>
      EvalUnmentioned(l, s, x, v);
      EvalUnmentioned(r, s, x, v);
  }

  lemma {:induction false} TruthUnmentioned(c: Cond, s: State, x: string, v: int)
    requires !CondMentions(c, x)
    ensures Truth(c, Set(s, x, v)) == Truth(c, s)
  {
    match c
    case Cmp(_, l, r) =>
      EvalUnmentioned(l, s, x, v);
      EvalUnmentioned(r, s, x, v);
    case And(d, e) =>
      TruthUnmentioned(d, s, x, v);
      TruthUnmentioned(e, s, x, v);
    case Or(d, e) =>
      TruthUnmentioned(d, s, x, v);
      TruthUnmentioned(e, s, x, v);
    case Not(d) => TruthUnmentioned(d, s, x, v);
  }

  // ---------------- Adding and updating facts

  predicate Known(facts: Facts, f: Cond)
  {
    exists g | g in facts :: CondEq(g, f)
  }

  function AppendFact(facts: Facts, f: Cond): Facts
    decreases f
  {
    if Known(facts, f) then facts
    else match f
      case And(c, d) => AppendFact(AppendFact(facts, c), d)
      case _ => facts + [f]
  }

  /** Adding a fact adds exactly what it says, whatever was known before. */
  lemma {:induction false} AppendMeans(facts: Facts, f: Cond, s: State)
    ensures AllHold(AppendFact(facts, f), s) <==> AllHold(facts, s) && Truth(f, s)
    decreases f
  {
    if Known(facts, f) {
      var g :| g in facts && CondEq(g, f);
      assert Truth(g, s) == Truth(f, s);
    } else {
      match f
      case And(c, d) =>
        AppendMeans(facts, c, s);
        AppendMeans(AppendFact(facts, c), d, s);
      case _ =>
        assert forall g :: g in facts + [f] <==> g in facts || g == f;
    }
  }

  ghost predicate Distinct(facts: Facts)
  {
    forall i, j | 0 <= i < j < |facts| :: !CondEq(facts[i], facts[j])
  }

  lemma {:induction false} AppendDistinct(facts: Facts, f: Cond)
    requires Distinct(facts)
    ensures Distinct(AppendFact(facts, f))
    decreases f
  {
    if !Known(facts, f) && f.And? {
      AppendDistinct(facts, f.c);
      AppendDistinct(AppendFact(facts, f.c), f.d);
    }
  }

  /** Each fact replaced by what g makes of it, in order; None drops it. */
  function Updated(facts: Facts, g: Cond -> Option<Cond>): Facts
  {
    if facts == [] then []
    else (match g(facts[0]) case None => [] case Some(f) => [f]) + Updated(facts[1..], g)
  }

  lemma {:induction false} UpdatedAt(facts: Facts, g: Cond -> Option<Cond>, f: Cond)
    ensures f in Updated(facts, g) <==> exists e :: e in facts && g(e) == Some(f)
  {
    if facts != [] {
      UpdatedAt(facts[1..], g, f);
      assert forall e :: e in facts <==> e == facts[0] || e in facts[1..];
    }
  }

  ghost predicate Injective(facts: Facts, g: Cond -> Option<Cond>)
  {
    forall e, f | e in facts && f in facts && g(e).Some? && g(f).Some? && CondEq(g(e).value, g(f).value) :: CondEq(e, f)
  }

  lemma {:induction false} UpdatedDistinct(facts: Facts, g: Cond -> Option<Cond>)
    requires Distinct(facts) && Injective(facts, g)
    ensures Distinct(Updated(facts, g))
  {
    hide CondEq;
    if facts != [] {
      var rest := facts[1..];
      assert forall e :: e in rest ==> e in facts;
      UpdatedDistinct(rest, g);
      var tail := Updated(rest, g);
      match g(facts[0])
      case None => assert Updated(facts, g) == tail;
      case Some(f) =>
        forall h | h in tail
          ensures !CondEq(f, h)
        {
          NewFactDiffers(facts, g, h);
        }
        assert Updated(facts, g) == [f] + tail;
        Prepended(f, tail);
    }
  }

  lemma NewFactDiffers(facts: Facts, g: Cond -> Option<Cond>, h: Cond)
    requires Distinct(facts) && Injective(facts, g)
    requires facts != [] && g(facts[0]).Some? && h in Updated(facts[1..], g)
    ensures !CondEq(g(facts[0]).value, h)
  {
    hide CondEq;
    UpdatedAt(facts[1..], g, h);
    var e :| e in facts[1..] && g(e) == Some(h);
    var j :| 0 <= j < |facts[1..]| && facts[1..][j] == e;
    assert facts[j + 1] == e && !CondEq(facts[0], facts[j + 1]);
  }

  lemma Prepended(f: Cond, tail: Facts)
    requires Distinct(tail) && forall h | h in tail :: !CondEq(f, h)
    ensures Distinct([f] + tail)
  {
    hide CondEq;
  }

  // ---------------- Inverting conditions

  function Opposite(rel: Relation): (r: Relation)
    ensures forall a, b :: Compare(r, a, b) <==> !Compare(rel, a, b)
  {
    match rel
    case NotEq => EqEq
    case Less => GreaterEq
    case LessEq => Greater
    case EqEq => NotEq
    case GreaterEq => Less
    case Greater => LessEq
  }

  /** The inverse of a condition holds in exactly the states where the condition does not. */
  function Invert(c: Cond): (r: Cond)
    ensures forall s :: Truth(r, s) <==> !Truth(c, s)
  {
    match c
    case Cmp(rel, l, r) => Cmp(Opposite(rel), l, r)
    case And(d, e) => Or(Invert(d), Invert(e))
    case Or(d, e) => And(Invert(d), Invert(e))
    case Not(d) => d
  }

  // ---------------- Refining ranges

  function Reversed(rel: Relation): (r: Relation)
    ensures forall a, b :: Compare(r, a, b) <==> Compare(rel, b, a)
  {
    match rel
    case NotEq => NotEq
    case Less => Greater
    case LessEq => GreaterEq
    case EqEq => EqEq
    case GreaterEq => LessEq
    case Greater => Less
  }

  datatype OtherSide = OtherSide(rel: Relation, that: Term)

  /** What f says about n: n stands in the returned relation to the returned expression. */
  function OtherHandSide(f: Cond, n: Term): (r: Option<OtherSide>)
    ensures r.Some? ==> forall s :: Truth(f, s) <==> Compare(r.value.rel, Eval(n, s), Eval(r.value.that, s))
  {
    if !f.Cmp? then None
    else if Eq(n, f.lhs) then Some(OtherSide(f.rel, f.rhs))
    else if Eq(n, f.rhs) then Some(OtherSide(Reversed(f.rel), f.lhs))
    else None
  }

  /** The range cut down by one comparison with a constant. */
  function Cut(r: Range, rel: Relation, cv: int): (q: Range)
    ensures forall v :: r.Has(v) && Compare(rel, v, cv) ==> q.Has(v)
    ensures q.Within(r) || rel == EqEq
  {
    match rel
    case NotEq =>
      if r.lo == cv then Range(r.lo + 1, r.hi) else if r.hi == cv then Range(r.lo, r.hi - 1) else r
    case Less => if r.hi >= cv then Range(r.lo, cv - 1) else r
    case LessEq => if r.hi > cv then Range(r.lo, cv) else r
    case EqEq => Range(cv, cv)
    case GreaterEq => if r.lo < cv then Range(cv, r.hi) else r
    case Greater => if r.lo <= cv then Range(cv + 1, r.hi) else r
  }

  function RefinedBy(f: Cond, n: Term, r: Range): Range
  {
    match OtherHandSide(f, n)
    case None => r
    case Some(o) => if o.that.Const? then Cut(r, o.rel, o.that.v) else r
  }

  /** The range of n after all the facts, or None when a change leaves it empty. */
  function Refined(facts: Facts, n: Term, r: Range): Option<Range>
  {
    if facts == [] then Some(r)
    else
      var q := RefinedBy(facts[0], n, r);
      if Changes(facts[0], n, r) && q.lo > q.hi then None else Refined(facts[1..], n, q)
  }

  /** Whether the code assigns to the range: an equality always does. */
  predicate Changes(f: Cond, n: Term, r: Range)
  {
    var o := OtherHandSide(f, n);
    && o.Some? && o.value.that.Const?
    && (o.value.rel == EqEq || RefinedBy(f, n, r) != r)
  }

  /** In a state where the facts hold, refining keeps the value and reports no inconsistency. */
  lemma {:induction false} RefinedSound(facts: Facts, n: Term, r: Range, s: State)
    requires AllHold(facts, s) && r.Has(Eval(n, s))
    ensures Refined(facts, n, r).Some? && Refined(facts, n, r).value.Has(Eval(n, s))
    ensures Refined(facts, n, r).value.Within(r)
  {
    if facts != [] {
      assert Truth(facts[0], s);
      RefinedSound(facts[1..], n, RefinedBy(facts[0], n, r), s);
    }
  }

  lemma RefinedKeepsAll(facts: Facts, n: Term, r: Range)
    ensures forall s | AllHold(facts, s) && r.Has(Eval(n, s)) ::
              Refined(facts, n, r).Some? && Refined(facts, n, r).value.Has(Eval(n, s))
  {
    forall s | AllHold(facts, s) && r.Has(Eval(n, s))
      ensures Refined(facts, n, r).Some? && Refined(facts, n, r).value.Has(Eval(n, s))
    {
      RefinedSound(facts, n, r, s);
    }
  }

  /** Narrows one end, or both, by a comparison with a constant. */
  method CutEnds(rel: Relation, cv: int, lo: int, hi: int) returns (nMin: int, nMax: int, changed: bool)
    ensures Range(nMin, nMax) == Cut(Range(lo, hi), rel, cv)
    ensures changed <==> rel == EqEq || Range(nMin, nMax) != Range(lo, hi)
  {
    nMin, nMax, changed := lo, hi, false;
    match rel
    case NotEq =>
      if nMin == cv {
        nMin, changed := nMin + 1, true;
      } else if nMax == cv {
        nMax, changed := nMax - 1, true;
      }
    case Less => if nMax >= cv { nMax, changed := cv - 1, true; }
    case LessEq => if nMax > cv { nMax, changed := cv, true; }
    case EqEq => nMin, nMax, changed := cv, cv, true;
    case GreaterEq => if nMin < cv { nMin, changed := cv, true; }
    case Greater => if nMin <= cv { nMin, changed := cv + 1, true; }
  }

  lemma RefinedStep(facts: Facts, n: Term, r: Range, i: nat)
    requires i < |facts|
    ensures var q := RefinedBy(facts[i], n, r);
            Refined(facts[i..], n, r)
            == if Changes(facts[i], n, r) && q.lo > q.hi then None else Refined(facts[i + 1..], n, q)
  {
    assert facts[i..][0] == facts[i] && facts[i..][1..] == facts[i + 1..];
  }

  /** The loop of refine: one pass over the facts, narrowing the two ends in place. */
  method Refine(facts: Facts, n: Term, r: Range) returns (ok: bool, q: Range)
    ensures Refined(facts, n, r) == if ok then Some(q) else None
    ensures forall s | AllHold(facts, s) && r.Has(Eval(n, s)) :: ok && q.Has(Eval(n, s))
  {
    hide OtherHandSide, AllHold, Eval, Cut, Refined;
    RefinedKeepsAll(facts, n, r);
    var nMin, nMax := r.lo, r.hi;
    assert facts[0..] == facts;
    for i := 0 to |facts|
      invariant Refined(facts, n, r) == Refined(facts[i..], n, Range(nMin, nMax))
    {
      var side := OtherHandSide(facts[i], n);
      RefinedStep(facts, n, Range(nMin, nMax), i);
      if side.Some? && side.value.that.Const? {
        var changed;
        nMin, nMax, changed := CutEnds(side.value.rel, side.value.that.v, nMin, nMax);
        if changed && nMin > nMax {
          return false, r;
        }
      }
    }
    assert facts[|facts|..] == [];
    NoFacts(n, Range(nMin, nMax));
    return true, Range(nMin, nMax);
  }

  lemma NoFacts(n: Term, r: Range)
    ensures Refined([], n, r) == Some(r)
  {
  }

  // ---------------- Simplifying

  const MAX_SHIFT := 0xFFFF

  /** Folding an operator over constants; None is an error. */
  function Fold(op: Arith, a: int, b: int): (r: Option<int>)
    ensures r.Some? ==> Defined(op, b) && r.value == Apply(op, a, b)
  {
    if op in {ShiftL, ShiftR} && !(0 <= b <= MAX_SHIFT) then None
    else if op in {Slash, Percent} && b == 0 then None
    else Some(Apply(op, a, b))
  }

  function SimplifyTerm(t: Term): (r: Option<Term>)
    ensures r.Some? ==> forall s :: Eval(r.value, s) == Eval(t, s)
  {
    match t
    case Bin(op, l, r) =>
      if l.Const? && r.Const? then
        match Fold(op, l.v, r.v)
        case None => None
        case Some(v) => Some(Number(v))
      else if op == Minus && Eq(l, r) then Some(Number(0))
      else if op == Minus && l.Bin? && l.op == Plus && Eq(l.l, r) then Some(l.r)
      else if op == Minus && l.Bin? && l.op == Plus && Eq(l.r, r) then Some(l.l)
      else Some(t)
    case _ => Some(t)
  }

  /** Simplifying a condition does not change where it holds. */
  function Simplify(c: Cond): (r: Option<Cond>)
    ensures r.Some? ==> forall s :: Truth(r.value, s) <==> Truth(c, s)
  {
    match c
    case Cmp(rel, l, r) =>
      (match SimplifyTerm(l)
       case None => None
       case Some(l') =>
         match SimplifyTerm(r)
         case None => None
         case Some(r') => Some(Cmp(rel, l', r')))
    case _ => Some(c)
  }

  // ---------------- What an assignment does to the facts

  function Keep(x: string, f: Cond): Option<Cond>
  {
    if CondMentions(f, x) then None else Some(f)
  }

  /** What `x op= rhs` makes of a fact: a bound on x moves along with x, other facts about x go. */
  function Move(op: Arith, x: string, rhs: Term, f: Cond): Option<Cond>
  {
    if !(f.Cmp? && f.lhs == Var(x)) then Keep(x, f)
    else if Mentions(f.rhs, x) then None
    else if op in {Plus, Minus} then Some(Cmp(f.rel, f.lhs, SimplifyTerm(Bin(op, f.rhs, rhs)).value))
    else None
  }

  function Unless(x: string): Cond -> Option<Cond> { f => Keep(x, f) }

  function Moved(op: Arith, x: string, rhs: Term): Cond -> Option<Cond> { f => Move(op, x, rhs, f) }

  function AfterAssign(facts: Facts, x: string, op: Option<Arith>, rhs: Term): Facts
  {
    match op
    case None => AppendFact(Updated(facts, Unless(x)), Cmp(EqEq, Var(x), rhs))
    case Some(o) => Updated(facts, Moved(o, x, rhs))
  }

  function Stored(x: string, op: Option<Arith>, rhs: Term, s: State): State
  {
    Set(s, x, if op.None? then Eval(rhs, s) else Apply(op.value, s(x), Eval(rhs, s)))
  }

  lemma UnlessSound(facts: Facts, x: string, s: State, v: int)
    requires AllHold(facts, s)
    ensures AllHold(Updated(facts, Unless(x)), Set(s, x, v))
  {
    forall f | f in Updated(facts, Unless(x))
      ensures Truth(f, Set(s, x, v))
    {
      UpdatedAt(facts, Unless(x), f);
      TruthUnmentioned(f, s, x, v);
    }
  }

  /** The assignments after which the facts say something about the value stored. */
  predicate Tracked(op: Option<Arith>) { op.None? || op.value in {Plus, Minus} }

  /** The store does not change the value of the right side, if that matters. */
  predicate Steady(x: string, op: Option<Arith>, rhs: Term, s: State)
  {
    Tracked(op) ==> Eval(rhs, Stored(x, op, rhs, s)) == Eval(rhs, s)
  }

  lemma MovedSound(f: Cond, op: Arith, x: string, rhs: Term, s: State)
    requires Steady(x, Some(op), rhs, s)
    requires Truth(f, s) && Move(op, x, rhs, f).Some?
    ensures Truth(Move(op, x, rhs, f).value, Stored(x, Some(op), rhs, s))
  {
    var s' := Stored(x, Some(op), rhs, s);
    if f.Cmp? && f.lhs == Var(x) {
      EvalUnmentioned(f.rhs, s, x, s'(x));
      assert Eval(Bin(op, f.rhs, rhs), s') == Apply(op, Eval(f.rhs, s), Eval(rhs, s));
    } else {
      TruthUnmentioned(f, s, x, s'(x));
    }
  }

  lemma SteadySound(facts: Facts, x: string, op: Option<Arith>, rhs: Term, s: State)
    requires AllHold(facts, s) && Steady(x, op, rhs, s)
    ensures AllHold(AfterAssign(facts, x, op, rhs), Stored(x, op, rhs, s))
  {
    var s' := Stored(x, op, rhs, s);
    match op
    case None =>
      UnlessSound(facts, x, s, s'(x));
      AppendMeans(Updated(facts, Unless(x)), Cmp(EqEq, Var(x), rhs), s');
    case Some(o) =>
      forall f | f in AfterAssign(facts, x, op, rhs)
        ensures Truth(f, s')
      {
        UpdatedAt(facts, Moved(o, x, rhs), f);
        var e :| e in facts && Moved(o, x, rhs)(e) == Some(f);
        MovedSound(e, o, x, rhs, s);
      }
  }

  /** Facts that hold turn into facts that hold if and only if the store does not change the value of
      the right side, or the operator is none of =, += and -=. */
  lemma AssignSoundIff(x: string, op: Option<Arith>, rhs: Term, s: State)
    ensures (forall facts | AllHold(facts, s) :: AllHold(AfterAssign(facts, x, op, rhs), Stored(x, op, rhs, s)))
            <==> Steady(x, op, rhs, s)
  {
    if Steady(x, op, rhs, s) {
      forall facts | AllHold(facts, s)
        ensures AllHold(AfterAssign(facts, x, op, rhs), Stored(x, op, rhs, s))
      {
        SteadySound(facts, x, op, rhs, s);
      }
    } else {
      var facts := if op.None? then [] else [Cmp(EqEq, Var(x), Number(s(x)))];
      assert AllHold(facts, s);
      UnsteadyLies(x, op, rhs, s);
    }
  }

  /** A fact that holds before, and what it turns into does not hold afterwards. */
  lemma UnsteadyLies(x: string, op: Option<Arith>, rhs: Term, s: State)
    requires !Steady(x, op, rhs, s)
    ensures var facts := if op.None? then [] else [Cmp(EqEq, Var(x), Number(s(x)))];
            !AllHold(AfterAssign(facts, x, op, rhs), Stored(x, op, rhs, s))
  {
    var s' := Stored(x, op, rhs, s);
    match op
    case None => AppendMeans([], Cmp(EqEq, Var(x), rhs), s');
    case Some(o) =>
      var e := Cmp(EqEq, Var(x), Number(s(x)));
      var f := Move(o, x, rhs, e).value;
      UpdatedAt([e], Moved(o, x, rhs), f);
      assert e in [e] && f in AfterAssign([e], x, op, rhs);
      assert Eval(f.rhs, s') == Eval(Bin(o, Number(s(x)), rhs), s') == Apply(o, s(x), Eval(rhs, s'));
  }

  /** After an assignment whose right side does not mention its target, all the new facts hold. */
  lemma AssignSound(facts: Facts, x: string, op: Option<Arith>, rhs: Term, s: State)
    requires AllHold(facts, s) && (Tracked(op) ==> !Mentions(rhs, x))
    ensures AllHold(AfterAssign(facts, x, op, rhs), Stored(x, op, rhs, s))
  {
    if Tracked(op) {
      EvalUnmentioned(rhs, s, x, Stored(x, op, rhs, s)(x));
    }
    SteadySound(facts, x, op, rhs, s);
  }

  /** Only `-=` can make two different facts equal. */
  lemma AssignDistinct(facts: Facts, x: string, op: Option<Arith>, rhs: Term)
    requires Distinct(facts) && op != Some(Minus)
    ensures Distinct(AfterAssign(facts, x, op, rhs))
  {
    match op
    case None =>
      UpdatedDistinct(facts, Unless(x));
      AppendDistinct(Updated(facts, Unless(x)), Cmp(EqEq, Var(x), rhs));
    case Some(o) =>
      var g := Moved(o, x, rhs);
      forall e, f | e in facts && f in facts && g(e).Some? && g(f).Some? && CondEq(g(e).value, g(f).value)
        ensures CondEq(e, f)
      {
        MovedInjective(e, f, o, x, rhs);
      }
      UpdatedDistinct(facts, Moved(o, x, rhs));
  }

  lemma MovedInjective(e: Cond, f: Cond, op: Arith, x: string, rhs: Term)
    requires op != Minus && Move(op, x, rhs, e).Some? && Move(op, x, rhs, f).Some?
    requires CondEq(Move(op, x, rhs, e).value, Move(op, x, rhs, f).value)
    ensures CondEq(e, f)
  {
    assert (e.Cmp? && e.lhs == Var(x)) <==> (f.Cmp? && f.lhs == Var(x));
  }
}
