/** The scalar fragment of the Wuffs language that the bounds checker reasons about: numeric
    expressions, conditions, and statements with their meaning (lang/ast/ast.go).

    Values are mathematical integers. A run fails when it reaches an assertion that does not hold
    (loop pre, inv and post conditions included), when an operator is applied where it is undefined,
    when some expression has a value outside its type, or when a value outside a variable's type is
    stored in it. */
module Programs {
  import opened Options
  import opened Bits
  import Interval

  // ---------------- Expressions

  datatype Arith = Plus | Minus | Star | Slash | ShiftL | ShiftR | Amp | AmpHat | Pipe | Hat | Percent

  datatype Relation = NotEq | Less | LessEq | EqEq | GreaterEq | Greater

  /** A numeric expression. Const stands for every expression that has a constant value, together
      with the text it is written as; As has the text of its target type. */
  datatype Term =
    | Const(v: int, text: string)
    | Var(x: string)
    | Neg(e: Term)
    | As(e: Term, target: string)
    | Bin(op: Arith, l: Term, r: Term)

  /** A condition that is not itself constant. */
  datatype Cond =
    | Cmp(rel: Relation, lhs: Term, rhs: Term)
    | And(c: Cond, d: Cond)
    | Or(c: Cond, d: Cond)
    | Not(c: Cond)

  datatype Range = Range(lo: int, hi: int) {
    predicate Has(v: int) { lo <= v <= hi }
    predicate Within(r: Range) { r.lo <= lo && hi <= r.hi }
  }

  type State = string -> int

  /** The range of each expression's type; ideal constants have none. */
  type Typing = Term -> Option<Range>

  const U64_MAX := 0xFFFF_FFFF_FFFF_FFFF

  /** Every expression but an ideal constant has a numeric type, no wider than 64 bits. */
  ghost predicate TypingOk(typ: Typing)
  {
    forall t :: if typ(t).None? then t.Const? else typ(t).value.hi <= U64_MAX
  }

  // ---------------- What expressions mean

  predicate Defined(op: Arith, b: int)
  {
    match op
    case ShiftL => 0 <= b
    case ShiftR => 0 <= b
    case Slash => b != 0
    case Percent => b != 0
    case _ => true
  }

  function Apply(op: Arith, a: int, b: int): int
  {
    if !Defined(op, b) then 0
    else match op
      case Plus => a + b
      case Minus => a - b
      case Star => a * b
      case Slash => a / b
      case ShiftL => Interval.Lsh(a, b)
      case ShiftR => Interval.Rsh(a, b)
      case Amp => Bits.And(a, b)
      case AmpHat => AndNot(a, b)
      case Pipe => Bits.Or(a, b)
      case Hat => Xor(a, b)
      case Percent => a % b
  }

  predicate Compare(rel: Relation, a: int, b: int)
  {
    match rel
    case NotEq => a != b
    case Less => a < b
    case LessEq => a <= b
    case EqEq => a == b
    case GreaterEq => a >= b
    case Greater => a > b
  }

  function Eval(t: Term, s: State): int
  {
    match t
    case Const(v, _) => v
    case Var(x) => s(x)
    case Neg(e) => -Eval(e, s)
    case As(e, _) => Eval(e, s)
    case Bin(op, l, r) => Apply(op, Eval(l, s), Eval(r, s))
  }

  predicate Truth(c: Cond, s: State)
  {
    match c
    case Cmp(rel, l, r) => Compare(rel, Eval(l, s), Eval(r, s))
    case And(d, e) => Truth(d, s) && Truth(e, s)
    case Or(d, e) => Truth(d, s) || Truth(e, s)
    case Not(d) => !Truth(d, s)
  }

  // ---------------- Equality

  /** Expr.Eq: the same tree, but constants are compared by their value, however they are written. */
  predicate Eq(t: Term, u: Term): (b: bool)
    ensures b ==> forall s :: Eval(t, s) == Eval(u, s)
  {
    match t
    case Const(v, _) => u.Const? && v == u.v
    case Var(x) => u.Var? && x == u.x
    case Neg(e) => u.Neg? && Eq(e, u.e)
    case As(e, target) => u.As? && target == u.target && Eq(e, u.e)
    case Bin(op, l, r) => u.Bin? && op == u.op && Eq(l, u.l) && Eq(r, u.r)
  }

  predicate CondEq(c: Cond, d: Cond): (b: bool)
    ensures b ==> forall s :: Truth(c, s) == Truth(d, s)
  {
    match c
    case Cmp(rel, l, r) => d.Cmp? && rel == d.rel && Eq(l, d.lhs) && Eq(r, d.rhs)
    case And(a, b) => d.And? && CondEq(a, d.c) && CondEq(b, d.d)
    case Or(a, b) => d.Or? && CondEq(a, d.c) && CondEq(b, d.d)
    case Not(a) => d.Not? && CondEq(a, d.c)
  }

  // ---------------- Types

  predicate Fits(typ: Typing, t: Term, v: int)
  {
    typ(t).Some? ==> typ(t).value.Has(v)
  }

  /** Every operator that t applies is defined there, and every part of t has a value of its type. */
  predicate Safe(typ: Typing, t: Term, s: State)
  {
    match t
    case Const(_, _) => true
    case Var(_) => Fits(typ, t, Eval(t, s))
    case Neg(e) => Safe(typ, e, s) && Fits(typ, t, Eval(t, s))
    case As(e, _) => Safe(typ, e, s) && Fits(typ, t, Eval(t, s))
    case Bin(op, l, r) =>
      Safe(typ, l, s) && Safe(typ, r, s) && Defined(op, Eval(r, s)) && Fits(typ, t, Eval(t, s))
  }

  predicate SafeCond(typ: Typing, c: Cond, s: State)
  {
    match c
    case Cmp(_, l, r) => Safe(typ, l, s) && Safe(typ, r, s)
    case And(d, e) => SafeCond(typ, d, s) && SafeCond(typ, e, s)
    case Or(d, e) => SafeCond(typ, d, s) && SafeCond(typ, e, s)
    case Not(d) => SafeCond(typ, d, s)
  }

  predicate AllHold(cs: seq<Cond>, s: State)
  {
    forall c | c in cs :: Truth(c, s)
  }

  ghost predicate InTypes(typ: Typing, s: State)
  {
    forall x :: Fits(typ, Var(x), s(x))
  }

  // ---------------- Statements

  datatype Kind = Pre | Inv | Post

  /** The thirteen rules that an assertion can name as its reason (lang/check/data.go:24-282). */
  datatype Rule =
    | LtFlip | LtLtLt | LtLtEq | LtEqLt | LtLtLe | LtLeLt
    | LeFlip | LeLeLe | LeLeEq | LeEqLe
    | LtSumRight | LtSumParts | SumLeDifference

  datatype Reason = Reason(rule: Rule, args: map<string, Term>)

  datatype Clause = Clause(kind: Kind, cond: Cond, why: Option<Reason>)

  datatype Guard = Always | When(cond: Cond)

  /** Break and Continue name their loop by how many loops they leave first. */
  datatype Stmt =
    | Assert(cond: Cond, why: Option<Reason>)
    | Assign(x: string, op: Option<Arith>, rhs: Term)
    | Evaluate(t: Term)
    | Branch(chain: If)
    | While(guard: Guard, clauses: seq<Clause>, body: seq<Stmt>)
    | Break(depth: nat)
    | Continue(depth: nat)
    | Return(value: Option<Term>)

  /** One link of an if-else chain; an empty ifFalse is no else at all. */
  datatype If = If(cond: Cond, ifTrue: seq<Stmt>, ifFalse: seq<Stmt>, elseIf: Option<If>)

  function Conditions(cs: seq<Clause>, kinds: set<Kind>): seq<Cond>
  {
    if cs == [] then []
    else (if cs[0].kind in kinds then [cs[0].cond] else []) + Conditions(cs[1..], kinds)
  }

  const ENTRY := {Pre, Inv}
  const EXIT := {Inv, Post}

  // ---------------- Runs

  /** Waiting is a run that used up its fuel, that is, its bound on loop iterations. */
  datatype Outcome =
    | Normal(s: State)
    | Broke(depth: nat, s: State)
    | Continued(depth: nat, s: State)
    | Returned
    | Waiting
    | Failed

  function Set(s: State, x: string, v: int): State
  {
    (y: string) => if y == x then v else s(y)
  }

  function RunAssign(typ: Typing, x: string, op: Option<Arith>, rhs: Term, s: State): Outcome
  {
    var b := Eval(rhs, s);
    var v := if op.None? then b else Apply(op.value, s(x), b);
    if Safe(typ, rhs, s) && (op.Some? ==> Defined(op.value, b)) && Fits(typ, Var(x), v) then Normal(Set(s, x, v))
    else Failed
  }

  function Run(typ: Typing, block: seq<Stmt>, s: State, fuel: nat): Outcome
    decreases fuel, block
  {
    if block == [] then Normal(s)
    else
      var o := RunStmt(typ, block[0], s, fuel);
      if o.Normal? then Run(typ, block[1..], o.s, fuel) else o
  }

  function RunStmt(typ: Typing, st: Stmt, s: State, fuel: nat): Outcome
    decreases fuel, st
  {
    match st
    case Assert(c, _) => if Truth(c, s) then Normal(s) else Failed
    case Assign(x, op, rhs) => RunAssign(typ, x, op, rhs, s)
    case Evaluate(t) => if Safe(typ, t, s) then Normal(s) else Failed
    case Branch(chain) => RunIf(typ, chain, s, fuel)
    case While(_, _, body) => RunWhile(typ, st, s, fuel)
    case Break(depth) => Broke(depth, s)
    case Continue(depth) => Continued(depth, s)
    case Return(v) => if v.Some? && !Safe(typ, v.value, s) then Failed else Returned
  }

  function RunIf(typ: Typing, n: If, s: State, fuel: nat): Outcome
    decreases fuel, n
  {
    if !SafeCond(typ, n.cond, s) then Failed
    else if Truth(n.cond, s) then Run(typ, n.ifTrue, s, fuel)
    else if n.ifFalse != [] then Run(typ, n.ifFalse, s, fuel)
    else match n.elseIf
      case None => Normal(s)
      case Some(m) => RunIf(typ, m, s, fuel)
  }

  /** The pre and inv conditions are due before every evaluation of the guard, the post conditions
      when the guard turns false, and the inv and post conditions on a break. */
  function RunWhile(typ: Typing, w: Stmt, s: State, fuel: nat): Outcome
    requires w.While?
    decreases fuel, w, 0
  {
    if !AllHold(Conditions(w.clauses, ENTRY), s) then Failed
    else if w.guard.When? && !SafeCond(typ, w.guard.cond, s) then Failed
    else if w.guard.When? && !Truth(w.guard.cond, s) then
      if AllHold(Conditions(w.clauses, {Post}), s) then Normal(s) else Failed
    else if fuel == 0 then Waiting
    else match Run(typ, w.body, s, fuel - 1)
      case Normal(s') => RunWhile(typ, w, s', fuel - 1)
      case Broke(depth, s') =>
        if depth != 0 then Broke(depth - 1, s')
        else if AllHold(Conditions(w.clauses, EXIT), s') then Normal(s') else Failed
      case Continued(depth, s') =>
        if depth != 0 then Continued(depth - 1, s') else RunWhile(typ, w, s', fuel - 1)
      case Returned => Returned
      case Waiting => Waiting
      case Failed => Failed
  }
}
