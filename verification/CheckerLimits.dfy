/** Programs that the checker accepts and that fail: what the conditions of the soundness theorem are
    for (lang/check/bounds.go:299-300, 386-390, 404-414, 548-556 and 626). Each program meets all of the
    theorem's conditions but one. */
module CheckerLimits {
  import opened Options
  import opened Programs
  import opened Rendering
  import opened Facts
  import opened Ranges
  import opened Checker

  /** Variables of type u32[..100], other expressions of type u32[..200]. */
  function Small(t: Term): Option<Range>
  {
    match t
    case Const(_, _) => None
    case Var(_) => Some(Range(0, 100))
    case _ => Some(Range(0, 200))
  }

  lemma SmallOk()
    ensures TypingOk(Small)
  {
  }

  /** The program meets the demands and is accepted, and from s it fails. */
  ghost predicate Deceives(ds: set<Demand>, block: seq<Stmt>, s: State, fuel: nat)
  {
    && TypingOk(Small) && InTypes(Small, s) && Meets(Small, ds, block)
    && CheckBlock(Small, [], block, []).Some?
    && Run(Small, block, s, fuel).Failed?
  }

  /** The texts are as the theorem asks. */
  ghost predicate Tidy(block: seq<Stmt>)
  {
    LexiconOk(Numerals) && BlockLegible(Numerals, 3, block) && 3 + Growth(block) <= MAX_EXPR_DEPTH
  }

  // ---------------- Steps

  /** What the functions on fact lists do with none or one. */
  lemma OneFact(f: Cond, n: Term, r: Range)
    ensures Refined([], n, r) == Some(r)
    ensures Refined([f], n, r) == if Changes(f, n, r) && RefinedBy(f, n, r).lo > RefinedBy(f, n, r).hi then None
                                  else Some(RefinedBy(f, n, r))
  {
    assert [f][1..] == [];
  }

  lemma OneNarrowing(f: Cond, l: Term, r: Term, n: Range)
    ensures Narrowed([f], l, r, n) == NarrowedBy(f, l, r, n)
  {
    assert [f][1..] == [];
  }

  /** A lone `if` without an else: its two branches. */
  lemma LoneIf(facts: Facts, n: If, after: Facts)
    requires n.ifFalse == [] && n.elseIf == None && !Terminates(n.ifTrue)
    requires CheckCond(Small, facts, n.cond)
    requires CheckBlock(Small, AppendFact(facts, n.cond), n.ifTrue, []) == Some(after)
    ensures Branches(Small, facts, n, []) == Some([after, AppendFact(facts, Invert(n.cond))])
    ensures CheckStmt(Small, facts, Branch(n), []) == Unify([after, AppendFact(facts, Invert(n.cond))])
    ensures CheckStmt(Small, facts, Branch(n), []).Some?
  {
    hide CheckCond, CheckBlock, Terminates, Tally;
    assert [after] + [AppendFact(facts, Invert(n.cond))] == [after, AppendFact(facts, Invert(n.cond))];
  }

  lemma OneStatement(facts: Facts, st: Stmt)
    ensures !Leaves(st) ==> CheckBlock(Small, facts, [st], []) == CheckStmt(Small, facts, st, [])
  {
    hide CheckStmt;
    assert [st][1..] == [];
  }

  lemma TwoStatements(facts: Facts, st: Stmt, next: Stmt, mid: Facts)
    requires CheckStmt(Small, facts, st, []) == Some(mid) && !Leaves(st) && !Leaves(next)
    ensures CheckBlock(Small, facts, [st, next], []) == CheckStmt(Small, mid, next, [])
  {
    hide CheckStmt;
    assert [st, next][1..] == [next];
    OneStatement(mid, next);
  }

  lemma VariableAccepted(x: string, v: int)
    ensures CheckTerm(Small, [], Var(x)) == Some(Range(0, 100))
    ensures CheckTerm(Small, [], Number(v)) == Some(Range(v, v))
  {
  }

  lemma RunsFirst(st: Stmt, rest: seq<Stmt>, s: State, fuel: nat)
    ensures var o := RunStmt(Small, st, s, fuel);
            Run(Small, [st] + rest, s, fuel) == if o.Normal? then Run(Small, rest, o.s, fuel) else o
    ensures Run(Small, [st], s, fuel) == RunStmt(Small, st, s, fuel)
  {
    assert ([st] + rest)[1..] == rest;
    assert [st][1..] == [];
  }

  lemma TakesIf(n: If, s: State, fuel: nat)
    requires SafeCond(Small, n.cond, s) && Truth(n.cond, s)
    ensures RunIf(Small, n, s, fuel) == Run(Small, n.ifTrue, s, fuel)
  {
  }

  /** Legible and at most 3 high, with g statements that make facts higher. */
  ghost predicate Readable(block: seq<Stmt>, g: nat)
  {
    BlockLegible(Numerals, 3, block) && Growth(block) == g
  }

  lemma ReadableNone()
    ensures Readable([], 0)
  {
  }

  lemma ReadableMore(st: Stmt, rest: seq<Stmt>, g: nat)
    requires StmtLegible(Numerals, 3, st) && Readable(rest, g)
    ensures Readable([st] + rest, StmtGrowth(st) + g)
  {
    hide StmtLegible;
    assert ([st] + rest)[1..] == rest;
  }

  lemma ReadableOne(st: Stmt)
    requires StmtLegible(Numerals, 3, st)
    ensures Readable([st], StmtGrowth(st))
  {
    hide StmtLegible;
    ReadableNone();
    ReadableMore(st, [], 0);
    assert [st] + [] == [st];
  }

  lemma ReadableTwo(st: Stmt, next: Stmt)
    requires StmtLegible(Numerals, 3, st) && StmtLegible(Numerals, 3, next)
    ensures Readable([st, next], StmtGrowth(st) + StmtGrowth(next))
  {
    hide StmtLegible;
    ReadableOne(next);
    ReadableMore(st, [next], StmtGrowth(next));
    assert [st] + [next] == [st, next];
  }

  lemma ReadableIf(c: Cond, body: seq<Stmt>, g: nat)
    requires FactLegible(Numerals, 3, c) && Readable(body, g)
    ensures var st := Branch(If(c, body, [], None));
            StmtLegible(Numerals, 3, st) && StmtGrowth(st) == g
  {
    hide FactLegible;
    ReadableNone();
  }

  lemma MeetsNone(ds: set<Demand>)
    ensures Meets(Small, ds, [])
  {
  }

  lemma MeetsOne(ds: set<Demand>, st: Stmt)
    requires StmtMeets(Small, ds, st)
    ensures Meets(Small, ds, [st])
  {
    hide StmtMeets;
  }

  lemma MeetsTwo(ds: set<Demand>, st: Stmt, next: Stmt)
    requires StmtMeets(Small, ds, st) && StmtMeets(Small, ds, next)
    ensures Meets(Small, ds, [st, next])
  {
    hide StmtMeets;
  }

  lemma LetterLegible(c: char)
    requires Unbroken(c) && !IsDigit(c) && c != '-'
    ensures Legible(Numerals, Var([c]))
  {
    assert [c][0] == c && [c] != "not";
    assert c in [c];
  }

  lemma NumbersLegible()
    ensures LexiconOk(Numerals) && forall v :: Legible(Numerals, Number(v))
  {
    NumeralsOk();
    hide LexiconOk, Legible;
    forall v
      ensures Legible(Numerals, Number(v))
    {
      DecimalLegible(Numerals, v);
    }
  }

  lemma NamesLegible()
    ensures Legible(Numerals, X) && Legible(Numerals, A) && Legible(Numerals, B)
    ensures LexiconOk(Numerals) && forall v :: Legible(Numerals, Number(v))
  {
    hide LexiconOk, Legible;
    NumbersLegible();
    LetterLegible('x');
    LetterLegible('a');
    LetterLegible('b');
  }

  const X := Var("x")
  const A := Var("a")
  const B := Var("b")

  // ---------------- Assignments from their own target

  /** After `x = x + k` the facts hold in no state at all, unless k is zero. */
  lemma SelfAssignmentLies(facts: Facts, x: string, k: Term, s: State)
    requires k.Const? && k.v != 0
    ensures !AllHold(AfterAssign(facts, x, None, Bin(Plus, Var(x), k)), s)
  {
    var f := Cmp(EqEq, Var(x), Bin(Plus, Var(x), k));
    AppendMeans(Updated(facts, Unless(x)), f, s);
    assert Eval(f.rhs, s) == s(x) + k.v;
  }

  const NEXT := Bin(Plus, X, Number(1))
  const LOW := Cmp(Less, X, Number(10))
  const SAME := Cmp(EqEq, X, NEXT)

  /** if x < 10 { x = x + 1; assert x == x + 1 } */
  function SelfAssigning(): seq<Stmt> { [Branch(If(LOW, [Assign("x", None, NEXT), Assert(SAME, None)], [], None))] }

  lemma SelfAssigningFails(s: State)
    requires InTypes(Small, s) && s("x") == 0
    ensures Deceives(ALL - {NoSelfReference}, SelfAssigning(), s, 0) && Tidy(SelfAssigning())
  {
    hide CheckBlock;
    SmallOk();
    SelfAssigningAccepted();
    SelfAssigningTidy();
    SelfAssigningMeets();
    hide Meets;
    var n := SelfAssigning()[0].chain;
    var s' := Set(s, "x", 1);
    assert RunStmt(Small, n.ifTrue[0], s, 0) == Normal(s') by { assert Fits(Small, X, s("x")); }
    RunsFirst(n.ifTrue[0], [n.ifTrue[1]], s, 0);
    RunsFirst(n.ifTrue[1], [], s', 0);
    assert n.ifTrue == [n.ifTrue[0]] + [n.ifTrue[1]];
    assert SafeCond(Small, LOW, s) by { assert Fits(Small, X, s("x")); }
    TakesIf(n, s, 0);
    RunsFirst(SelfAssigning()[0], [], s, 0);
  }

  lemma SelfAssigningMeets()
    ensures Meets(Small, ALL - {NoSelfReference}, SelfAssigning())
  {
    var ds, n := ALL - {NoSelfReference}, SelfAssigning()[0].chain;
    MeetsNone(ds);
    MeetsTwo(ds, n.ifTrue[0], n.ifTrue[1]);
    MeetsOne(ds, SelfAssigning()[0]);
  }

  lemma SelfAssigningTidy()
    ensures Tidy(SelfAssigning())
  {
    hide LexiconOk, LeafOk, Numerals;
    NamesLegible();
    var n := SelfAssigning()[0].chain;
    ReadableTwo(n.ifTrue[0], n.ifTrue[1]);
    ReadableIf(LOW, n.ifTrue, 0);
    ReadableOne(SelfAssigning()[0]);
  }

  lemma SelfAssigningAccepted()
    ensures CheckBlock(Small, [], SelfAssigning(), []).Some?
  {
    hide CheckAssign, CheckTerm, Branches, Unify, CheckStmt;
    var n := SelfAssigning()[0].chain;
    SelfAssignmentAccepted();
    assert CheckStmt(Small, [LOW], n.ifTrue[0], []) == Some([SAME]) by { AssignStatement([LOW], "x", None, NEXT); }
    assert CheckStmt(Small, [SAME], n.ifTrue[1], []) == Some([SAME]) by { KnownFact([SAME], SAME); }
    TwoStatements([LOW], n.ifTrue[0], n.ifTrue[1], [SAME]);
    VariableAccepted("x", 10);
    assert AppendFact([], LOW) == [LOW];
    LoneIf([], n, [SAME]);
    OneStatement([], SelfAssigning()[0]);
  }

  lemma AssignStatement(facts: Facts, x: string, op: Option<Arith>, rhs: Term)
    ensures CheckStmt(Small, facts, Assign(x, op, rhs), []) == CheckAssign(Small, facts, x, op, rhs)
  {
    hide CheckAssign;
  }

  lemma KnownFact(facts: Facts, c: Cond)
    requires c in facts
    ensures CheckStmt(Small, facts, Assert(c, None), []) == Some(facts)
  {
    Reflexive(c);
  }

  lemma {:induction false} SelfEq(t: Term)
    ensures Eq(t, t)
  {
    match t
    case Const(_, _) =>
    case Var(_) =>
    case Neg(e) => SelfEq(e);
    case As(e, _) => SelfEq(e);
    case Bin(_, l, r) =>
      SelfEq(l);
      SelfEq(r);
  }

  lemma {:induction false} Reflexive(c: Cond)
    ensures CondEq(c, c)
  {
    match c
    case Cmp(_, l, r) =>
      SelfEq(l);
      SelfEq(r);
    case And(d, e) =>
      Reflexive(d);
      Reflexive(e);
    case Or(d, e) =>
      Reflexive(d);
      Reflexive(e);
    case Not(d) => Reflexive(d);
  }

  lemma SelfAssignmentAccepted()
    ensures CheckAssign(Small, [LOW], "x", None, NEXT) == Some([SAME])
  {
    hide CheckTerm;
    SelfTerms();
    assert Updated([LOW], Unless("x")) == [] by { assert [LOW][1..] == []; }
    assert AppendFact([], SAME) == [SAME];
  }

  lemma SelfTerms()
    ensures CheckTerm(Small, [LOW], X) == Some(Range(0, 9))
    ensures CheckTerm(Small, [LOW], NEXT) == Some(Range(1, 10))
  {
    hide Refined;
    OneFact(LOW, X, Range(0, 100));
    OneFact(LOW, Number(1), Range(1, 1));
    OneFact(LOW, NEXT, Range(1, 10));
  }

  const ONE := Cmp(EqEq, X, Number(1))
  const GROWN := Cmp(EqEq, X, Bin(Plus, Number(1), X))

  /** if x == 1 { x += x; assert x == 1 + x } */
  function SelfAdding(): seq<Stmt> { [Branch(If(ONE, [Assign("x", Some(Plus), X), Assert(GROWN, None)], [], None))] }

  lemma SelfAddingFails(s: State)
    requires InTypes(Small, s) && s("x") == 1
    ensures Deceives(ALL - {NoSelfReference}, SelfAdding(), s, 0) && Tidy(SelfAdding())
  {
    hide CheckBlock;
    SmallOk();
    SelfAddingAccepted();
    SelfAddingTidy();
    SelfAddingMeets();
    hide Meets;
    var n := SelfAdding()[0].chain;
    var s' := Set(s, "x", 2);
    assert RunStmt(Small, n.ifTrue[0], s, 0) == Normal(s') by { assert Fits(Small, X, s("x")); }
    RunsFirst(n.ifTrue[0], [n.ifTrue[1]], s, 0);
    RunsFirst(n.ifTrue[1], [], s', 0);
    assert n.ifTrue == [n.ifTrue[0]] + [n.ifTrue[1]];
    assert SafeCond(Small, ONE, s) by { assert Fits(Small, X, s("x")); }
    TakesIf(n, s, 0);
    RunsFirst(SelfAdding()[0], [], s, 0);
  }

  lemma SelfAddingMeets()
    ensures Meets(Small, ALL - {NoSelfReference}, SelfAdding())
  {
    var ds, n := ALL - {NoSelfReference}, SelfAdding()[0].chain;
    MeetsNone(ds);
    MeetsTwo(ds, n.ifTrue[0], n.ifTrue[1]);
    MeetsOne(ds, SelfAdding()[0]);
  }

  lemma SelfAddingTidy()
    ensures Tidy(SelfAdding())
  {
    hide LexiconOk, LeafOk, Numerals;
    NamesLegible();
    var n := SelfAdding()[0].chain;
    ReadableTwo(n.ifTrue[0], n.ifTrue[1]);
    ReadableIf(ONE, n.ifTrue, 1);
    ReadableOne(SelfAdding()[0]);
  }

  lemma SelfAddingAccepted()
    ensures CheckBlock(Small, [], SelfAdding(), []).Some?
  {
    hide CheckAssign, CheckTerm, Branches, Unify, CheckStmt;
    var n := SelfAdding()[0].chain;
    SelfAdditionAccepted();
    assert CheckStmt(Small, [ONE], n.ifTrue[0], []) == Some([GROWN]) by { AssignStatement([ONE], "x", Some(Plus), X); }
    assert CheckStmt(Small, [GROWN], n.ifTrue[1], []) == Some([GROWN]) by { KnownFact([GROWN], GROWN); }
    TwoStatements([ONE], n.ifTrue[0], n.ifTrue[1], [GROWN]);
    VariableAccepted("x", 1);
    assert AppendFact([], ONE) == [ONE];
    LoneIf([], n, [GROWN]);
    OneStatement([], SelfAdding()[0]);
  }

  lemma SelfAdditionAccepted()
    ensures CheckAssign(Small, [ONE], "x", Some(Plus), X) == Some([GROWN])
  {
    OneFact(ONE, X, Range(0, 100));
    assert CheckTerm(Small, [ONE], X) == Some(Range(1, 1));
    hide CheckTerm;
    assert Updated([ONE], Moved(Plus, "x", X)) == [GROWN] by { assert [ONE][1..] == []; }
  }

  // ---------------- A fact that one branch holds twice

  const P := Cmp(Less, X, Bin(Plus, A, B))
  const Q := Cmp(Less, X, Bin(Plus, B, A))
  const ENOUGH := Cmp(GreaterEq, X, B)
  const GOAL := Cmp(Less, X, A)
  const NONNEGATIVE := Cmp(GreaterEq, X, Number(0))

  /** if x < a + b { if x < b + a { if x >= b { x -= b }; assert x < a } } */
  function Innermost(): If { If(ENOUGH, [Assign("x", Some(Minus), B)], [], None) }
  function Middle(): If { If(Q, [Branch(Innermost()), Assert(GOAL, None)], [], None) }
  function Repeating(): seq<Stmt> { [Branch(If(P, [Branch(Middle())], [], None))] }

  /** The subtraction turns two different facts into one, held twice; the join takes that for a fact
      of both branches. */
  lemma RepeatingFails(s: State)
    requires InTypes(Small, s) && s("x") == 2 && s("a") == 1 && s("b") == 5
    ensures Deceives(ALL - {NoSubtraction}, Repeating(), s, 0) && Tidy(Repeating())
  {
    hide Run, CheckBlock, Meets, Tidy;
    SmallOk();
    RepeatingAccepted();
    RepeatingRun(s);
    RepeatingTidy();
    RepeatingMeets();
  }

  lemma RepeatingMeets()
    ensures Meets(Small, ALL - {NoSubtraction}, Repeating())
  {
    var ds := ALL - {NoSubtraction};
    MeetsNone(ds);
    MeetsOne(ds, Innermost().ifTrue[0]);
    MeetsTwo(ds, Middle().ifTrue[0], Middle().ifTrue[1]);
    MeetsOne(ds, Branch(Middle()));
    MeetsOne(ds, Repeating()[0]);
  }

  lemma RepeatingTidy()
    ensures Tidy(Repeating())
  {
    hide LexiconOk, LeafOk, Numerals;
    NamesLegible();
    var inner, body := Innermost().ifTrue, Middle().ifTrue;
    ReadableOne(inner[0]);
    ReadableIf(ENOUGH, inner, 1);
    ReadableTwo(body[0], body[1]);
    ReadableIf(Q, body, 1);
    ReadableOne(Branch(Middle()));
    ReadableIf(P, [Branch(Middle())], 1);
    ReadableOne(Repeating()[0]);
  }

  lemma RepeatingRun(s: State)
    requires s("x") == 2 && s("a") == 1 && s("b") == 5
    ensures Run(Small, Repeating(), s, 0).Failed?
  {
    MiddleRun(s);
    hide Run, RunIf;
    RunsFirst(Branch(Middle()), [], s, 0);
    assert SafeCond(Small, P, s) && Truth(P, s);
    assert RunIf(Small, Repeating()[0].chain, s, 0) == Failed by { TakesIf(Repeating()[0].chain, s, 0); }
    RunsFirst(Repeating()[0], [], s, 0);
  }

  lemma MiddleRun(s: State)
    requires s("x") == 2 && s("a") == 1 && s("b") == 5
    ensures RunIf(Small, Middle(), s, 0) == Failed
  {
    hide Run;
    assert RunIf(Small, Innermost(), s, 0) == Normal(s);
    RunsFirst(Branch(Innermost()), [Assert(GOAL, None)], s, 0);
    RunsFirst(Assert(GOAL, None), [], s, 0);
    assert Middle().ifTrue == [Branch(Innermost())] + [Assert(GOAL, None)];
    assert SafeCond(Small, Q, s) && Truth(Q, s);
  }

  ghost predicate NoConstants(facts: Facts)
  {
    forall f | f in facts :: f.Cmp? && !f.lhs.Const? && !f.rhs.Const?
  }

  lemma {:induction false} Unrefined(facts: Facts, n: Term, r: Range)
    requires NoConstants(facts)
    ensures Refined(facts, n, r) == Some(r)
  {
    if facts != [] {
      assert facts[0] in facts;
      Unrefined(facts[1..], n, r);
    }
  }

  lemma TermsAccepted(facts: Facts)
    requires NoConstants(facts)
    ensures forall x :: CheckTerm(Small, facts, Var(x)) == Some(Range(0, 100))
    ensures CheckCond(Small, facts, P) && CheckCond(Small, facts, Q) && CheckCond(Small, facts, ENOUGH)
  {
    forall x
      ensures CheckTerm(Small, facts, Var(x)) == Some(Range(0, 100))
    {
      Unrefined(facts, Var(x), Range(0, 100));
    }
    Unrefined(facts, P.rhs, Range(0, 200));
    Unrefined(facts, Q.rhs, Range(0, 200));
  }

  lemma RepeatingAccepted()
    ensures CheckBlock(Small, [], Repeating(), []).Some?
  {
    hide CheckTerm, CheckCond, Branches, Unify, CheckStmt;
    TermsAccepted([]);
    MiddleAccepted();
    OneStatement([P], Branch(Middle()));
    assert AppendFact([], P) == [P];
    LoneIf([], Repeating()[0].chain, CheckStmt(Small, [P], Branch(Middle()), []).value);
    OneStatement([], Repeating()[0]);
  }

  lemma MiddleAccepted()
    ensures CheckStmt(Small, [P], Branch(Middle()), []).Some?
  {
    hide CheckTerm, CheckCond, Branches, Unify, CheckStmt;
    TermsAccepted([P]);
    InnermostAccepted();
    KnownFact([GOAL, GOAL], GOAL);
    TwoStatements([P, Q], Branch(Innermost()), Assert(GOAL, None), [GOAL, GOAL]);
    assert AppendFact([P], Q) == [P, Q];
    LoneIf([P], Middle(), [GOAL, GOAL]);
  }

  lemma InnermostAccepted()
    ensures CheckStmt(Small, [P, Q], Branch(Innermost()), []) == Some([GOAL, GOAL])
  {
    hide CheckTerm, CheckCond, Branches, CheckAssign, CheckStmt, Tally;
    var after, other := [GOAL, GOAL, NONNEGATIVE], [P, Q, Cmp(Less, X, B)];
    TermsAccepted([P, Q]);
    SubtractionAccepted();
    AssignStatement([P, Q, ENOUGH], "x", Some(Minus), B);
    OneStatement([P, Q, ENOUGH], Innermost().ifTrue[0]);
    assert AppendFact([P, Q], ENOUGH) == [P, Q, ENOUGH];
    LoneIf([P, Q], Innermost(), after);
    assert AppendFact([P, Q], Invert(ENOUGH)) == other;
    RepeatedFactKept();
  }

  /** The join of the two branches. */
  lemma RepeatedFactKept()
    ensures Unify([[GOAL, GOAL, NONNEGATIVE], [P, Q, Cmp(Less, X, B)]]) == Some([GOAL, GOAL])
  {
    hide Tally, Str;
    var after, other := [GOAL, GOAL, NONNEGATIVE], [P, Q, Cmp(Less, X, B)];
    var bs := [after, other];
    RepeatedTexts();
    TallyTwo(after, other, Str(GOAL));
    TallyTwo(after, other, Str(NONNEGATIVE));
    assert after[1..] == [GOAL, NONNEGATIVE] && after[1..][1..] == [NONNEGATIVE] && after[1..][1..][1..] == [];
    assert Updated(after[1..][1..], Common(bs)) == [];
    assert Updated(after[1..], Common(bs)) == [GOAL];
    assert Updated(after, Common(bs)) == [GOAL, GOAL];
  }

  lemma RepeatedTexts()
    ensures var after, other := Texts([GOAL, GOAL, NONNEGATIVE]), Texts([P, Q, Cmp(Less, X, B)]);
            && multiset(after)[Str(GOAL)] == 2 && multiset(other)[Str(GOAL)] == 0
            && multiset(after)[Str(NONNEGATIVE)] == 1 && multiset(other)[Str(NONNEGATIVE)] == 0
  {
    hide Str, Texts;
    var small := Cmp(Less, X, B);
    ThreeTexts(GOAL, GOAL, NONNEGATIVE);
    ThreeTexts(P, Q, small);
    TextsDiffer();
  }

  lemma ThreeTexts(a: Cond, b: Cond, c: Cond)
    ensures Texts([a, b, c]) == [Str(a), Str(b), Str(c)]
  {
    hide Str;
    assert [a, b, c][1..] == [b, c] && [b, c][1..] == [c] && [c][1..] == [];
    assert Texts([c]) == [Str(c)] && Texts([b, c]) == [Str(b)] + Texts([c]);
  }

  lemma TextsDiffer()
    ensures var small := Cmp(Less, X, B);
            && Str(GOAL) != Str(NONNEGATIVE) && Str(GOAL) != Str(P) && Str(GOAL) != Str(Q) && Str(GOAL) != Str(small)
            && Str(NONNEGATIVE) != Str(P) && Str(NONNEGATIVE) != Str(Q) && Str(NONNEGATIVE) != Str(small)
  {
    hide Str;
    CompareText(Less, "a");
    CompareText(Less, "b");
    SumText("a", "b");
    SumText("b", "a");
    AtLeastText(0);
    assert Str(GOAL)[3] == ' ' && Str(GOAL)[4] == 'a' && Str(Cmp(Less, X, B))[4] == 'b' && Str(Cmp(Less, X, B))[3] == ' ';
  }

  lemma ComparisonText(rel: Relation, l: Term, r: Term)
    ensures Str(Cmp(rel, l, r)) == Show(TermTree(l), true, 1) + RelationText(rel) + Show(TermTree(r), true, 1)
    ensures l.Var? ==> Show(TermTree(l), true, 1) == l.x
    ensures r.Var? ==> Show(TermTree(r), true, 1) == r.x
    ensures r.Bin? ==> Show(TermTree(r), true, 1) != [] && Show(TermTree(r), true, 1)[0] == '('
  {
  }

  lemma CompareText(rel: Relation, y: string)
    ensures Str(Cmp(rel, X, Var(y))) == "x" + RelationText(rel) + y
  {
    hide Str;
    ComparisonText(rel, X, Var(y));
  }

  lemma SumText(y: string, z: string)
    ensures var s := Str(Cmp(Less, X, Bin(Plus, Var(y), Var(z)))); |s| > 4 && s[3] == ' ' && s[4] == '('
  {
    hide Str, Show;
    var sum := Bin(Plus, Var(y), Var(z));
    ComparisonText(Less, X, sum);
    var s, rest := Str(Cmp(Less, X, sum)), Show(TermTree(sum), true, 1);
    assert s == "x < " + rest;
  }

  lemma AtLeastText(v: int)
    ensures var s := Str(Cmp(GreaterEq, X, Number(v))); |s| > 4 && s[3] == '='
  {
    hide Str, Show;
    ComparisonText(GreaterEq, X, Number(v));
    assert Str(Cmp(GreaterEq, X, Number(v))) == "x >= " + Show(TermTree(Number(v)), true, 1);
  }

  lemma TallyTwo(b: Facts, c: Facts, text: string)
    ensures Tally([b, c], text) == multiset(Texts(b))[text] + multiset(Texts(c))[text]
  {
    hide Texts;
    assert [b, c][1..] == [c] && [c][1..] == [];
    assert Tally([c], text) == multiset(Texts(c))[text] + Tally([], text);
  }

  lemma SubtractionAccepted()
    ensures CheckAssign(Small, [P, Q, ENOUGH], "x", Some(Minus), B) == Some([GOAL, GOAL, NONNEGATIVE])
  {
    hide CheckTerm, CheckBinary, Updated, Moved;
    TermsAccepted([P, Q, ENOUGH]);
    DifferenceAccepted();
    FactsMoved();
  }

  lemma DifferenceAccepted()
    ensures CheckBinary(Small, [P, Q, ENOUGH], Minus, X, B) == Some(Range(0, 100))
  {
    hide CheckTerm, Narrowed;
    TermsAccepted([P, Q, ENOUGH]);
    DifferenceNarrowed();
  }

  lemma DifferenceNarrowed()
    ensures Narrowed([P, Q, ENOUGH], X, B, Range(-100, 100)) == Range(0, 100)
  {
    var facts := [P, Q, ENOUGH];
    assert facts[1..] == [Q, ENOUGH] && facts[1..][1..] == [ENOUGH] && facts[1..][1..][1..] == [];
    assert Narrowed(facts[1..][1..], X, B, Range(-100, 100)) == Range(0, 100);
  }

  lemma FactsMoved()
    ensures Updated([P, Q, ENOUGH], Moved(Minus, "x", B)) == [GOAL, GOAL, NONNEGATIVE]
  {
    var facts, g := [P, Q, ENOUGH], Moved(Minus, "x", B);
    assert facts[1..] == [Q, ENOUGH] && facts[1..][1..] == [ENOUGH] && facts[1..][1..][1..] == [];
    assert g(P) == Some(GOAL) && g(Q) == Some(GOAL) && g(ENOUGH) == Some(NONNEGATIVE);
    hide Moved;
    assert Updated(facts[1..][1..], g) == [NONNEGATIVE];
    assert Updated(facts[1..], g) == [GOAL, NONNEGATIVE];
  }

  // ---------------- Different facts with the same text

  const Y := Var("y")
  const X1 := Var("x1")
  const FIRST := Cmp(Less, Y, Bin(Percent, X, Const(16, "16")))
  const SECOND := Cmp(Less, Y, Bin(Percent, X1, Const(6, "6")))
  const NOT_FIRST := Cmp(GreaterEq, Y, FIRST.rhs)

  /** if y < x % 16 { } else if y < x1 % 6 { } else { return }; assert y < x % 16 */
  function Elsewhere(): If { If(SECOND, [], [Return(None)], None) }
  function Choice(): If { If(FIRST, [], [], Some(Elsewhere())) }
  function Mistaking(): seq<Stmt> { [Branch(Choice()), Assert(FIRST, None)] }

  /** Both conditions have the text `y < (x16)`, so the join takes the first for a fact of both
      branches. */
  lemma MistakingFails(s: State)
    requires InTypes(Small, s) && s("x") == 0 && s("x1") == 5 && s("y") == 3
    ensures Deceives(ALL, Mistaking(), s, 0)
  {
    hide CheckBlock, Meets;
    SmallOk();
    MistakingAccepted();
    MistakingMeets();
    assert SafeCond(Small, FIRST, s) && SafeCond(Small, SECOND, s);
    assert RunIf(Small, Elsewhere(), s, 0) == Normal(s);
    assert RunIf(Small, Choice(), s, 0) == Normal(s);
    RunsFirst(Branch(Choice()), [Assert(FIRST, None)], s, 0);
    RunsFirst(Assert(FIRST, None), [], s, 0);
    assert Mistaking() == [Branch(Choice())] + [Assert(FIRST, None)];
  }

  lemma MistakingMeets()
    ensures Meets(Small, ALL, Mistaking())
  {
    MeetsNone(ALL);
    MeetsOne(ALL, Return(None));
    MeetsTwo(ALL, Mistaking()[0], Mistaking()[1]);
  }

  lemma MistakenTexts()
    ensures Str(FIRST) == Str(SECOND) == "y < (x16)" && Str(NOT_FIRST) == "y >= (x16)"
  {
    assert Show(TermTree(FIRST.rhs), true, 1) == "(x16)";
    assert Show(TermTree(SECOND.rhs), true, 1) == "(x16)";
  }

  lemma MistakingAccepted()
    ensures CheckBlock(Small, [], Mistaking(), []).Some?
  {
    hide CheckTerm, CheckCond, Branches, Unify, CheckStmt;
    ChoiceBranches();
    MistakenJoin();
    assert CheckStmt(Small, [], Branch(Choice()), []) == Some([FIRST]) by { BranchStatement([], Choice()); }
    KnownFact([FIRST], FIRST);
    TwoStatements([], Branch(Choice()), Assert(FIRST, None), [FIRST]);
  }

  lemma BranchStatement(facts: Facts, n: If)
    requires Branches(Small, facts, n, []).Some?
    ensures CheckStmt(Small, facts, Branch(n), []) == Unify(Branches(Small, facts, n, []).value)
  {
    hide Branches, Unify;
  }

  lemma MistakenJoin()
    ensures Unify([[FIRST], [NOT_FIRST, SECOND]]) == Some([FIRST])
  {
    hide Tally;
    var bs := [[FIRST], [NOT_FIRST, SECOND]];
    MistakenTexts();
    hide Str;
    TallyTwo(bs[0], bs[1], Str(FIRST));
    assert Texts(bs[0]) == [Str(FIRST)] && Texts(bs[1]) == [Str(NOT_FIRST), Str(SECOND)];
    assert Updated([FIRST], Common(bs)) == [FIRST] by { assert [FIRST][1..] == []; }
  }

  lemma ChoiceBranches()
    ensures Branches(Small, [], Choice(), []) == Some([[FIRST], [NOT_FIRST, SECOND]])
  {
    RemaindersAccepted();
    hide CheckCond;
    assert AppendFact([], FIRST) == [FIRST] && AppendFact([], Invert(FIRST)) == [NOT_FIRST];
    assert AppendFact([NOT_FIRST], SECOND) == [NOT_FIRST, SECOND];
    assert Terminates([Return(None)]) && !Terminates([]);
    assert CheckBlock(Small, AppendFact([NOT_FIRST], Invert(SECOND)), [Return(None)], []).Some?;
    assert CheckBlock(Small, [NOT_FIRST, SECOND], [], []) == Some([NOT_FIRST, SECOND]);
    assert [[NOT_FIRST, SECOND]] + [] == [[NOT_FIRST, SECOND]];
    assert Branches(Small, [NOT_FIRST], Elsewhere(), []) == Some([[NOT_FIRST, SECOND]]);
    assert [[FIRST]] + [[NOT_FIRST, SECOND]] == [[FIRST], [NOT_FIRST, SECOND]];
  }

  lemma RemaindersAccepted()
    ensures CheckCond(Small, [], FIRST) && CheckCond(Small, [NOT_FIRST], SECOND)
  {
    Unrefined([NOT_FIRST], Y, Range(0, 100));
    Unrefined([NOT_FIRST], X1, Range(0, 100));
    Unrefined([NOT_FIRST], SECOND.rhs.r, Range(6, 6));
    Unrefined([NOT_FIRST], SECOND.rhs, Range(0, 5));
    assert CheckTerm(Small, [], X) == Some(Range(0, 100)) && CheckTerm(Small, [], FIRST.rhs.r) == Some(Range(16, 16));
    assert CheckTerm(Small, [NOT_FIRST], X1) == Some(Range(0, 100));
    assert CheckTerm(Small, [NOT_FIRST], SECOND.rhs.r) == Some(Range(6, 6));
  }

  // ---------------- A guard that is only checked on entry

  const BEFORE := Bin(Minus, X, Number(1))
  const POSITIVE := Cmp(GreaterEq, X, Number(1))
  const AWAY := Cmp(NotEq, BEFORE, Number(5))

  /** if x >= 1 { while x - 1 != 5 { x = 0 } } */
  function Roaming(): Stmt { While(When(AWAY), [], [Assign("x", None, Number(0))]) }
  function Wandering(): seq<Stmt> { [Branch(If(POSITIVE, [Roaming()], [], None))] }

  lemma WanderingFails(s: State)
    requires InTypes(Small, s) && s("x") == 1
    ensures Deceives(ALL - {GuardsKept}, Wandering(), s, 1) && Tidy(Wandering())
  {
    hide CheckBlock, Run, Tidy, InTypes, Meets;
    SmallOk();
    WanderingAccepted();
    WanderingTidy();
    WanderingMeets();
    assert Fits(Small, X, s("x")) by { VariableInType(s, "x"); }
    WanderingRun(s);
  }

  lemma VariableInType(s: State, x: string)
    requires InTypes(Small, s)
    ensures Fits(Small, Var(x), s(x))
  {
  }

  lemma WanderingRun(s: State)
    requires s("x") == 1
    ensures Run(Small, Wandering(), s, 1) == Failed
  {
    RoamingRun(s);
    hide Run, RunIf, RunWhile;
    assert SafeCond(Small, POSITIVE, s) && Truth(POSITIVE, s);
    RunsFirst(Roaming(), [], s, 1);
    TakesIf(Wandering()[0].chain, s, 1);
    RunsFirst(Wandering()[0], [], s, 1);
  }

  lemma RoamingRun(s: State)
    requires s("x") == 1
    ensures RunWhile(Small, Roaming(), s, 1) == Failed
  {
    var w, s' := Roaming(), Set(s, "x", 0);
    hide Run;
    RunsFirst(w.body[0], [], s, 0);
    assert Run(Small, w.body, s, 0) == Normal(s');
    assert RunWhile(Small, w, s', 0) == Failed;
  }

  lemma WanderingMeets()
    ensures Meets(Small, ALL - {GuardsKept}, Wandering())
  {
    var ds := ALL - {GuardsKept};
    MeetsNone(ds);
    MeetsOne(ds, Roaming().body[0]);
    MeetsOne(ds, Roaming());
    MeetsOne(ds, Wandering()[0]);
  }

  lemma WanderingTidy()
    ensures Tidy(Wandering())
  {
    hide LexiconOk, LeafOk, Numerals;
    NamesLegible();
    ReadableOne(Roaming().body[0]);
    ReadableOne(Roaming());
    ReadableIf(POSITIVE, [Roaming()], 0);
    ReadableOne(Wandering()[0]);
  }

  lemma WanderingAccepted()
    ensures CheckBlock(Small, [], Wandering(), []).Some?
  {
    hide CheckWhile, CheckTerm, CheckCond, Branches, Unify;
    WanderingLoopAccepted();
    OneStatement([POSITIVE], Roaming());
    assert AppendFact([], POSITIVE) == [POSITIVE];
    assert CheckCond(Small, [], POSITIVE) by { ComparisonAccepted(); }
    LoneIf([], Wandering()[0].chain, []);
    OneStatement([], Wandering()[0]);
  }

  lemma ComparisonAccepted()
    ensures CheckCond(Small, [], POSITIVE)
  {
  }

  lemma WanderingLoopAccepted()
    ensures CheckWhile(Small, [POSITIVE], Roaming(), []) == Some([])
  {
    var w := Roaming();
    WanderingGuardAccepted();
    assert CheckTerm(Small, [AWAY], X).Some? by { OneFact(AWAY, X, Range(0, 100)); }
    hide CheckTerm, CheckCond;
    assert BodyFacts(w) == [AWAY];
    assert CheckAssign(Small, [AWAY], "x", None, Number(0)).Some?;
    assert CheckBlock(Small, [AWAY], w.body, [[]]).Some?;
  }

  lemma WanderingGuardAccepted()
    ensures CheckCond(Small, [POSITIVE], AWAY)
  {
    hide Refined, Narrowed;
    OneFact(POSITIVE, X, Range(0, 100));
    OneFact(POSITIVE, Number(1), Range(1, 1));
    OneFact(POSITIVE, Number(5), Range(5, 5));
    OneFact(POSITIVE, BEFORE, Range(0, 99));
    OneNarrowing(POSITIVE, X, Number(1), Range(0, 99));
    assert CheckTerm(Small, [POSITIVE], X) == Some(Range(1, 100));
    assert CheckTerm(Small, [POSITIVE], BEFORE) == Some(Range(0, 99));
  }

  // ---------------- A return value, which is not checked

  const SQUARE := Bin(Star, X, X)

  /** return x * x */
  function Returning(): seq<Stmt> { [Return(Some(SQUARE))] }

  lemma ReturningFails(s: State)
    requires InTypes(Small, s) && s("x") == 100
    ensures Deceives(ALL - {ReturnsKept}, Returning(), s, 0) && Tidy(Returning())
  {
    NumeralsOk();
    hide LexiconOk;
    MeetsOne(ALL - {ReturnsKept}, Returning()[0]);
    ReadableOne(Returning()[0]);
    assert Eval(SQUARE, s) == 10000;
    RunsFirst(Returning()[0], [], s, 0);
  }
}
