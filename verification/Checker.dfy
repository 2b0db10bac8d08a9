/** The bounds checker's statements (lang/check/bounds.go:222-706): which programs it accepts, which
    facts it has at each point, and that an accepted program never fails. */
module Checker {
  import opened Options
  import opened Programs
  import opened Rendering
  import opened Facts
  import opened Ranges

  // ---------------- Assertions and assignments

  function CheckAssert(typ: Typing, facts: Facts, c: Cond, why: Option<Reason>): Option<Facts>
  {
    if Known(facts, c) then Some(facts)
    else if !Shows(typ, facts, c, why) then None
    else match Simplify(c)
      case None => None
      case Some(f) => Some(AppendFact(facts, f))
  }

  /** The assertions among cs of the given kinds, one after the other. */
  function CheckClauses(typ: Typing, facts: Facts, cs: seq<Clause>, kinds: set<Kind>): Option<Facts>
    decreases cs
  {
    if cs == [] then Some(facts)
    else if cs[0].kind !in kinds then CheckClauses(typ, facts, cs[1..], kinds)
    else match CheckAssert(typ, facts, cs[0].cond, cs[0].why)
      case None => None
      case Some(f) => CheckClauses(typ, f, cs[1..], kinds)
  }

  /** The facts extended by the clauses of the given kinds, without proof. */
  function Assume(facts: Facts, cs: seq<Cond>): Facts
    decreases cs
  {
    if cs == [] then facts else Assume(AppendFact(facts, cs[0]), cs[1..])
  }

  function CheckAssign(typ: Typing, facts: Facts, x: string, op: Option<Arith>, rhs: Term): Option<Facts>
  {
    var r :=
      match op
      case None => if rhs.Const? then Some(Range(rhs.v, rhs.v)) else CheckTerm(typ, facts, rhs)
      case Some(o) => CheckBinary(typ, facts, o, Var(x), rhs);
    if CheckTerm(typ, facts, Var(x)).None? || r.None? then None
    else if typ(Var(x)).Some? && !r.value.Within(typ(Var(x)).value) then None
    else Some(AfterAssign(facts, x, op, rhs))
  }

  // ---------------- Joins

  predicate Leaves(st: Stmt) { st.Break? || st.Continue? || st.Return? }

  predicate Terminates(body: seq<Stmt>)
    decreases body
  {
    body != [] && StmtTerminates(body[|body| - 1])
  }

  predicate StmtTerminates(st: Stmt)
    decreases st
  {
    Leaves(st) || (st.Branch? && ChainTerminates(st.chain))
  }

  predicate ChainTerminates(n: If)
    decreases n
  {
    && Terminates(n.ifTrue)
    && (n.ifFalse != [] ==> Terminates(n.ifFalse))
    && match n.elseIf case None => n.ifFalse != [] case Some(m) => ChainTerminates(m)
  }

  function Texts(facts: Facts): (ts: seq<string>)
    ensures |ts| == |facts| && forall i | 0 <= i < |facts| :: ts[i] == Str(facts[i])
  {
    if facts == [] then [] else [Str(facts[0])] + Texts(facts[1..])
  }

  /** How often facts with this text occur in all the branches together. */
  function Tally(branches: seq<Facts>, text: string): nat
  {
    if branches == [] then 0 else multiset(Texts(branches[0]))[text] + Tally(branches[1..], text)
  }

  const MAX_BRANCHES := 10000

  /** The facts of the first branch whose text occurs as often as there are branches. */
  function Unify(branches: seq<Facts>): Option<Facts>
  {
    if branches == [] then Some([])
    else if |branches| == 1 then Some(branches[0])
    else if |branches| > MAX_BRANCHES then None
    else Some(Updated(branches[0], Common(branches)))
  }

  function Common(branches: seq<Facts>): Cond -> Option<Cond>
  {
    f => if Tally(branches, Str(f)) == |branches| then Some(f) else None
  }

  /** No two facts have the same text. */
  ghost predicate NoRepeats(facts: Facts)
  {
    forall i, j | 0 <= i < j < |facts| :: Str(facts[i]) != Str(facts[j])
  }

  predicate Stated(facts: Facts, text: string)
  {
    exists g | g in facts :: Str(g) == text
  }

  lemma {:induction false} TallyOfDistinct(branches: seq<Facts>, text: string)
    requires forall b | b in branches :: NoRepeats(b)
    ensures Tally(branches, text) <= |branches|
    ensures Tally(branches, text) == |branches| <==> forall b | b in branches :: Stated(b, text)
  {
    hide Stated, Texts, NoRepeats;
    if branches != [] {
      var rest := branches[1..];
      assert forall b :: b in branches <==> b == branches[0] || b in rest;
      TallyOfDistinct(rest, text);
      assert branches[0] in branches;
      CountOfDistinct(branches[0], text);
    }
  }

  lemma {:induction false} CountOfDistinct(b: Facts, text: string)
    requires NoRepeats(b)
    ensures multiset(Texts(b))[text] == if Stated(b, text) then 1 else 0
  {
    hide Str;
    if b != [] {
      CountOfDistinct(b[1..], text);
      assert b == [b[0]] + b[1..] && Texts(b) == [Str(b[0])] + Texts(b[1..]);
      assert forall g :: g in b <==> g == b[0] || g in b[1..];
      assert forall g | g in b[1..] :: Str(g) != Str(b[0]);
    }
  }

  /** When no branch repeats a text, a join keeps exactly the facts of the first branch whose text all
      branches have. */
  lemma UnifyKeepsShared(branches: seq<Facts>, f: Cond)
    requires forall b | b in branches :: NoRepeats(b)
    requires 0 < |branches| <= MAX_BRANCHES
    ensures f in Unify(branches).value <==> f in branches[0] && forall b | b in branches :: Stated(b, Str(f))
  {
    hide Str;
    assert branches[0] in branches;
    if |branches| > 1 {
      UpdatedAt(branches[0], Common(branches), f);
      TallyOfDistinct(branches, Str(f));
    } else {
      assert forall b :: b in branches ==> b == branches[0];
    }
  }

  /** What makes a join right: no branch repeats a text, and facts with one text are equal. */
  ghost predicate CleanJoin(branches: seq<Facts>)
  {
    && (forall b | b in branches :: NoRepeats(b))
    && forall b, c, f, g | b in branches && c in branches && f in b && g in c && Str(f) == Str(g) :: CondEq(f, g)
  }

  // ---------------- Statements

  /** The facts after a block whose enclosing loops, innermost first, have the given clauses. */
  function CheckBlock(typ: Typing, facts: Facts, block: seq<Stmt>, loops: seq<seq<Clause>>): Option<Facts>
    decreases block
  {
    if block == [] then Some(facts)
    else match CheckStmt(typ, facts, block[0], loops)
      case None => None
      case Some(f) => if Leaves(block[0]) then Some(f) else CheckBlock(typ, f, block[1..], loops)
  }

  function CheckStmt(typ: Typing, facts: Facts, st: Stmt, loops: seq<seq<Clause>>): Option<Facts>
    decreases st, 1
  {
    match st
    case Assert(c, why) => CheckAssert(typ, facts, c, why)
    case Assign(x, op, rhs) => CheckAssign(typ, facts, x, op, rhs)
    case Evaluate(t) => if CheckTerm(typ, facts, t).None? then None else Some(facts)
    case Branch(n) =>
      (match Branches(typ, facts, n, loops)
       case None => None
       case Some(bs) => Unify(bs))
    case While(_, _, _) => CheckWhile(typ, facts, st, loops)
    case Break(depth) =>
      if depth >= |loops| || CheckClauses(typ, facts, loops[depth], EXIT).None? then None else Some([])
    case Continue(depth) =>
      if depth >= |loops| || CheckClauses(typ, facts, loops[depth], ENTRY).None? then None else Some([])
    case Return(_) => Some(facts)
  }

  /** The facts at the end of each arm of an if-else chain that control can come out of. */
  function Branches(typ: Typing, facts: Facts, n: If, loops: seq<seq<Clause>>): Option<seq<Facts>>
    decreases n
  {
    if !CheckCond(typ, facts, n.cond) then None
    else
      var yes := CheckBlock(typ, AppendFact(facts, n.cond), n.ifTrue, loops);
      var otherwise := AppendFact(facts, Invert(n.cond));
      var rest :=
        if n.ifFalse != [] then
          match CheckBlock(typ, otherwise, n.ifFalse, loops)
          case None => None
          case Some(f) => Some(if Terminates(n.ifFalse) then [] else [f])
        else match n.elseIf
          case None => Some([otherwise])
          case Some(m) => Branches(typ, otherwise, m, loops);
      if yes.None? || rest.None? then None
      else Some((if Terminates(n.ifTrue) then [] else [yes.value]) + rest.value)
  }

  /** What a loop's body may assume. */
  function BodyFacts(w: Stmt): Facts
    requires w.While?
  {
    var f := Assume([], Conditions(w.clauses, ENTRY));
    if w.guard.When? then AppendFact(f, w.guard.cond) else f
  }

  predicate GuardChecks(typ: Typing, facts: Facts, g: Guard)
  {
    match g
    case Always => Refined(facts, Const(1, "true"), Range(1, 1)).Some?
    case When(c) => CheckCond(typ, facts, c)
  }

  predicate ExitChecks(typ: Typing, w: Stmt)
    requires w.While?
  {
    w.guard.When? ==>
      var f := AppendFact(Assume([], Conditions(w.clauses, ENTRY)), Invert(w.guard.cond));
      CheckClauses(typ, f, w.clauses, {Post}).Some?
  }

  function CheckWhile(typ: Typing, facts: Facts, w: Stmt, loops: seq<seq<Clause>>): Option<Facts>
    requires w.While?
    decreases w, 0
  {
    match CheckClauses(typ, facts, w.clauses, ENTRY)
    case None => None
    case Some(f) =>
      if !GuardChecks(typ, f, w.guard) || !ExitChecks(typ, w) then None
      else match CheckBlock(typ, BodyFacts(w), w.body, [w.clauses] + loops)
        case None => None
        case Some(end) =>
          if !Terminates(w.body) && CheckClauses(typ, end, w.clauses, ENTRY).None? then None
          else Some(Assume([], Conditions(w.clauses, EXIT)))
  }

  // ---------------- The programs that soundness is about

  /** A condition between variables and constants only. */
  predicate Plain(c: Cond)
  {
    match c
    case Cmp(_, l, r) => (l.Var? || l.Const?) && (r.Var? || r.Const?)
    case And(d, e) => Plain(d) && Plain(e)
    case Or(d, e) => Plain(d) && Plain(e)
    case Not(d) => Plain(d)
  }

  predicate ClausesFit(cs: seq<Clause>)
  {
    forall c | c in cs :: NarrowCond(c.cond) && NarrowReason(c.why)
  }

  /** A loop guard that stays within its types on every iteration: it compares variables and
      constants only, or else its ranges also check from the pre and inv conditions alone. */
  predicate GuardKept(typ: Typing, g: Guard, cs: seq<Clause>)
  {
    g.When? ==> Plain(g.cond) || (NarrowCond(g.cond) && CheckCond(typ, Assume([], Conditions(cs, ENTRY)), g.cond))
  }

  /** A return value that stays within its types: the checker does not look at it, so it is a variable
      or a constant, or its ranges check with the given facts or with none. */
  predicate ReturnKept(typ: Typing, facts: Facts, v: Option<Term>)
  {
    v.Some? ==>
      || v.value.Var? || v.value.Const?
      || (Narrow(v.value) && (CheckTerm(typ, facts, v.value).Some? || CheckTerm(typ, [], v.value).Some?))
  }

  /** What soundness asks of a program, readable off its text: no huge ideal constant is shifted right;
      no right side of =, += or -= mentions its target; loop guards and return values stay within their
      types; there is no -=. */
  datatype Demand = ShiftsFit | NoSelfReference | GuardsKept | ReturnsKept | NoSubtraction

  const ALL := {ShiftsFit, NoSelfReference, GuardsKept, ReturnsKept, NoSubtraction}

  predicate Meets(typ: Typing, ds: set<Demand>, block: seq<Stmt>)
    decreases block
  {
    forall i | 0 <= i < |block| :: StmtMeets(typ, ds, block[i])
  }

  predicate StmtMeets(typ: Typing, ds: set<Demand>, st: Stmt)
    decreases st
  {
    match st
    case Assert(c, why) => ShiftsFit in ds ==> NarrowCond(c) && NarrowReason(why)
    case Assign(x, op, rhs) =>
      && (ShiftsFit in ds ==> Narrow(rhs))
      && (NoSelfReference in ds && Tracked(op) ==> !Mentions(rhs, x))
      && (NoSubtraction in ds ==> op != Some(Minus))
    case Evaluate(t) => ShiftsFit in ds ==> Narrow(t)
    case Branch(n) => ChainMeets(typ, ds, n)
    case While(g, cs, body) =>
      && (GuardsKept in ds ==> GuardKept(typ, g, cs))
      && (ShiftsFit in ds ==> ClausesFit(cs))
      && Meets(typ, ds, body)
    case Return(v) => ReturnsKept in ds ==> ReturnKept(typ, [], v)
    case _ => true
  }

  predicate ChainMeets(typ: Typing, ds: set<Demand>, n: If)
    decreases n
  {
    && (ShiftsFit in ds ==> NarrowCond(n.cond))
    && Meets(typ, ds, n.ifTrue) && Meets(typ, ds, n.ifFalse)
    && (n.elseIf.Some? ==> ChainMeets(typ, ds, n.elseIf.value))
  }

  /** All the joins of if-else chains are clean, and return values are kept where they are. */
  ghost predicate Clean(typ: Typing, facts: Facts, block: seq<Stmt>, loops: seq<seq<Clause>>)
    decreases block
  {
    block != [] ==>
      && StmtClean(typ, facts, block[0], loops)
      && (CheckStmt(typ, facts, block[0], loops).Some? && !Leaves(block[0]) ==>
            Clean(typ, CheckStmt(typ, facts, block[0], loops).value, block[1..], loops))
  }

  ghost predicate StmtClean(typ: Typing, facts: Facts, st: Stmt, loops: seq<seq<Clause>>)
    decreases st
  {
    match st
    case Branch(n) =>
      && ChainClean(typ, facts, n, loops)
      && (Branches(typ, facts, n, loops).Some? ==> CleanJoin(Branches(typ, facts, n, loops).value))
    case While(_, cs, body) => Clean(typ, BodyFacts(st), body, [cs] + loops)
    case Return(v) => ReturnKept(typ, facts, v)
    case _ => true
  }

  ghost predicate ChainClean(typ: Typing, facts: Facts, n: If, loops: seq<seq<Clause>>)
    decreases n
  {
    && Clean(typ, AppendFact(facts, n.cond), n.ifTrue, loops)
    && var otherwise := AppendFact(facts, Invert(n.cond));
       && Clean(typ, otherwise, n.ifFalse, loops)
       && (n.elseIf.Some? ==> ChainClean(typ, otherwise, n.elseIf.value, loops))
  }

  // ---------------- Soundness

  lemma AssertSound(typ: Typing, facts: Facts, c: Cond, why: Option<Reason>, s: State)
    requires Reaches(typ, facts, s) && NarrowCond(c) && NarrowReason(why)
    requires CheckAssert(typ, facts, c, why).Some?
    ensures Truth(c, s) && AllHold(CheckAssert(typ, facts, c, why).value, s)
  {
    hide Shows;
    if !Known(facts, c) {
      ShowsSound(typ, facts, c, why, s);
      AppendMeans(facts, Simplify(c).value, s);
    }
  }

  lemma {:induction false} ClausesSound(typ: Typing, facts: Facts, cs: seq<Clause>, kinds: set<Kind>, s: State)
    requires Reaches(typ, facts, s) && ClausesFit(cs)
    requires CheckClauses(typ, facts, cs, kinds).Some?
    ensures AllHold(Conditions(cs, kinds), s)
    decreases cs
  {
    hide CheckAssert;
    if cs != [] {
      assert cs[0] in cs;
      if cs[0].kind in kinds {
        AssertSound(typ, facts, cs[0].cond, cs[0].why, s);
        ClausesSound(typ, CheckAssert(typ, facts, cs[0].cond, cs[0].why).value, cs[1..], kinds, s);
      } else {
        ClausesSound(typ, facts, cs[1..], kinds, s);
      }
    }
  }

  lemma {:induction false} AssumeMeans(facts: Facts, cs: seq<Cond>, s: State)
    ensures AllHold(Assume(facts, cs), s) <==> AllHold(facts, s) && AllHold(cs, s)
    decreases cs
  {
    if cs != [] {
      assert forall c :: c in cs <==> c == cs[0] || c in cs[1..];
      AppendMeans(facts, cs[0], s);
      AssumeMeans(AppendFact(facts, cs[0]), cs[1..], s);
    }
  }

  lemma AssignmentSound(typ: Typing, facts: Facts, x: string, op: Option<Arith>, rhs: Term, s: State)
    requires Reaches(typ, facts, s) && Narrow(rhs) && (Tracked(op) ==> !Mentions(rhs, x))
    requires CheckAssign(typ, facts, x, op, rhs).Some?
    ensures RunAssign(typ, x, op, rhs, s) == Normal(Stored(x, op, rhs, s))
    ensures Reaches(typ, CheckAssign(typ, facts, x, op, rhs).value, Stored(x, op, rhs, s))
  {
    hide AfterAssign, CheckTerm, CheckBinary;
    match op {
      case None => if !rhs.Const? { TermSound(typ, facts, rhs, s); }
      case Some(o) => BinarySound(typ, facts, o, Var(x), rhs, s);
    }
    AssignSound(facts, x, op, rhs, s);
    assert forall y :: Fits(typ, Var(y), s(y));
  }

  /** What soundness promises of a run that the checker follows to the facts `after`. */
  ghost predicate Good(typ: Typing, o: Outcome, after: Facts, loops: seq<seq<Clause>>)
  {
    match o
    case Normal(s) => Reaches(typ, after, s)
    case Broke(depth, s) => depth < |loops| && InTypes(typ, s) && AllHold(Conditions(loops[depth], EXIT), s)
    case Continued(depth, s) => depth < |loops| && InTypes(typ, s) && AllHold(Conditions(loops[depth], ENTRY), s)
    case Returned => true
    case Waiting => true
    case Failed => false
  }

  lemma {:induction false} PlainIsSafe(typ: Typing, c: Cond, s: State)
    requires InTypes(typ, s) && Plain(c)
    ensures SafeCond(typ, c, s)
  {
    match c
    case Cmp(_, l, r) =>
      assert l.Var? ==> Fits(typ, Var(l.x), s(l.x));
      assert r.Var? ==> Fits(typ, Var(r.x), s(r.x));
    case And(d, e) =>
      PlainIsSafe(typ, d, s);
      PlainIsSafe(typ, e, s);
    case Or(d, e) =>
      PlainIsSafe(typ, d, s);
      PlainIsSafe(typ, e, s);
    case Not(d) => PlainIsSafe(typ, d, s);
  }

  /** A block that terminates never falls through. */
  lemma {:induction false} TerminatesMeans(typ: Typing, body: seq<Stmt>, s: State, fuel: nat)
    requires Terminates(body)
    ensures !Run(typ, body, s, fuel).Normal?
    decreases body, 1
  {
    var o := RunStmt(typ, body[0], s, fuel);
    if |body| == 1 {
      StmtTerminatesMeans(typ, body[0], s, fuel);
    } else if o.Normal? {
      assert body[1..][|body| - 2] == body[|body| - 1];
      TerminatesMeans(typ, body[1..], o.s, fuel);
    }
  }

  lemma {:induction false} StmtTerminatesMeans(typ: Typing, st: Stmt, s: State, fuel: nat)
    requires StmtTerminates(st)
    ensures !RunStmt(typ, st, s, fuel).Normal?
    decreases st, 0
  {
    if st.Branch? {
      ChainTerminatesMeans(typ, st.chain, s, fuel);
    }
  }

  lemma {:induction false} ChainTerminatesMeans(typ: Typing, n: If, s: State, fuel: nat)
    requires ChainTerminates(n)
    ensures !RunIf(typ, n, s, fuel).Normal?
    decreases n, 0
  {
    TerminatesMeans(typ, n.ifTrue, s, fuel);
    if n.ifFalse != [] {
      TerminatesMeans(typ, n.ifFalse, s, fuel);
    } else {
      ChainTerminatesMeans(typ, n.elseIf.value, s, fuel);
    }
  }

  /** The demands that soundness needs of a block whose joins and return values are as they should be. */
  predicate Sound(ds: set<Demand>) { ShiftsFit in ds && NoSelfReference in ds && GuardsKept in ds }

  /** Checker soundness: from every state in which the facts hold, an accepted block runs without
      failing for as long as one likes, and where it ends the checker's facts hold. */
  lemma {:induction false} BlockSound(typ: Typing, ds: set<Demand>, facts: Facts, block: seq<Stmt>, loops: seq<seq<Clause>>,
                                      s: State, fuel: nat)
    requires Reaches(typ, facts, s) && Sound(ds)
    requires Meets(typ, ds, block) && Clean(typ, facts, block, loops)
    requires forall cs | cs in loops :: ClausesFit(cs)
    requires CheckBlock(typ, facts, block, loops).Some?
    ensures Good(typ, Run(typ, block, s, fuel), CheckBlock(typ, facts, block, loops).value, loops)
    decreases fuel, block, 0
  {
    hide CheckStmt, RunStmt;
    if block != [] {
      var st := block[0];
      StmtSound(typ, ds, facts, st, loops, s, fuel);
      var o, f := RunStmt(typ, st, s, fuel), CheckStmt(typ, facts, st, loops).value;
      if o.Normal? && !Leaves(st) {
        BlockSound(typ, ds, f, block[1..], loops, o.s, fuel);
      } else if Leaves(st) {
        StmtTerminatesMeans(typ, st, s, fuel);
      }
    }
  }

  lemma {:induction false} StmtSound(typ: Typing, ds: set<Demand>, facts: Facts, st: Stmt, loops: seq<seq<Clause>>,
                                     s: State, fuel: nat)
    requires Reaches(typ, facts, s) && Sound(ds)
    requires StmtMeets(typ, ds, st) && StmtClean(typ, facts, st, loops)
    requires forall cs | cs in loops :: ClausesFit(cs)
    requires CheckStmt(typ, facts, st, loops).Some?
    ensures Good(typ, RunStmt(typ, st, s, fuel), CheckStmt(typ, facts, st, loops).value, loops)
    decreases fuel, st, 1
  {
    hide CheckAssert, CheckAssign, RunAssign, CheckTerm, CheckClauses, Branches, Unify, RunIf, CheckWhile, RunWhile;
    match st
    case Assert(c, why) => AssertSound(typ, facts, c, why, s);
    case Assign(x, op, rhs) => AssignmentSound(typ, facts, x, op, rhs, s);
    case Evaluate(t) => TermSound(typ, facts, t, s);
    case Branch(n) =>
      ChainSound(typ, ds, facts, n, loops, s, fuel);
      JoinSound(typ, RunIf(typ, n, s, fuel), Branches(typ, facts, n, loops).value, loops);
    case While(_, _, _) => WhileSound(typ, ds, facts, st, loops, s, fuel);
    case Break(depth) => ClausesSound(typ, facts, loops[depth], EXIT, s);
    case Continue(depth) => ClausesSound(typ, facts, loops[depth], ENTRY, s);
    case Return(v) => if v.Some? { ReturnSound(typ, facts, v.value, s); }
  }

  lemma ReturnSound(typ: Typing, facts: Facts, t: Term, s: State)
    requires Reaches(typ, facts, s) && ReturnKept(typ, facts, Some(t))
    ensures Safe(typ, t, s)
  {
    hide CheckTerm;
    if t.Var? {
      assert Fits(typ, t, s(t.x));
    } else if CheckTerm(typ, facts, t).Some? && Narrow(t) {
      TermSound(typ, facts, t, s);
    } else if CheckTerm(typ, [], t).Some? && Narrow(t) {
      TermSound(typ, [], t, s);
    }
  }

  /** A run of a chain that falls through ends in a state of one of the branches. */
  ghost predicate GoodAtOne(typ: Typing, o: Outcome, bs: seq<Facts>, loops: seq<seq<Clause>>)
  {
    if o.Normal? then exists b :: b in bs && Reaches(typ, b, o.s) else Good(typ, o, [], loops)
  }

  lemma JoinSound(typ: Typing, o: Outcome, bs: seq<Facts>, loops: seq<seq<Clause>>)
    requires GoodAtOne(typ, o, bs, loops) && CleanJoin(bs) && Unify(bs).Some?
    ensures Good(typ, o, Unify(bs).value, loops)
  {
    hide Unify, Str;
    if o.Normal? {
      var b :| b in bs && Reaches(typ, b, o.s);
      JoinSize(bs);
      forall f | f in Unify(bs).value
        ensures Truth(f, o.s)
      {
        UnifyKeepsShared(bs, f);
        assert Stated(b, Str(f));
        var g :| g in b && Str(g) == Str(f);
        assert bs[0] in bs && CondEq(f, g);
      }
    }
  }

  lemma JoinSize(bs: seq<Facts>)
    requires Unify(bs).Some?
    ensures |bs| <= MAX_BRANCHES
  {
  }

  lemma {:induction false} ChainSound(typ: Typing, ds: set<Demand>, facts: Facts, n: If, loops: seq<seq<Clause>>, s: State, fuel: nat)
    requires Reaches(typ, facts, s) && Sound(ds)
    requires ChainMeets(typ, ds, n) && ChainClean(typ, facts, n, loops)
    requires forall cs | cs in loops :: ClausesFit(cs)
    requires Branches(typ, facts, n, loops).Some?
    ensures GoodAtOne(typ, RunIf(typ, n, s, fuel), Branches(typ, facts, n, loops).value, loops)
    decreases fuel, n, 0
  {
    hide CheckBlock, Run, Terminates, CheckCond, Meets;
    CondSound(typ, facts, n.cond, s);
    var bs := Branches(typ, facts, n, loops).value;
    if Truth(n.cond, s) {
      AppendMeans(facts, n.cond, s);
      ArmSound(typ, ds, AppendFact(facts, n.cond), n.ifTrue, loops, s, fuel, bs);
    } else {
      var otherwise := AppendFact(facts, Invert(n.cond));
      AppendMeans(facts, Invert(n.cond), s);
      if n.ifFalse != [] {
        ArmSound(typ, ds, otherwise, n.ifFalse, loops, s, fuel, bs);
      } else if n.elseIf.Some? {
        ChainSound(typ, ds, otherwise, n.elseIf.value, loops, s, fuel);
      } else {
        assert otherwise in bs;
      }
    }
  }

  lemma {:induction false} ArmSound(typ: Typing, ds: set<Demand>, facts: Facts, body: seq<Stmt>, loops: seq<seq<Clause>>,
                                    s: State, fuel: nat, bs: seq<Facts>)
    requires Reaches(typ, facts, s) && Sound(ds)
    requires Meets(typ, ds, body) && Clean(typ, facts, body, loops)
    requires forall cs | cs in loops :: ClausesFit(cs)
    requires CheckBlock(typ, facts, body, loops).Some?
    requires !Terminates(body) ==> CheckBlock(typ, facts, body, loops).value in bs
    ensures GoodAtOne(typ, Run(typ, body, s, fuel), bs, loops)
    decreases fuel, body, 1
  {
    hide CheckBlock, Run, Terminates;
    BlockSound(typ, ds, facts, body, loops, s, fuel);
    if Terminates(body) {
      TerminatesMeans(typ, body, s, fuel);
    }
  }

  lemma {:induction false} WhileSound(typ: Typing, ds: set<Demand>, facts: Facts, w: Stmt, loops: seq<seq<Clause>>,
                                      s: State, fuel: nat)
    requires w.While? && Reaches(typ, facts, s) && Sound(ds)
    requires StmtMeets(typ, ds, w) && StmtClean(typ, facts, w, loops)
    requires forall cs | cs in loops :: ClausesFit(cs)
    requires CheckWhile(typ, facts, w, loops).Some?
    ensures Good(typ, RunWhile(typ, w, s, fuel), CheckWhile(typ, facts, w, loops).value, loops)
    decreases fuel, w, 0
  {
    hide CheckClauses, CheckBlock, RunWhile, BodyFacts, Conditions;
    ClausesSound(typ, facts, w.clauses, ENTRY, s);
    LoopSound(typ, ds, w, loops, s, fuel);
  }

  /** What makes a loop safe to go round, whatever came before it. */
  ghost predicate LoopChecks(typ: Typing, ds: set<Demand>, w: Stmt, loops: seq<seq<Clause>>)
    requires w.While?
  {
    && TypingOk(typ) && Sound(ds)
    && StmtMeets(typ, ds, w) && Clean(typ, BodyFacts(w), w.body, [w.clauses] + loops)
    && (forall cs | cs in loops :: ClausesFit(cs))
    && ExitChecks(typ, w)
    && var end := CheckBlock(typ, BodyFacts(w), w.body, [w.clauses] + loops);
       end.Some? && (Terminates(w.body) || CheckClauses(typ, end.value, w.clauses, ENTRY).Some?)
  }

  /** Every iteration starts with the pre and inv conditions holding. */
  lemma {:induction false} LoopSound(typ: Typing, ds: set<Demand>, w: Stmt, loops: seq<seq<Clause>>, s: State, fuel: nat)
    requires w.While? && LoopChecks(typ, ds, w, loops)
    requires InTypes(typ, s) && AllHold(Conditions(w.clauses, ENTRY), s)
    ensures Good(typ, RunWhile(typ, w, s, fuel), Assume([], Conditions(w.clauses, EXIT)), loops)
    decreases fuel, w, -1
  {
    hide CheckClauses, CheckBlock, Terminates, Run, Conditions, Meets;
    var inner := [w.clauses] + loops;
    var o := RunWhile(typ, w, s, fuel);
    GuardSafe(typ, w, s);
    if w.guard.When? && !Truth(w.guard.cond, s) {
      LoopExit(typ, w, s);
    } else if fuel != 0 {
      BodyEntry(w, s);
      BlockSound(typ, ds, BodyFacts(w), w.body, inner, s, fuel - 1);
      var p, end := Run(typ, w.body, s, fuel - 1), CheckBlock(typ, BodyFacts(w), w.body, inner).value;
      match p
      case Normal(s') =>
        if Terminates(w.body) { TerminatesMeans(typ, w.body, s, fuel - 1); }
        ClausesSound(typ, end, w.clauses, ENTRY, s');
        LoopSound(typ, ds, w, loops, s', fuel - 1);
      case Continued(depth, s') =>
        if depth == 0 {
          LoopSound(typ, ds, w, loops, s', fuel - 1);
        } else {
          assert inner[depth] == loops[depth - 1];
        }
      case Broke(depth, s') =>
        if depth == 0 {
          AssumeMeans([], Conditions(w.clauses, EXIT), s');
        } else {
          assert inner[depth] == loops[depth - 1];
        }
      case _ =>
    }
  }

  lemma GuardSafe(typ: Typing, w: Stmt, s: State)
    requires w.While? && TypingOk(typ) && InTypes(typ, s) && GuardKept(typ, w.guard, w.clauses)
    requires AllHold(Conditions(w.clauses, ENTRY), s)
    ensures w.guard.When? ==> SafeCond(typ, w.guard.cond, s)
  {
    hide Conditions, CheckCond, NarrowCond;
    if w.guard.When? && Plain(w.guard.cond) {
      PlainIsSafe(typ, w.guard.cond, s);
    } else if w.guard.When? {
      AssumeMeans([], Conditions(w.clauses, ENTRY), s);
      CondSound(typ, Assume([], Conditions(w.clauses, ENTRY)), w.guard.cond, s);
    }
  }

  lemma BodyEntry(w: Stmt, s: State)
    requires w.While? && AllHold(Conditions(w.clauses, ENTRY), s)
    requires w.guard.When? ==> Truth(w.guard.cond, s)
    ensures AllHold(BodyFacts(w), s)
  {
    hide Conditions;
    var f := Assume([], Conditions(w.clauses, ENTRY));
    AssumeMeans([], Conditions(w.clauses, ENTRY), s);
    if w.guard.When? {
      AppendMeans(f, w.guard.cond, s);
    }
  }

  lemma LoopExit(typ: Typing, w: Stmt, s: State)
    requires w.While? && TypingOk(typ) && InTypes(typ, s) && ClausesFit(w.clauses) && ExitChecks(typ, w)
    requires AllHold(Conditions(w.clauses, ENTRY), s) && w.guard.When? && !Truth(w.guard.cond, s)
    ensures AllHold(Conditions(w.clauses, {Post}), s)
    ensures AllHold(Assume([], Conditions(w.clauses, EXIT)), s)
  {
    hide CheckClauses;
    var f := Assume([], Conditions(w.clauses, ENTRY));
    AssumeMeans([], Conditions(w.clauses, ENTRY), s);
    AppendMeans(f, Invert(w.guard.cond), s);
    ClausesSound(typ, AppendFact(f, Invert(w.guard.cond)), w.clauses, {Post}, s);
    ExitConditions(w.clauses);
    AssumeMeans([], Conditions(w.clauses, EXIT), s);
  }

  lemma {:induction false} ExitConditions(cs: seq<Clause>)
    ensures forall c | c in Conditions(cs, EXIT) :: c in Conditions(cs, ENTRY) || c in Conditions(cs, {Post})
  {
    if cs != [] {
      ExitConditions(cs[1..]);
    }
  }

  // ---------------- Programs whose joins are clean

  predicate FactLegible(lex: Lexicon, h: nat, f: Cond)
  {
    LegibleCond(lex, f) && Height(CondTree(f)) <= h
  }

  /** The conditions and assigned expressions can be read back from their text, and are at most h high. */
  predicate BlockLegible(lex: Lexicon, h: nat, block: seq<Stmt>)
    decreases block
  {
    forall i | 0 <= i < |block| :: StmtLegible(lex, h, block[i])
  }

  predicate StmtLegible(lex: Lexicon, h: nat, st: Stmt)
    decreases st
  {
    match st
    case Assert(c, _) => FactLegible(lex, h, c)
    case Assign(x, _, rhs) => FactLegible(lex, h, Cmp(EqEq, Var(x), rhs))
    case Branch(n) => ChainLegible(lex, h, n)
    case While(g, cs, body) =>
      && (g.When? ==> FactLegible(lex, h, g.cond))
      && (forall c | c in cs :: FactLegible(lex, h, c.cond))
      && BlockLegible(lex, h, body)
    case _ => true
  }

  predicate ChainLegible(lex: Lexicon, h: nat, n: If)
    decreases n
  {
    && FactLegible(lex, h, n.cond) && BlockLegible(lex, h, n.ifTrue) && BlockLegible(lex, h, n.ifFalse)
    && (n.elseIf.Some? ==> ChainLegible(lex, h, n.elseIf.value))
  }

  /** How many statements there are that make facts higher. */
  function Growth(block: seq<Stmt>): nat
    decreases block
  {
    if block == [] then 0 else StmtGrowth(block[0]) + Growth(block[1..])
  }

  function StmtGrowth(st: Stmt): nat
    decreases st
  {
    match st
    case Assign(_, op, _) => if op.Some? && Tracked(op) then 1 else 0
    case Branch(n) => ChainGrowth(n)
    case While(_, _, body) => Growth(body)
    case _ => 0
  }

  function ChainGrowth(n: If): nat
    decreases n
  {
    Growth(n.ifTrue) + Growth(n.ifFalse) + match n.elseIf case None => 0 case Some(m) => ChainGrowth(m)
  }

  /** Lists of different facts, each legible and at most h high. */
  ghost predicate FactsLegible(lex: Lexicon, h: nat, facts: Facts)
  {
    Distinct(facts) && forall f | f in facts :: FactLegible(lex, h, f)
  }

  lemma {:induction false} AppendLegible(lex: Lexicon, h: nat, facts: Facts, f: Cond)
    requires FactsLegible(lex, h, facts) && FactLegible(lex, h, f)
    ensures FactsLegible(lex, h, AppendFact(facts, f))
    decreases f
  {
    hide Known, Distinct;
    AppendDistinct(facts, f);
    if !Known(facts, f) && f.And? {
      AppendLegible(lex, h, facts, f.c);
      AppendLegible(lex, h, AppendFact(facts, f.c), f.d);
    }
  }

  lemma {:induction false} InvertLegible(lex: Lexicon, h: nat, c: Cond)
    requires FactLegible(lex, h, c)
    ensures FactLegible(lex, h, Invert(c))
    decreases c
  {
    match c
    case Cmp(_, _, _) =>
    case And(d, e) =>
      InvertLegible(lex, h - 1, d);
      InvertLegible(lex, h - 1, e);
    case Or(d, e) =>
      InvertLegible(lex, h - 1, d);
      InvertLegible(lex, h - 1, e);
    case Not(_) =>
  }

  lemma SimplifyTermLegible(lex: Lexicon, t: Term)
    requires LexiconOk(lex) && Legible(lex, t) && SimplifyTerm(t).Some?
    ensures Legible(lex, SimplifyTerm(t).value)
    ensures Height(TermTree(SimplifyTerm(t).value)) <= Height(TermTree(t))
  {
    hide LexiconOk;
    match t
    case Bin(op, l, r) =>
      DecimalLegible(lex, 0);
      if l.Const? && r.Const? && Fold(op, l.v, r.v).Some? {
        DecimalLegible(lex, Fold(op, l.v, r.v).value);
      }
    case _ =>
  }

  lemma SimplifyLegible(lex: Lexicon, h: nat, c: Cond)
    requires LexiconOk(lex) && FactLegible(lex, h, c) && Simplify(c).Some?
    ensures FactLegible(lex, h, Simplify(c).value)
  {
    hide SimplifyTerm, LexiconOk, Legible;
    if c.Cmp? {
      SimplifyTermLegible(lex, c.lhs);
      SimplifyTermLegible(lex, c.rhs);
    }
  }

  lemma {:induction false} AssumeLegible(lex: Lexicon, h: nat, facts: Facts, cs: seq<Cond>)
    requires FactsLegible(lex, h, facts) && forall c | c in cs :: FactLegible(lex, h, c)
    ensures FactsLegible(lex, h, Assume(facts, cs))
    decreases cs
  {
    hide FactsLegible, FactLegible;
    if cs != [] {
      AppendLegible(lex, h, facts, cs[0]);
      AssumeLegible(lex, h, AppendFact(facts, cs[0]), cs[1..]);
    }
  }

  lemma {:induction false} ConditionsLegible(lex: Lexicon, h: nat, cs: seq<Clause>, kinds: set<Kind>)
    requires forall c | c in cs :: FactLegible(lex, h, c.cond)
    ensures forall c | c in Conditions(cs, kinds) :: FactLegible(lex, h, c)
  {
    hide FactLegible;
    if cs != [] {
      ConditionsLegible(lex, h, cs[1..], kinds);
    }
  }

  lemma ClausesLegible(lex: Lexicon, h: nat, cs: seq<Clause>, kinds: set<Kind>)
    requires forall c | c in cs :: FactLegible(lex, h, c.cond)
    ensures FactsLegible(lex, h, Assume([], Conditions(cs, kinds)))
  {
    hide FactLegible;
    ConditionsLegible(lex, h, cs, kinds);
    AssumeLegible(lex, h, [], Conditions(cs, kinds));
  }

  lemma MovedLegible(lex: Lexicon, h: nat, x: string, op: Arith, rhs: Term, e: Cond)
    requires LexiconOk(lex) && FactLegible(lex, h, e) && FactLegible(lex, h, Cmp(EqEq, Var(x), rhs))
    requires Move(op, x, rhs, e).Some?
    ensures FactLegible(lex, h + if Tracked(Some(op)) then 1 else 0, Move(op, x, rhs, e).value)
  {
    hide LexiconOk;
    if e.Cmp? && e.lhs == Var(x) && op in {Plus, Minus} {
      SimplifyTermLegible(lex, Bin(op, e.rhs, rhs));
    }
  }

  lemma AssignLegible(lex: Lexicon, h: nat, facts: Facts, x: string, op: Option<Arith>, rhs: Term)
    requires LexiconOk(lex) && FactsLegible(lex, h, facts) && op != Some(Minus)
    requires FactLegible(lex, h, Cmp(EqEq, Var(x), rhs))
    ensures FactsLegible(lex, h + if op.Some? && Tracked(op) then 1 else 0, AfterAssign(facts, x, op, rhs))
  {
    hide FactLegible, Distinct, LexiconOk;
    AssignDistinct(facts, x, op, rhs);
    match op
    case None =>
      var kept := Updated(facts, Unless(x));
      UpdatedDistinct(facts, Unless(x));
      forall f | f in kept
        ensures FactLegible(lex, h, f)
      {
        UpdatedAt(facts, Unless(x), f);
      }
      AppendLegible(lex, h, kept, Cmp(EqEq, Var(x), rhs));
    case Some(o) =>
      forall f | f in AfterAssign(facts, x, op, rhs)
        ensures FactLegible(lex, h + if Tracked(op) then 1 else 0, f)
      {
        UpdatedAt(facts, Moved(o, x, rhs), f);
        var e :| e in facts && Moved(o, x, rhs)(e) == Some(f);
        MovedLegible(lex, h, x, o, rhs, e);
      }
  }

  /** Facts of two such lists with the same text are equal. */
  lemma LegibleTexts(lex: Lexicon, h: nat, b: Facts, c: Facts)
    requires h <= MAX_EXPR_DEPTH && FactsLegible(lex, h, b) && FactsLegible(lex, h, c)
    ensures forall f, g | f in b && g in c && Str(f) == Str(g) :: CondEq(f, g)
  {
    hide Str, CondEq, Distinct, LegibleCond;
    forall f, g | f in b && g in c && Str(f) == Str(g)
      ensures CondEq(f, g)
    {
      AlikeMeansEqual(lex, f, g);
    }
  }

  lemma LegibleNoRepeats(lex: Lexicon, h: nat, b: Facts)
    requires h <= MAX_EXPR_DEPTH && FactsLegible(lex, h, b)
    ensures NoRepeats(b)
  {
    LegibleTexts(lex, h, b, b);
    hide Str, CondEq, FactLegible;
    forall i, j | 0 <= i < j < |b|
      ensures Str(b[i]) != Str(b[j])
    {
      assert b[i] in b && b[j] in b && !CondEq(b[i], b[j]);
    }
  }

  lemma LegibleIsClean(lex: Lexicon, h: nat, bs: seq<Facts>)
    requires h <= MAX_EXPR_DEPTH && forall b | b in bs :: FactsLegible(lex, h, b)
    ensures CleanJoin(bs)
  {
    hide Str, CondEq, FactsLegible, NoRepeats;
    forall b | b in bs
      ensures NoRepeats(b)
    {
      LegibleNoRepeats(lex, h, b);
    }
    forall b, c, f, g | b in bs && c in bs && f in b && g in c && Str(f) == Str(g)
      ensures CondEq(f, g)
    {
      LegibleTexts(lex, h, b, c);
    }
  }

  lemma UnifyLegible(lex: Lexicon, h: nat, bs: seq<Facts>)
    requires (forall b | b in bs :: FactsLegible(lex, h, b)) && Unify(bs).Some?
    ensures FactsLegible(lex, h, Unify(bs).value)
  {
    hide Str, FactLegible;
    if bs != [] {
      assert bs[0] in bs;
      UpdatedDistinct(bs[0], Common(bs));
      forall f | f in Updated(bs[0], Common(bs))
        ensures f in bs[0]
      {
        UpdatedAt(bs[0], Common(bs), f);
      }
    }
  }

  lemma Higher(lex: Lexicon, h: nat, h': nat, facts: Facts)
    requires FactsLegible(lex, h, facts) && h <= h'
    ensures FactsLegible(lex, h', facts)
  {
    hide Distinct;
  }

  predicate Tame(ds: set<Demand>) { NoSubtraction in ds && ReturnsKept in ds }

  /** Without `-=` and with legible expressions, facts never repeat a text and facts with one text are
      equal, so all joins are clean. */
  lemma {:induction false} LegibleJoins(lex: Lexicon, h0: nat, h: nat, typ: Typing, ds: set<Demand>, facts: Facts,
                                        block: seq<Stmt>, loops: seq<seq<Clause>>)
    requires LexiconOk(lex) && FactsLegible(lex, h, facts) && h0 <= h && h + Growth(block) <= MAX_EXPR_DEPTH
    requires BlockLegible(lex, h0, block) && Tame(ds) && Meets(typ, ds, block)
    ensures Clean(typ, facts, block, loops)
    ensures CheckBlock(typ, facts, block, loops).Some? ==>
              FactsLegible(lex, h + Growth(block), CheckBlock(typ, facts, block, loops).value)
    decreases block, 0
  {
    hide CheckStmt, FactsLegible, LexiconOk, StmtLegible;
    if block != [] {
      StmtJoins(lex, h0, h, typ, ds, facts, block[0], loops);
      if CheckStmt(typ, facts, block[0], loops).Some? {
        var f, h' := CheckStmt(typ, facts, block[0], loops).value, h + StmtGrowth(block[0]);
        Higher(lex, h', h + Growth(block), f);
        if !Leaves(block[0]) {
          LegibleJoins(lex, h0, h', typ, ds, f, block[1..], loops);
        }
      }
    }
  }

  lemma {:induction false} StmtJoins(lex: Lexicon, h0: nat, h: nat, typ: Typing, ds: set<Demand>, facts: Facts,
                                     st: Stmt, loops: seq<seq<Clause>>)
    requires LexiconOk(lex) && FactsLegible(lex, h, facts) && h0 <= h && h + StmtGrowth(st) <= MAX_EXPR_DEPTH
    requires StmtLegible(lex, h0, st) && Tame(ds) && StmtMeets(typ, ds, st)
    ensures StmtClean(typ, facts, st, loops)
    ensures CheckStmt(typ, facts, st, loops).Some? ==>
              FactsLegible(lex, h + StmtGrowth(st), CheckStmt(typ, facts, st, loops).value)
    decreases st
  {
    hide Branches, Unify, CheckBlock, CheckClauses, Shows, CheckTerm, CheckBinary, AfterAssign, FactsLegible, LexiconOk,
      Known, CleanJoin;
    match st
    case Assert(c, _) =>
      if Simplify(c).Some? {
        SimplifyLegible(lex, h, c);
        AppendLegible(lex, h, facts, Simplify(c).value);
      }
    case Assign(x, op, rhs) => AssignLegible(lex, h, facts, x, op, rhs);
    case Branch(n) =>
      ChainJoins(lex, h0, h, typ, ds, facts, n, loops);
      if Branches(typ, facts, n, loops).Some? {
        LegibleIsClean(lex, h + ChainGrowth(n), Branches(typ, facts, n, loops).value);
        if CheckStmt(typ, facts, st, loops).Some? {
          UnifyLegible(lex, h + ChainGrowth(n), Branches(typ, facts, n, loops).value);
        }
      }
    case While(g, cs, body) => LoopJoins(lex, h0, h, typ, ds, st, loops);
    case _ => NoneLegible(lex, h);
  }

  lemma NoneLegible(lex: Lexicon, h: nat)
    ensures FactsLegible(lex, h, [])
  {
  }

  lemma {:induction false} LoopJoins(lex: Lexicon, h0: nat, h: nat, typ: Typing, ds: set<Demand>, w: Stmt, loops: seq<seq<Clause>>)
    requires LexiconOk(lex) && h0 <= h && w.While? && h + StmtGrowth(w) <= MAX_EXPR_DEPTH
    requires StmtLegible(lex, h0, w) && Tame(ds) && StmtMeets(typ, ds, w)
    ensures Clean(typ, BodyFacts(w), w.body, [w.clauses] + loops)
    ensures FactsLegible(lex, h + StmtGrowth(w), Assume([], Conditions(w.clauses, EXIT)))
    decreases w, 0
  {
    hide FactsLegible, FactLegible, LexiconOk, CheckBlock;
    ClausesLegible(lex, h0, w.clauses, ENTRY);
    ClausesLegible(lex, h0, w.clauses, EXIT);
    Higher(lex, h0, h + StmtGrowth(w), Assume([], Conditions(w.clauses, EXIT)));
    if w.guard.When? {
      AppendLegible(lex, h0, Assume([], Conditions(w.clauses, ENTRY)), w.guard.cond);
    }
    LegibleJoins(lex, h0, h0, typ, ds, BodyFacts(w), w.body, [w.clauses] + loops);
  }

  lemma {:induction false} ChainJoins(lex: Lexicon, h0: nat, h: nat, typ: Typing, ds: set<Demand>, facts: Facts,
                                      n: If, loops: seq<seq<Clause>>)
    requires LexiconOk(lex) && FactsLegible(lex, h, facts) && h0 <= h && h + ChainGrowth(n) <= MAX_EXPR_DEPTH
    requires ChainLegible(lex, h0, n) && Tame(ds) && ChainMeets(typ, ds, n)
    ensures ChainClean(typ, facts, n, loops)
    ensures Branches(typ, facts, n, loops).Some? ==>
              forall b | b in Branches(typ, facts, n, loops).value :: FactsLegible(lex, h + ChainGrowth(n), b)
    decreases n
  {
    hide CheckBlock, FactsLegible, CheckCond, LexiconOk, BlockLegible, FactLegible, Terminates, Meets, Clean;
    var yes, otherwise, g := AppendFact(facts, n.cond), AppendFact(facts, Invert(n.cond)), ChainGrowth(n);
    CondLegible(lex, h0, h, facts, n.cond);
    ArmJoins(lex, h0, h, h + g, typ, ds, yes, n.ifTrue, loops);
    ArmJoins(lex, h0, h, h + g, typ, ds, otherwise, n.ifFalse, loops);
    Higher(lex, h, h + g, otherwise);
    if n.elseIf.Some? {
      ChainJoins(lex, h0, h, typ, ds, otherwise, n.elseIf.value, loops);
      ElseJoins(lex, h + ChainGrowth(n.elseIf.value), h + g, Branches(typ, otherwise, n.elseIf.value, loops));
    }
  }

  lemma {:induction false} ArmJoins(lex: Lexicon, h0: nat, h: nat, h': nat, typ: Typing, ds: set<Demand>, facts: Facts,
                                    body: seq<Stmt>, loops: seq<seq<Clause>>)
    requires LexiconOk(lex) && FactsLegible(lex, h, facts) && h0 <= h && h + Growth(body) <= h' <= MAX_EXPR_DEPTH
    requires BlockLegible(lex, h0, body) && Tame(ds) && Meets(typ, ds, body)
    ensures Clean(typ, facts, body, loops)
    ensures CheckBlock(typ, facts, body, loops).Some? ==> FactsLegible(lex, h', CheckBlock(typ, facts, body, loops).value)
    decreases body, 1
  {
    hide CheckBlock, FactsLegible, LexiconOk, BlockLegible, Meets, Clean;
    LegibleJoins(lex, h0, h, typ, ds, facts, body, loops);
    if CheckBlock(typ, facts, body, loops).Some? {
      Higher(lex, h + Growth(body), h', CheckBlock(typ, facts, body, loops).value);
    }
  }

  lemma ElseJoins(lex: Lexicon, h: nat, h': nat, bs: Option<seq<Facts>>)
    requires h <= h' && (bs.Some? ==> forall b | b in bs.value :: FactsLegible(lex, h, b))
    ensures bs.Some? ==> forall b | b in bs.value :: FactsLegible(lex, h', b)
  {
    hide FactsLegible;
    if bs.Some? {
      forall b | b in bs.value
        ensures FactsLegible(lex, h', b)
      {
        Higher(lex, h, h', b);
      }
    }
  }

  lemma CondLegible(lex: Lexicon, h0: nat, h: nat, facts: Facts, c: Cond)
    requires FactsLegible(lex, h, facts) && h0 <= h && FactLegible(lex, h0, c)
    ensures FactsLegible(lex, h, AppendFact(facts, c)) && FactsLegible(lex, h, AppendFact(facts, Invert(c)))
  {
    hide FactsLegible;
    InvertLegible(lex, h0, c);
    AppendLegible(lex, h, facts, c);
    AppendLegible(lex, h, facts, Invert(c));
  }

  /** Soundness for whole function bodies, with conditions that can be read off the program: no run
      from any state of the variables' types fails, and none escapes its loops. */
  lemma ProgramSound(lex: Lexicon, h: nat, typ: Typing, block: seq<Stmt>, s: State, fuel: nat)
    requires TypingOk(typ) && InTypes(typ, s)
    requires Meets(typ, ALL, block)
    requires LexiconOk(lex) && BlockLegible(lex, h, block) && h + Growth(block) <= MAX_EXPR_DEPTH
    requires CheckBlock(typ, [], block, []).Some?
    ensures var o := Run(typ, block, s, fuel);
            && !o.Failed? && !o.Broke? && !o.Continued?
            && (o.Normal? ==> InTypes(typ, o.s) && AllHold(CheckBlock(typ, [], block, []).value, o.s))
  {
    LegibleJoins(lex, h, h, typ, ALL, [], block, []);
    BlockSound(typ, ALL, [], block, [], s, fuel);
  }
}
