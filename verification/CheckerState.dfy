/** The checker as the code runs it: one object whose facts every statement changes in place
    (the checker methods of lang/check/bounds.go and the facts methods of lang/check/assert.go).

    Each method is proved to accept what the functions of the module Checker accept and to leave
    their facts behind, so that what is proved about those functions holds of a run of the object. */
module CheckerState {
  import opened Options
  import opened Programs
  import opened Rendering
  import F = Facts
  import R = Ranges
  import C = Checker

  /** What Branches yields once the arms done so far are put in front. */
  function Behind(done: seq<F.Facts>, rest: Option<seq<F.Facts>>): Option<seq<F.Facts>>
  {
    if rest.None? then None else Some(done + rest.value)
  }

  lemma BehindBoth(done: seq<F.Facts>, arm: seq<F.Facts>, rest: Option<seq<F.Facts>>)
    ensures Behind(done, Behind(arm, rest)) == Behind(done + arm, rest)
  {
    if rest.Some? {
      assert done + (arm + rest.value) == done + arm + rest.value;
    }
  }

  function Counted(m: map<string, nat>, text: string): nat { if text in m then m[text] else 0 }

  lemma {:induction false} TallySnoc(bs: seq<F.Facts>, b: F.Facts, text: string)
    ensures C.Tally(bs + [b], text) == C.Tally(bs, text) + multiset(C.Texts(b))[text]
  {
    hide C.Texts;
    if bs == [] {
      assert [] + [b] == [b];
    } else {
      TallySnoc(bs[1..], b, text);
      assert (bs + [b])[1..] == bs[1..] + [b];
    }
  }

  lemma UpdatedStep(fs: F.Facts, g: Cond -> Option<Cond>, k: nat)
    requires k <= |fs|
    ensures F.Updated(fs[k..], g) ==
            if k == |fs| then [] else (match g(fs[k]) case None => [] case Some(f) => [f]) + F.Updated(fs[k + 1..], g)
  {
    if k < |fs| {
      assert fs[k..][0] == fs[k] && fs[k..][1..] == fs[k + 1..];
    }
  }

  /** The tally of all texts that unify makes. */
  method Count(branches: seq<F.Facts>) returns (m: map<string, nat>)
    ensures forall text :: Counted(m, text) == C.Tally(branches, text)
  {
    m := map[];
    for i := 0 to |branches|
      invariant forall text :: Counted(m, text) == C.Tally(branches[..i], text)
    {
      var b := branches[i];
      assert branches[..i + 1] == branches[..i] + [b];
      ghost var before, texts := m, C.Texts(b);
      for j := 0 to |b|
        invariant forall text :: Counted(m, text) == Counted(before, text) + multiset(texts[..j])[text]
      {
        assert texts[..j + 1] == texts[..j] + [Str(b[j])];
        m := m[Str(b[j]) := Counted(m, Str(b[j])) + 1];
      }
      assert texts[..|b|] == texts;
      forall text
        ensures C.Tally(branches[..i + 1], text) == C.Tally(branches[..i], text) + multiset(texts)[text]
      {
        TallySnoc(branches[..i], b, text);
      }
    }
    assert branches[..|branches|] == branches;
  }

  class Checker {
    const typ: Typing
    var facts: F.Facts

    constructor (typ: Typing)
      ensures this.typ == typ && facts == []
    {
      this.typ := typ;
      facts := [];
    }

    method AppendFact(f: Cond)
      modifies this
      ensures facts == F.AppendFact(old(facts), f)
      decreases f
    {
      for i := 0 to |facts|
        invariant facts == old(facts) && !F.Known(facts[..i], f)
      {
        assert facts[..i + 1] == facts[..i] + [facts[i]];
        if CondEq(facts[i], f) {
          return;
        }
      }
      assert facts[..|facts|] == facts;
      if f.And? {
        AppendFact(f.c);
        AppendFact(f.d);
        return;
      }
      facts := facts + [f];
    }

    /** Compacts the list in place: the first i elements are the new list. */
    method Update(g: Cond -> Option<Cond>)
      modifies this
      ensures facts == F.Updated(old(facts), g)
    {
      hide F.Updated;
      var i := 0;
      assert old(facts)[0..] == old(facts);
      for k := 0 to |facts|
        invariant 0 <= i <= k && |facts| == |old(facts)| && facts[k..] == old(facts)[k..]
        invariant F.Updated(old(facts), g) == facts[..i] + F.Updated(old(facts)[k..], g)
      {
        assert facts[k] == facts[k..][0] == old(facts)[k];
        UpdatedStep(old(facts), g, k);
        assert facts[k + 1..] == facts[k..][1..] == old(facts)[k + 1..];
        match g(facts[k])
        case None =>
        case Some(f) =>
          ghost var before := facts[..i];
          facts := facts[i := f];
          i := i + 1;
          assert facts[..i] == before + [f];
      }
      UpdatedStep(old(facts), g, |facts|);
      facts := facts[..i];
    }

    /** The search through the ranges and then the facts. */
    method Prove(rel: Relation, l: Term, r: Term) returns (ok: bool)
      ensures ok <==> R.Proves(typ, facts, rel, l, r)
    {
      hide R.CheckTerm, R.ProvedByRanges, R.Implies, Compare, Eq;
      if l.Const? {
        var rr := R.CheckTerm(typ, facts, r);
        if rr.None? {
          return false;
        }
        if R.ProvedByRanges(rel, Range(l.v, l.v), rr.value) {
          return true;
        }
      }
      if r.Const? {
        var lr := R.CheckTerm(typ, facts, l);
        if lr.None? {
          return false;
        }
        if R.ProvedByRanges(rel, lr.value, Range(r.v, r.v)) {
          return true;
        }
      }
      for i := 0 to |facts|
        invariant R.ProvedByFacts(facts, rel, l, r) == R.ProvedByFacts(facts[i..], rel, l, r)
      {
        var f := facts[i];
        assert facts[i..][0] == f && facts[i..][1..] == facts[i + 1..];
        if f.Cmp? && Eq(f.lhs, l) {
          if R.Implies(f.rel, rel) && Eq(f.rhs, r) {
            return true;
          }
          if f.rel == EqEq && r.Const? && f.rhs.Const? {
            return Compare(rel, f.rhs.v, r.v);
          }
        }
      }
      return false;
    }

    method Assert(c: Cond, why: Option<Reason>) returns (ok: bool)
      modifies this
      ensures C.CheckAssert(typ, old(facts), c, why) == if ok then Some(facts) else None
    {
      for i := 0 to |facts|
        invariant facts == old(facts) && !F.Known(facts[..i], c)
      {
        assert facts[..i + 1] == facts[..i] + [facts[i]];
        if CondEq(facts[i], c) {
          return true;
        }
      }
      assert facts[..|facts|] == facts;
      ok := false;
      match why {
        case None => if c.Cmp? { ok := Prove(c.rel, c.lhs, c.rhs); }
        case Some(w) =>
          var due := R.Requirements(w, c);
          if due.Some? {
            ok := true;
            for i := 0 to |due.value|
              invariant ok <==> R.ProvesAll(typ, facts, due.value[..i])
              invariant facts == old(facts)
            {
              assert due.value[..i + 1] == due.value[..i] + [due.value[i]];
              var d := due.value[i];
              if ok {
                ok := d.Cmp?;
                if ok {
                  ok := Prove(d.rel, d.lhs, d.rhs);
                }
              }
            }
            assert due.value[..|due.value|] == due.value;
          }
      }
      if ok {
        var o := F.Simplify(c);
        if o.None? {
          return false;
        }
        AppendFact(o.value);
      }
    }

    method Clauses(cs: seq<Clause>, kinds: set<Kind>) returns (ok: bool)
      modifies this
      ensures C.CheckClauses(typ, old(facts), cs, kinds) == if ok then Some(facts) else None
    {
      for i := 0 to |cs|
        invariant C.CheckClauses(typ, old(facts), cs, kinds) == C.CheckClauses(typ, facts, cs[i..], kinds)
      {
        assert cs[i..][0] == cs[i] && cs[i..][1..] == cs[i + 1..];
        if cs[i].kind in kinds {
          ok := Assert(cs[i].cond, cs[i].why);
          if !ok {
            return false;
          }
        }
      }
      return true;
    }

    /** Starts over from the clauses of the given kinds. */
    method Assume(cs: seq<Clause>, kinds: set<Kind>)
      modifies this
      ensures facts == C.Assume([], Conditions(cs, kinds))
    {
      facts := [];
      for i := 0 to |cs|
        invariant C.Assume([], Conditions(cs, kinds)) == C.Assume(facts, Conditions(cs[i..], kinds))
      {
        ghost var all := Conditions(cs[i..], kinds);
        assert cs[i..][0] == cs[i] && cs[i..][1..] == cs[i + 1..];
        if cs[i].kind in kinds {
          assert all[0] == cs[i].cond && all[1..] == Conditions(cs[i + 1..], kinds);
          AppendFact(cs[i].cond);
        } else {
          assert all == Conditions(cs[i + 1..], kinds);
        }
      }
    }

    method Assign(x: string, op: Option<Arith>, rhs: Term) returns (ok: bool)
      modifies this
      ensures C.CheckAssign(typ, old(facts), x, op, rhs) == if ok then Some(facts) else None
    {
      if R.CheckTerm(typ, facts, Var(x)).None? {
        return false;
      }
      var r: Option<Range>;
      if op.Some? {
        r := R.CheckBinary(typ, facts, op.value, Var(x), rhs);
      } else if rhs.Const? {
        r := Some(Range(rhs.v, rhs.v));
      } else {
        r := R.CheckTerm(typ, facts, rhs);
      }
      if r.None? || (typ(Var(x)).Some? && !r.value.Within(typ(Var(x)).value)) {
        return false;
      }
      if op.None? {
        Update(F.Unless(x));
        AppendFact(Cmp(EqEq, Var(x), rhs));
      } else {
        Update(F.Moved(op.value, x, rhs));
      }
      return true;
    }

    method Unify(branches: seq<F.Facts>) returns (ok: bool)
      modifies this
      ensures C.Unify(branches) == if ok then Some(facts) else None
    {
      facts := [];
      if branches == [] {
        return true;
      }
      facts := branches[0];
      if |branches| == 1 {
        return true;
      }
      if |branches| > C.MAX_BRANCHES {
        return false;
      }
      var m := Count(branches);
      var g := (f: Cond) => if Counted(m, Str(f)) == |branches| then Some(f) else None;
      Update(g);
      UpdatedSame(branches[0], g, C.Common(branches));
      return true;
    }

    /** What follows a jump or a return in its block is not looked at. */
    method Block(block: seq<Stmt>, loops: seq<seq<Clause>>) returns (ok: bool)
      modifies this
      ensures C.CheckBlock(typ, old(facts), block, loops) == if ok then Some(facts) else None
      decreases block, 0
    {
      for i := 0 to |block|
        invariant C.CheckBlock(typ, old(facts), block, loops) == C.CheckBlock(typ, facts, block[i..], loops)
      {
        assert block[i..][0] == block[i] && block[i..][1..] == block[i + 1..];
        ok := Statement(block[i], loops);
        if !ok {
          return false;
        }
        if C.Leaves(block[i]) {
          return true;
        }
      }
      return true;
    }

    method Statement(st: Stmt, loops: seq<seq<Clause>>) returns (ok: bool)
      modifies this
      ensures C.CheckStmt(typ, old(facts), st, loops) == if ok then Some(facts) else None
      decreases st, 1
    {
      match st
      case Assert(c, why) => ok := Assert(c, why);
      case Assign(x, op, rhs) => ok := Assign(x, op, rhs);
      case Evaluate(t) => ok := R.CheckTerm(typ, facts, t).Some?;
      case Branch(n) => ok := Chain(n, loops);
      case While(_, _, _) => ok := Loop(st, loops);
      case Break(depth) => ok := Jump(depth, EXIT, loops);
      case Continue(depth) => ok := Jump(depth, ENTRY, loops);
      case Return(_) => ok := true;
    }

    method Jump(depth: nat, kinds: set<Kind>, loops: seq<seq<Clause>>) returns (ok: bool)
      modifies this
      ensures ok <==> depth < |loops| && C.CheckClauses(typ, old(facts), loops[depth], kinds).Some?
      ensures ok ==> facts == []
    {
      if depth >= |loops| {
        return false;
      }
      ok := Clauses(loops[depth], kinds);
      facts := [];
    }

    method Chain(chain: If, loops: seq<seq<Clause>>) returns (ok: bool)
      modifies this
      ensures C.CheckStmt(typ, old(facts), Branch(chain), loops) == if ok then Some(facts) else None
      decreases chain, 0
    {
      var n, branches: seq<F.Facts> := chain, [];
      ghost var all := C.Branches(typ, facts, chain, loops);
      assert all.Some? ==> [] + all.value == all.value;
      while true
        invariant n == chain || n < chain
        invariant all == Behind(branches, C.Branches(typ, facts, n, loops))
        decreases n
      {
        var snap := facts;
        ghost var done := branches;
        if !R.CheckCond(typ, facts, n.cond) {
          return false;
        }
        AppendFact(n.cond);
        ok := Block(n.ifTrue, loops);
        if !ok {
          return false;
        }
        ghost var arm := if C.Terminates(n.ifTrue) then [] else [facts];
        if !C.Terminates(n.ifTrue) {
          branches := branches + [facts];
        }
        assert branches == done + arm;
        facts := snap;
        AppendFact(F.Invert(n.cond));
        if n.ifFalse != [] {
          ok := Block(n.ifFalse, loops);
          if !ok {
            return false;
          }
          if !C.Terminates(n.ifFalse) {
            branches := branches + [facts];
          }
          ghost var last := if C.Terminates(n.ifFalse) then [] else [facts];
          BehindBoth(done, arm, Some(last));
          assert branches == done + arm + last;
          break;
        }
        match n.elseIf
        case None =>
          BehindBoth(done, arm, Some([facts]));
          branches := branches + [facts];
          break;
        case Some(m) =>
          BehindBoth(done, arm, C.Branches(typ, facts, m, loops));
          n := m;
      }
      assert all == Some(branches);
      ok := Unify(branches);
    }

    method Loop(w: Stmt, loops: seq<seq<Clause>>) returns (ok: bool)
      requires w.While?
      modifies this
      ensures C.CheckWhile(typ, old(facts), w, loops) == if ok then Some(facts) else None
      decreases w, 0
    {
      ok := Clauses(w.clauses, ENTRY);
      if !ok || !C.GuardChecks(typ, facts, w.guard) {
        return false;
      }
      if w.guard.When? {
        Assume(w.clauses, ENTRY);
        AppendFact(F.Invert(w.guard.cond));
        ok := Clauses(w.clauses, {Post});
        if !ok {
          return false;
        }
      }
      Assume(w.clauses, ENTRY);
      if w.guard.When? {
        AppendFact(w.guard.cond);
      }
      ok := Block(w.body, [w.clauses] + loops);
      if !ok {
        return false;
      }
      if !C.Terminates(w.body) {
        ok := Clauses(w.clauses, ENTRY);
        if !ok {
          return false;
        }
      }
      Assume(w.clauses, EXIT);
      return true;
    }
  }

  lemma {:induction false} UpdatedSame(fs: F.Facts, g: Cond -> Option<Cond>, h: Cond -> Option<Cond>)
    requires forall f :: g(f) == h(f)
    ensures F.Updated(fs, g) == F.Updated(fs, h)
  {
    if fs != [] {
      UpdatedSame(fs[1..], g, h);
    }
  }

  /** A checker that accepts a body has shown that no run of it fails. */
  method CheckBody(typ: Typing, block: seq<Stmt>, ghost lex: Lexicon, ghost h: nat) returns (ok: bool)
    requires TypingOk(typ) && C.Meets(typ, C.ALL, block)
    requires LexiconOk(lex) && C.BlockLegible(lex, h, block) && h + C.Growth(block) <= MAX_EXPR_DEPTH
    ensures ok <==> C.CheckBlock(typ, [], block, []).Some?
    ensures ok ==> forall s, fuel | InTypes(typ, s) :: !Run(typ, block, s, fuel).Failed?
  {
    var q := new Checker(typ);
    ok := q.Block(block, []);
    if ok {
      forall s, fuel | InTypes(typ, s)
        ensures !Run(typ, block, s, fuel).Failed?
      {
        C.ProgramSound(lex, h, typ, block, s, fuel);
      }
    }
  }
}
