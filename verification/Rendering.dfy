/** The text of facts (lang/ast/string.go), by which the checker tells them apart at joins, and when
    it can do so: the `%` operator has no text. */
module Rendering {
  import opened Options
  import opened Programs

  // ---------------- Numbers in decimal

  const DIGITS := "0123456789"

  function Digits(n: nat): (s: string)
    ensures s != [] && forall c | c in s :: c in DIGITS
  {
    if n < 10 then [DIGITS[n]] else Digits(n / 10) + [DIGITS[n % 10]]
  }

  /** What big.Int.String gives. */
  function Decimal(v: int): string
  {
    if v < 0 then "-" + Digits(-v) else Digits(v)
  }

  /** The constant that simplifying makes of a value. */
  function Number(v: int): Term { Const(v, Decimal(v)) }

  // ---------------- Trees and their text

  datatype Tree = Leaf(text: string) | Prefix(op: string, e: Tree) | Infix(op: string, l: Tree, r: Tree)

  const MAX_EXPR_DEPTH := 255
  const TOO_DEEP := "!expr_recursion_depth_too_large!"

  /** appendStr. */
  function Show(t: Tree, parenthesize: bool, depth: nat): string
    decreases t
  {
    if depth > MAX_EXPR_DEPTH then TOO_DEEP
    else match t
      case Leaf(text) => text
      case Prefix(op, e) => op + Show(e, true, depth + 1)
      case Infix(op, l, r) =>
        var s := Show(l, true, depth + 1) + op + Show(r, true, depth + 1);
        if parenthesize then "(" + s + ")" else s
  }

  /** opStrings, which has no entry for the remainder. */
  function ArithText(op: Arith): string
  {
    match op
    case Plus => " + "
    case Minus => " - "
    case Star => " * "
    case Slash => " / "
    case ShiftL => " << "
    case ShiftR => " >> "
    case Amp => " & "
    case AmpHat => " &^ "
    case Pipe => " | "
    case Hat => " ^ "
    case Percent => ""
  }

  function RelationText(rel: Relation): string
  {
    match rel
    case NotEq => " != "
    case Less => " < "
    case LessEq => " <= "
    case EqEq => " == "
    case GreaterEq => " >= "
    case Greater => " > "
  }

  function TermTree(t: Term): Tree
  {
    match t
    case Const(_, text) => Leaf(text)
    case Var(x) => Leaf(x)
    case Neg(e) => Prefix("-", TermTree(e))
    case As(e, target) => Infix(" as ", TermTree(e), Leaf(target))
    case Bin(op, l, r) => Infix(ArithText(op), TermTree(l), TermTree(r))
  }

  function CondTree(c: Cond): Tree
  {
    match c
    case Cmp(rel, l, r) => Infix(RelationText(rel), TermTree(l), TermTree(r))
    case And(d, e) => Infix(" and ", CondTree(d), CondTree(e))
    case Or(d, e) => Infix(" or ", CondTree(d), CondTree(e))
    case Not(d) => Prefix("not ", CondTree(d))
  }

  function Str(c: Cond): string { Show(CondTree(c), false, 0) }

  // ---------------- Trees whose text can be read back

  predicate IsDigit(c: char) { c in DIGITS }

  predicate Unbroken(c: char) { c != ' ' && c != '(' && c != ')' }

  /** Text without spaces and parentheses. */
  predicate Solid(w: string) { w != [] && forall c | c in w :: Unbroken(c) }

  /** A name or a number; only numbers may have a sign, and `not` is reserved. */
  predicate LeafOk(w: string)
  {
    Solid(w) && w != "not" && (w[0] == '-' ==> |w| > 1 && IsDigit(w[1]))
  }

  predicate Named(t: Tree) { t.Leaf? ==> t.text != [] && !IsDigit(t.text[0]) && t.text[0] != '-' }

  predicate Spaced(op: string)
  {
    |op| >= 3 && op[0] == ' ' && op[|op| - 1] == ' ' && ' ' !in op[1..|op| - 1]
  }

  predicate TreeOk(t: Tree)
  {
    match t
    case Leaf(text) => LeafOk(text)
    case Prefix(op, e) => TreeOk(e) && ((op == "-" && Named(e)) || (op == "not " && !e.Leaf?))
    case Infix(op, l, r) => TreeOk(l) && TreeOk(r) && Spaced(op)
  }

  function Height(t: Tree): nat
  {
    match t
    case Leaf(_) => 0
    case Prefix(_, e) => 1 + Height(e)
    case Infix(_, l, r) => 1 + if Height(l) < Height(r) then Height(r) else Height(l)
  }

  /** What can follow the text of an operand. */
  predicate Stops(u: string) { u == [] || u[0] == ' ' || u[0] == ')' }

  /** Two solid texts that are both followed by a stop are equal. */
  lemma {:induction false} SolidEnds(w: string, u: string, w': string, u': string)
    requires (forall c | c in w :: Unbroken(c)) && (forall c | c in w' :: Unbroken(c))
    requires Stops(u) && Stops(u') && w + u == w' + u'
    ensures w == w' && u == u'
  {
    assert w == [] ==> w + u == u;
    assert w' == [] ==> w' + u' == u';
    assert w != [] ==> w[0] in w && (w + u)[0] == w[0];
    assert w' != [] ==> w'[0] in w' && (w' + u')[0] == w'[0];
    if w != [] && w' != [] {
      assert (w + u)[1..] == w[1..] + u && (w' + u')[1..] == w'[1..] + u';
      SolidEnds(w[1..], u, w'[1..], u');
      assert w == [w[0]] + w[1..] && w' == [w'[0]] + w'[1..];
    }
  }

  lemma SpacesAtEnds(op: string)
    requires Spaced(op)
    ensures forall i | 0 < i < |op| - 1 :: op[i] != ' '
  {
    forall i | 0 < i < |op| - 1
      ensures op[i] != ' '
    {
      assert op[1..|op| - 1][i - 1] == op[i];
    }
  }

  lemma SameOperator(op: string, u: string, op': string, u': string)
    requires Spaced(op) && Spaced(op') && op + u == op' + u'
    ensures op == op' && u == u'
  {
    var n, n' := |op|, |op'|;
    assert (op + u)[n - 1] == ' ' && (op' + u')[n' - 1] == ' ';
    SpacesAtEnds(op);
    SpacesAtEnds(op');
    assert forall i | 0 <= i < n :: op[i] == (op + u)[i];
    assert forall i | 0 <= i < n' :: op'[i] == (op' + u')[i];
    assert op == (op + u)[..n] && op' == (op' + u')[..n'];
    assert u == (op + u)[n..] && u' == (op' + u')[n'..];
  }

  /** The text of an operand that is not too deep. */
  function Text(t: Tree): string
  {
    match t
    case Leaf(text) => text
    case Prefix(op, e) => op + Text(e)
    case Infix(op, l, r) => "(" + (Text(l) + (op + (Text(r) + ")")))
  }

  lemma {:induction false} ShowIsText(t: Tree, k: nat)
    requires Height(t) + k <= MAX_EXPR_DEPTH
    ensures Show(t, true, k) == Text(t)
    decreases t
  {
    match t
    case Leaf(_) =>
    case Prefix(_, e) => ShowIsText(e, k + 1);
    case Infix(op, l, r) =>
      ShowIsText(l, k + 1);
      ShowIsText(r, k + 1);
      assert "(" + (Text(l) + op + Text(r)) + ")" == Text(t);
  }

  /** How the text of an operand starts. */
  lemma TextStarts(t: Tree)
    requires TreeOk(t)
    ensures Text(t) != [] && (t.Infix? <==> Text(t)[0] == '(')
    ensures t.Prefix? ==> Text(t)[0] == t.op[0]
  {
    if t.Leaf? {
      assert t.text[0] in t.text;
    }
  }

  /** A leaf cannot be mistaken for an operator and its operand. */
  lemma LeafIsNoPrefix(w: string, u: string, t: Tree, v: string)
    requires LeafOk(w) && Stops(u) && TreeOk(t) && t.Prefix?
    ensures w + u != Text(t) + v
  {
    var s := Text(t) + v;
    if t.op == "-" {
      TextStarts(t.e);
      assert s[0] == '-' && s[1] == Text(t.e)[0];
      assert w[0] == (w + u)[0] && (|w| > 1 ==> w[1] == (w + u)[1]);
    } else {
      assert "not " <= s;
      NotIsReserved(w, u);
    }
  }

  lemma NotIsReserved(w: string, u: string)
    requires LeafOk(w) && Stops(u)
    ensures !("not " <= w + u)
  {
    var s := w + u;
    if |w| > 3 {
      assert w[3] in w && w[3] == s[3];
    } else if |w| < 3 {
      assert u != [] ==> u[0] == s[|w|];
    } else {
      assert w == s[..3];
    }
  }

  /** Unique readability: the text of an operand determines the operand and where it ends. */
  lemma {:induction false} ReadsBack(t: Tree, u: string, t': Tree, u': string)
    requires TreeOk(t) && TreeOk(t') && Stops(u) && Stops(u')
    requires Text(t) + u == Text(t') + u'
    ensures t == t' && u == u'
    decreases t, 1
  {
    TextStarts(t);
    TextStarts(t');
    assert (Text(t) + u)[0] == Text(t)[0] && (Text(t') + u')[0] == Text(t')[0];
    if t.Leaf? && t'.Leaf? {
      SolidEnds(t.text, u, t'.text, u');
    } else if t.Leaf? && t'.Prefix? {
      LeafIsNoPrefix(t.text, u, t', u');
    } else if t.Prefix? && t'.Leaf? {
      LeafIsNoPrefix(t'.text, u', t, u);
    } else if t.Prefix? && t'.Prefix? {
      var s, s' := Text(t.e), Text(t'.e);
      assert (t.op + s + u)[|t.op|..] == s + u && (t'.op + s' + u')[|t.op|..] == s' + u';
      ReadsBack(t.e, u, t'.e, u');
    } else if t.Infix? && t'.Infix? {
      InfixReadsBack(t, u, t', u');
    }
  }

  lemma {:induction false} InfixReadsBack(t: Tree, u: string, t': Tree, u': string)
    requires TreeOk(t) && TreeOk(t') && t.Infix? && t'.Infix?
    requires Text(t) + u == Text(t') + u'
    ensures t == t' && u == u'
    decreases t, 0
  {
    var v, v' := Text(t.r) + (")" + u), Text(t'.r) + (")" + u');
    Unwrapped(Text(t.l), t.op, Text(t.r), u);
    Unwrapped(Text(t'.l), t'.op, Text(t'.r), u');
    ReadsBack(t.l, t.op + v, t'.l, t'.op + v');
    SameOperator(t.op, v, t'.op, v');
    ReadsBack(t.r, ")" + u, t'.r, ")" + u');
    assert u == (")" + u)[1..] && u' == (")" + u')[1..];
  }

  lemma Unwrapped(a: string, op: string, b: string, u: string)
    ensures ("(" + (a + (op + (b + ")"))) + u)[1..] == a + (op + (b + (")" + u)))
  {
  }

  /** So does the text of a whole condition, which has no outer parentheses. */
  lemma WholeReadsBack(t: Tree, t': Tree)
    requires TreeOk(t) && TreeOk(t') && !t.Leaf? && !t'.Leaf?
    requires Height(t) <= MAX_EXPR_DEPTH && Height(t') <= MAX_EXPR_DEPTH
    requires Show(t, false, 0) == Show(t', false, 0)
    ensures t == t'
  {
    hide Text, TreeOk, Spaced;
    WholeText(t);
    WholeText(t');
    if t.Infix? && t'.Infix? {
      var b, b' := Text(t.r), Text(t'.r);
      ReadsBack(t.l, t.op + b, t'.l, t'.op + b');
      SameOperator(t.op, b, t'.op, b');
      assert b + [] == b && b' + [] == b';
      ReadsBack(t.r, [], t'.r, []);
    } else if t.Infix? {
      InfixIsNoPrefix(t, t');
    } else if t'.Infix? {
      InfixIsNoPrefix(t', t);
    } else {
      assert Text(t) + [] == Text(t) && Text(t') + [] == Text(t');
      ReadsBack(t, [], t', []);
    }
  }

  lemma WholeText(t: Tree)
    requires TreeOk(t) && !t.Leaf? && Height(t) <= MAX_EXPR_DEPTH
    ensures t.Prefix? ==> Show(t, false, 0) == Text(t)
    ensures t.Infix? ==> Show(t, false, 0) == Text(t.l) + (t.op + Text(t.r))
    ensures t.Infix? ==> TreeOk(t.l) && TreeOk(t.r) && Spaced(t.op) && forall b :: Stops(t.op + b)
  {
    match t
    case Prefix(_, e) => ShowIsText(e, 1);
    case Infix(op, l, r) =>
      ShowIsText(l, 1);
      ShowIsText(r, 1);
      assert Text(l) + op + Text(r) == Text(l) + (op + Text(r));
  }

  lemma InfixIsNoPrefix(t: Tree, p: Tree)
    requires TreeOk(t) && TreeOk(p) && t.Infix? && p.Prefix?
    ensures Text(t.l) + (t.op + Text(t.r)) != Text(p)
  {
    var v := t.op + Text(t.r);
    if Text(t.l) + v == Text(p) {
      assert Text(p) + [] == Text(p);
      ReadsBack(t.l, v, p, []);
    }
  }

  // ---------------- Expressions whose text can be read back

  /** What the names and numbers of a program stand for: a constant's value, or None for a variable. */
  type Lexicon = string -> Option<int>

  ghost predicate LexiconOk(lex: Lexicon)
  {
    forall v :: lex(Decimal(v)) == Some(v)
  }

  /** No remainder, constants written as names or numbers of that value, variables not written as either. */
  predicate Legible(lex: Lexicon, t: Term)
  {
    match t
    case Const(v, text) => LeafOk(text) && lex(text) == Some(v)
    case Var(x) => LeafOk(x) && Named(Leaf(x)) && lex(x).None?
    case Neg(e) => Legible(lex, e) && !e.Const?
    case As(e, target) => Legible(lex, e) && LeafOk(target)
    case Bin(op, l, r) => Legible(lex, l) && Legible(lex, r) && op != Percent
  }

  predicate LegibleCond(lex: Lexicon, c: Cond)
  {
    match c
    case Cmp(_, l, r) => Legible(lex, l) && Legible(lex, r)
    case And(d, e) => LegibleCond(lex, d) && LegibleCond(lex, e)
    case Or(d, e) => LegibleCond(lex, d) && LegibleCond(lex, e)
    case Not(d) => LegibleCond(lex, d)
  }

  lemma OperatorsSpaced()
    ensures forall op: Arith :: op != Percent ==> Spaced(ArithText(op))
    ensures forall rel: Relation :: Spaced(RelationText(rel))
    ensures Spaced(" as ") && Spaced(" and ") && Spaced(" or ")
  {
  }

  lemma {:induction false} LegibleTree(lex: Lexicon, t: Term)
    requires Legible(lex, t)
    ensures TreeOk(TermTree(t))
  {
    hide Spaced, LeafOk;
    OperatorsSpaced();
    match t
    case Const(_, _) =>
    case Var(_) =>
    case Neg(e) => LegibleTree(lex, e);
    case As(e, _) => LegibleTree(lex, e);
    case Bin(_, l, r) =>
      LegibleTree(lex, l);
      LegibleTree(lex, r);
  }

  lemma {:induction false} LegibleCondTree(lex: Lexicon, c: Cond)
    requires LegibleCond(lex, c)
    ensures TreeOk(CondTree(c)) && !CondTree(c).Leaf?
  {
    hide Spaced;
    OperatorsSpaced();
    match c
    case Cmp(_, l, r) =>
      LegibleTree(lex, l);
      LegibleTree(lex, r);
    case And(d, e) =>
      LegibleCondTree(lex, d);
      LegibleCondTree(lex, e);
    case Or(d, e) =>
      LegibleCondTree(lex, d);
      LegibleCondTree(lex, e);
    case Not(d) => LegibleCondTree(lex, d);
  }

  lemma OperatorsDiffer()
    ensures forall op, op' :: op != Percent && op' != Percent && ArithText(op) == ArithText(op') ==> op == op'
    ensures forall op :: ArithText(op) != " as "
    ensures forall rel, rel' :: RelationText(rel) == RelationText(rel') ==> rel == rel'
    ensures forall rel :: RelationText(rel) != " and " && RelationText(rel) != " or "
  {
    forall op, op' | op != Percent && op' != Percent && ArithText(op) == ArithText(op')
      ensures op == op'
    {
      assert |ArithText(op)| == |ArithText(op')| && ArithText(op)[1] == ArithText(op')[1];
    }
  }

  lemma {:induction false} SameTree(lex: Lexicon, t: Term, u: Term)
    requires Legible(lex, t) && Legible(lex, u) && TermTree(t) == TermTree(u)
    ensures Eq(t, u)
  {
    hide ArithText, LeafOk, Named;
    OperatorsDiffer();
    match t
    case Const(_, _) =>
    case Var(_) =>
    case Neg(e) => SameTree(lex, e, u.e);
    case As(e, _) => SameTree(lex, e, u.e);
    case Bin(_, l, r) =>
      SameTree(lex, l, u.l);
      SameTree(lex, r, u.r);
  }

  lemma {:induction false} SameCondTree(lex: Lexicon, c: Cond, d: Cond)
    requires LegibleCond(lex, c) && LegibleCond(lex, d) && CondTree(c) == CondTree(d)
    ensures CondEq(c, d)
  {
    hide RelationText;
    OperatorsDiffer();
    match c
    case Cmp(_, l, r) =>
      SameTree(lex, l, d.lhs);
      SameTree(lex, r, d.rhs);
    case And(a, b) =>
      SameCondTree(lex, a, d.c);
      SameCondTree(lex, b, d.d);
    case Or(a, b) =>
      SameCondTree(lex, a, d.c);
      SameCondTree(lex, b, d.d);
    case Not(a) => SameCondTree(lex, a, d.c);
  }

  /** Legible conditions that are not too deep have the same text only if they are equal. */
  lemma AlikeMeansEqual(lex: Lexicon, c: Cond, d: Cond)
    requires LegibleCond(lex, c) && LegibleCond(lex, d)
    requires Height(CondTree(c)) <= MAX_EXPR_DEPTH && Height(CondTree(d)) <= MAX_EXPR_DEPTH
    ensures Str(c) == Str(d) ==> CondEq(c, d)
  {
    LegibleCondTree(lex, c);
    LegibleCondTree(lex, d);
    if Str(c) == Str(d) {
      WholeReadsBack(CondTree(c), CondTree(d));
      SameCondTree(lex, c, d);
    }
  }

  // ---------------- A lexicon

  /** The value of decimal digits, and of a number with or without a sign. */
  function DigitsValue(s: string): nat
    requires forall c | c in s :: c in DIGITS
  {
    if s == [] then 0 else 10 * DigitsValue(s[..|s| - 1]) + DigitOf(s[|s| - 1])
  }

  function DigitOf(c: char): nat
    requires c in DIGITS
  {
    c as int - '0' as int
  }

  /** Numbers stand for themselves, everything else is a variable. */
  function Numerals(s: string): Option<int>
  {
    if s != [] && s[0] == '-' && (forall c | c in s[1..] :: c in DIGITS) then
      var n: int := DigitsValue(s[1..]);
      Some(-n)
    else if s != [] && (forall c | c in s :: c in DIGITS) then Some(DigitsValue(s))
    else None
  }

  lemma {:induction false} DigitsRead(n: nat)
    ensures DigitsValue(Digits(n)) == n
  {
    if n >= 10 {
      DigitsRead(n / 10);
      assert Digits(n)[..|Digits(n)| - 1] == Digits(n / 10);
      DigitRead(n % 10);
    } else {
      assert Digits(n)[..0] == [];
      DigitRead(n);
    }
  }

  lemma DigitRead(d: nat)
    requires d < 10
    ensures DigitOf(DIGITS[d]) == d
  {
  }

  /** Decimal numbers can always be read back. */
  lemma NumeralsOk()
    ensures LexiconOk(Numerals)
  {
    forall v
      ensures Numerals(Decimal(v)) == Some(v)
    {
      DigitsRead(if v < 0 then -v else v);
      assert v < 0 ==> Decimal(v)[1..] == Digits(-v);
      assert v >= 0 ==> Decimal(v)[0] in DIGITS;
    }
  }

  lemma DecimalLegible(lex: Lexicon, v: int)
    requires LexiconOk(lex)
    ensures Legible(lex, Number(v))
  {
    var s := Decimal(v);
    assert v < 0 ==> s[1] in Digits(-v) && forall c | c in s :: c == '-' || c in Digits(-v);
    assert v >= 0 ==> s[0] in Digits(v);
    assert forall c | c in DIGITS :: Unbroken(c) && c != '-' && c != 'n';
    assert s[0] != 'n';
  }
}
