/**
 * What the numeric parser computes, stated over expression trees. An
 * expression is rendered with the fewest parentheses that its precedence
 * and associativity need ('+' '-' loosest and left-associative, then '*' '/'
 * '%' left-associative, then '^' right-associative, a unary minus applying
 * to a primary only); the parser reads every such rendering back to the
 * value of the tree, evaluated left to right with Java int arithmetic.
 */
module NumericGrammar {
  import opened Wrappers
  import opened JavaText
  import opened JavaInt
  import opened Values
  import opened Scopes
  import opened NumericParser

  datatype BinOp = Plus | Minus | Times | Divide | Modulo | Caret

  datatype Ast =
    | Num(n: nat)
    | Neg(operand: Ast)
    | Bin(op: BinOp, left: Ast, right: Ast)

  /** Every literal is an int literal Integer.parseInt accepts. */
  predicate WellFormed(e: Ast) {
    match e
    case Num(n) => n <= IntMax
    case Neg(a) => WellFormed(a)
    case Bin(_, l, r) => WellFormed(l) && WellFormed(r)
  }

  predicate IsAdditive(e: Ast) { e.Bin? && (e.op == Plus || e.op == Minus) }
  predicate IsMultiplicative(e: Ast) { e.Bin? && (e.op == Times || e.op == Divide || e.op == Modulo) }

  /** The precedence level of the tree's root: 0 additive, 1 multiplicative, 2 unary or power, 3 literal. */
  function Kind(e: Ast): nat {
    if IsAdditive(e) then 0 else if IsMultiplicative(e) then 1 else if e.Num? then 3 else 2
  }

  /**
   * The termination measure shared by the renderings and the proofs below: a
   * level hands the same tree to the next tighter level (expression, term,
   * factor, primary, back to expression inside parentheses) only until it
   * reaches the tree's own level.
   */
  function Rank(e: Ast, level: nat): nat {
    (Kind(e) - level) % 4
  }

  function ApplyOp(op: BinOp, a: int, b: int): Result<int> {
    match op
    case Plus => Ok(Wrap(a + b))
    case Minus => Ok(Wrap(a - b))
    case Times => Ok(Mul(a, b))
    case Divide => if b == 0 then Err(DivisionByZero) else Ok(Div(a, b))
    case Modulo => if b == 0 then Err(ArithmeticException) else Ok(Rem(a, b))
    case Caret => Ok(Pow(a, b))
  }

  /** The value of a tree: the left operand first, the first failure wins. */
  function Eval(e: Ast): Result<int> {
    match e
    case Num(n) => Ok(n)
    case Neg(a) =>
      (match Eval(a)
       case Err(x) => Err(x)
       case Ok(v) => Ok(Wrap(-v)))
    case Bin(op, l, r) =>
      match Eval(l)
      case Err(x) => Err(x)
      case Ok(a) =>
        match Eval(r)
        case Err(x) => Err(x)
        case Ok(b) => ApplyOp(op, a, b)
  }

  function OpChar(op: BinOp): char {
    match op
    case Plus => '+'
    case Minus => '-'
    case Times => '*'
    case Divide => '/'
    case Modulo => '%'
    case Caret => '^'
  }

  /** A binary operator is written with a space on either side. */
  function OpText(op: BinOp): string {
    [' ', OpChar(op), ' ']
  }

  predicate Opens(c: char) { IsDigit(c) || c == '(' }
  predicate Closes(c: char) { IsDigit(c) || c == ')' }

  /** An expression: terms joined by '+' and '-', leaning left. */
  function Show(e: Ast): (t: string)
    ensures |t| > 0 && (Opens(t[0]) || t[0] == '-') && Closes(t[|t| - 1])
    decreases e, Rank(e, 0)
  {
    if IsAdditive(e) then Show(e.left) + OpText(e.op) + ShowTerm(e.right)
    else ShowTerm(e)
  }

  /** A term: factors joined by '*', '/' and '%', leaning left. */
  function ShowTerm(e: Ast): (t: string)
    ensures |t| > 0 && (Opens(t[0]) || t[0] == '-') && Closes(t[|t| - 1])
    decreases e, Rank(e, 1)
  {
    if IsMultiplicative(e) then ShowTerm(e.left) + OpText(e.op) + ShowFactor(e.right)
    else ShowFactor(e)
  }

  /** A factor: a negated primary, or a primary raised to a factor. */
  function ShowFactor(e: Ast): (t: string)
    ensures |t| > 0 && (Opens(t[0]) || t[0] == '-') && Closes(t[|t| - 1])
    ensures !e.Neg? ==> Opens(t[0])
    decreases e, Rank(e, 2)
  {
    match e
    case Neg(a) => "-" + ShowPrimary(a)
    case Bin(Caret, l, r) => ShowPrimary(l) + OpText(Caret) + ShowFactor(r)
    case _ => ShowPrimary(e)
  }

  /** A primary: a literal, or any other tree in parentheses. */
  function ShowPrimary(e: Ast): (t: string)
    ensures |t| > 0 && Opens(t[0]) && Closes(t[|t| - 1])
    decreases e, Rank(e, 3)
  {
    if e.Num? then NatToString(e.n) else "(" + Show(e) + ")"
  }

  /** `t` occurs in `s` at `pos`. */
  predicate At(s: string, pos: nat, t: string) {
    pos + |t| <= |s| && s[pos..pos + |t|] == t
  }

  lemma AtPart(s: string, pos: nat, t: string, i: nat, j: nat)
    requires At(s, pos, t) && i <= j <= |t|
    ensures At(s, pos + i, t[i..j])
  {
    var u := s[pos..pos + |t|];
    assert forall k :: i <= k < j ==> s[pos + k] == u[k];
    assert s[pos + i..pos + j] == u[i..j];
  }

  lemma AtChar(s: string, pos: nat, t: string, i: nat)
    requires At(s, pos, t) && i < |t|
    ensures s[pos + i] == t[i]
  {
    assert s[pos..pos + |t|][i] == s[pos + i];
  }

  /** No identifier continues past `end`. */
  predicate Boundary(s: string, end: nat) {
    end == |s| || (end < |s| && !IsTokenChar(s[end]))
  }

  /** The first non-whitespace character from `end` on, if any, is none of `cs`. */
  predicate NextNotIn(s: string, end: nat, cs: set<char>)
    requires end <= |s|
  {
    SkipWs(s, end) == |s| || s[SkipWs(s, end)] !in cs
  }

  lemma SkipWsFixed(s: string, p: nat)
    requires p <= |s|
    ensures SkipWs(s, SkipWs(s, p)) == SkipWs(s, p)
  {
  }

  lemma SkipOneSpace(s: string, p: nat)
    requires p + 1 < |s| && IsJavaWhitespace(s[p]) && !IsJavaWhitespace(s[p + 1])
    ensures SkipWs(s, p) == p + 1
  {
  }

  /** A ')' continues no expression. */
  lemma CloseStops(s: string, q: nat)
    requires q <= |s| && SkipWs(s, q) < |s| && s[SkipWs(s, q)] == ')'
    ensures NextNotIn(s, q, {'^', '*', '/', '%'}) && NextNotIn(s, q, {'+', '-'})
  {
  }

  lemma FactorSkip(s: string, env: Env, p: nat)
    requires p <= |s|
    ensures Spec(s, env, FactorRule, p) == Spec(s, env, FactorRule, SkipWs(s, p))
  {
    SkipWsFixed(s, p);
  }

  lemma TermSkip(s: string, env: Env, p: nat)
    requires p <= |s|
    ensures Term(s, env, p) == Term(s, env, SkipWs(s, p))
  {
    FactorSkip(s, env, p);
  }

  lemma TermLoopSkip(s: string, env: Env, p: nat, acc: int)
    requires p <= |s|
    ensures TermLoop(s, env, p, acc) == TermLoop(s, env, SkipWs(s, p), acc)
  {
    SkipWsFixed(s, p);
  }

  lemma ExprLoopSkip(s: string, env: Env, p: nat, acc: int)
    requires p <= |s|
    ensures ExprLoop(s, env, p, acc) == ExprLoop(s, env, SkipWs(s, p), acc)
  {
    SkipWsFixed(s, p);
  }

  /** parseTerm's loop stops at anything but '*', '/' and '%'. */
  lemma TermLoopStop(s: string, env: Env, p: nat, acc: int)
    requires p <= |s| && NextNotIn(s, p, {'*', '/', '%'})
    ensures TermLoop(s, env, p, acc) == POk(acc, SkipWs(s, p))
  {
  }

  /** parseExpression's loop stops at anything but '+' and '-'. */
  lemma ExprLoopStop(s: string, env: Env, p: nat, acc: int)
    requires p <= |s| && NextNotIn(s, p, {'+', '-'})
    ensures ExprLoop(s, env, p, acc) == POk(acc, SkipWs(s, p))
  {
  }

  lemma {:induction false} TokenEndOver(s: string, pos: nat, t: string)
    requires At(s, pos, t) && Boundary(s, pos + |t|)
    requires forall i :: 0 <= i < |t| ==> IsTokenChar(t[i])
    ensures TokenEnd(s, pos) == pos + |t|
    decreases |t|
  {
    if |t| > 0 {
      AtChar(s, pos, t, 0);
      AtPart(s, pos, t, 1, |t|);
      TokenEndOver(s, pos + 1, t[1..]);
    }
  }

  /** The parser's outcome for a tree whose value is `r`, ending exactly at `end`. */
  function Expected(r: Result<int>, end: nat): Parsed {
    match r
    case Ok(v) => POk(v, end)
    case Err(x) => PFail(x)
  }

  /** A literal reads as its value. */
  lemma NumParses(n: nat, s: string, env: Env, pos: nat)
    requires n <= IntMax && At(s, pos, NatToString(n)) && Boundary(s, pos + |NatToString(n)|)
    ensures Spec(s, env, PrimaryRule, pos) == POk(n, pos + |NatToString(n)|)
  {
    var t := NatToString(n);
    AtChar(s, pos, t, 0);
    TokenEndOver(s, pos, t);
    PrimaryToken(s, env, pos);
    LiteralValue(n, env);
    assert s[pos..pos + |t|] == t;
  }

  lemma LiteralValue(n: nat, env: Env)
    requires n <= IntMax
    ensures TokenValue(NatToString(n), env) == Ok(n)
  {
    IntToStringRoundTrip(n);
  }

  lemma NextNotInSub(s: string, end: nat, cs: set<char>, ds: set<char>)
    requires end <= |s| && ds <= cs && NextNotIn(s, end, cs)
    ensures NextNotIn(s, end, ds)
  {
  }

  /*
   * One step of each specification function, at a position whose character is
   * known: the proofs below chain these instead of unfolding the functions.
   */

  lemma PrimaryParen(s: string, env: Env, pos: nat)
    requires pos < |s| && s[pos] == '('
    ensures Primary(s, env, pos) ==
      match Expr(s, env, pos + 1)
      case PFail(x) => PFail(x)
      case POk(v, q) => POk(v, if SkipWs(s, q) < |s| && s[SkipWs(s, q)] == ')' then SkipWs(s, q) + 1 else SkipWs(s, q))
  {
  }

  lemma PrimaryToken(s: string, env: Env, pos: nat)
    requires pos < |s| && !IsJavaWhitespace(s[pos]) && s[pos] != '(' && TokenEnd(s, pos) > pos
    ensures Primary(s, env, pos) ==
      match TokenValue(s[pos..TokenEnd(s, pos)], env)
      case Ok(n) => POk(n, TokenEnd(s, pos))
      case Err(x) => PFail(x)
  {
  }

  lemma FactorNeg(s: string, env: Env, pos: nat)
    requires pos < |s| && s[pos] == '-'
    ensures Factor(s, env, pos) ==
      match Primary(s, env, pos + 1)
      case PFail(x) => PFail(x)
      case POk(v, q) => POk(Wrap(-v), q)
  {
  }

  lemma FactorPrimary(s: string, env: Env, pos: nat)
    requires pos < |s| && !IsJavaWhitespace(s[pos]) && s[pos] != '-'
    ensures Factor(s, env, pos) ==
      match Primary(s, env, pos)
      case PFail(x) => PFail(x)
      case POk(v, q) => PowerTail(s, env, v, q)
  {
  }

  lemma PowerTailCaret(s: string, env: Env, v: int, q: nat)
    requires q <= |s| && SkipWs(s, q) < |s| && s[SkipWs(s, q)] == '^'
    ensures PowerTail(s, env, v, q) ==
      match Factor(s, env, SkipWs(s, q) + 1)
      case PFail(x) => PFail(x)
      case POk(x, q') => POk(Pow(v, x), q')
  {
  }

  lemma PowerTailStop(s: string, env: Env, v: int, q: nat)
    requires q <= |s| && NextNotIn(s, q, {'^'})
    ensures PowerTail(s, env, v, q) == POk(v, SkipWs(s, q))
  {
  }

  lemma TermStep(s: string, env: Env, pos: nat)
    requires pos <= |s|
    ensures Term(s, env, pos) ==
      match Factor(s, env, pos)
      case PFail(x) => PFail(x)
      case POk(v, q) => TermLoop(s, env, q, v)
  {
  }

  lemma ExprStep(s: string, env: Env, pos: nat)
    requires pos <= |s|
    ensures Expr(s, env, pos) ==
      match Term(s, env, pos)
      case PFail(x) => PFail(x)
      case POk(v, q) => ExprLoop(s, env, q, v)
  {
  }

  /** A failing factor after '*', '/' or '%' fails parseTerm's loop. */
  lemma TermLoopFail(s: string, env: Env, pos: nat, at: nat, acc: int)
    requires pos <= |s| && at == SkipWs(s, pos) && at < |s| && s[at] in {'*', '/', '%'}
    requires Factor(s, env, at + 1).PFail?
    ensures TermLoop(s, env, pos, acc) == Factor(s, env, at + 1)
  {
  }

  /** A failing term after '+' or '-' fails parseExpression's loop. */
  lemma ExprLoopFail(s: string, env: Env, pos: nat, at: nat, acc: int)
    requires pos <= |s| && at == SkipWs(s, pos) && at < |s| && s[at] in {'+', '-'}
    requires Term(s, env, at + 1).PFail?
    ensures ExprLoop(s, env, pos, acc) == Term(s, env, at + 1)
  {
  }

  /** The text of a binary node: the left operand, a space, the operator, a space, the right operand. */
  lemma BinLayout(s: string, pos: nat, mid: nat, end: nat, lt: string, op: BinOp, rt: string)
    requires At(s, pos, lt + OpText(op) + rt) && |rt| > 0 && !IsJavaWhitespace(rt[0])
    requires mid == pos + |lt| && end == pos + |lt| + 3 + |rt|
    ensures At(s, pos, lt) && At(s, mid + 3, rt) && end == mid + 3 + |rt| && end <= |s|
    ensures Boundary(s, mid)
    ensures SkipWs(s, mid) == mid + 1 && s[mid + 1] == OpChar(op)
    ensures SkipWs(s, mid + 2) == mid + 3
  {
    var t := lt + OpText(op) + rt;
    var n := |lt|;
    AtPart(s, pos, t, 0, n);
    assert t[..n] == lt;
    AtPart(s, pos, t, n + 3, |t|);
    assert t[n + 3..] == rt;
    AtChar(s, pos, t, n);
    AtChar(s, pos, t, n + 1);
    AtChar(s, pos, t, n + 2);
    AtChar(s, pos, t, n + 3);
  }

  /** The text of a parenthesised tree. */
  lemma ParenLayout(s: string, pos: nat, inner: string)
    requires At(s, pos, "(" + inner + ")")
    ensures s[pos] == '(' && At(s, pos + 1, inner)
    ensures var end := pos + 1 + |inner|;
      end < |s| && s[end] == ')' && SkipWs(s, end) == end && Boundary(s, end) &&
      NextNotIn(s, end, {'^', '*', '/', '%'}) && NextNotIn(s, end, {'+', '-'})
  {
    var t := "(" + inner + ")";
    AtChar(s, pos, t, 0);
    AtChar(s, pos, t, |t| - 1);
    AtPart(s, pos, t, 1, |t| - 1);
    assert t[1..|t| - 1] == inner;
  }

  /** The text of a negated primary. */
  lemma NegLayout(s: string, pos: nat, pt: string)
    requires At(s, pos, "-" + pt)
    ensures s[pos] == '-' && At(s, pos + 1, pt)
  {
    var t := "-" + pt;
    AtChar(s, pos, t, 0);
    AtPart(s, pos, t, 1, |t|);
    assert t[1..] == pt;
  }

  /*
   * The lemmas below follow the parser's four levels. Each reads the text of a
   * tree rendered at its level, placed at `pos` and ending at `end`, followed by
   * something that neither extends its last token nor continues it at a
   * tighter level, and states what the level's specification function yields.
   */

  /** A primary's text reads as the tree's value and ends exactly where the text does. */
  lemma {:induction false} PrimaryParses(e: Ast, s: string, env: Env, pos: nat, end: nat)
    requires WellFormed(e) && At(s, pos, ShowPrimary(e)) && end == pos + |ShowPrimary(e)| && Boundary(s, end)
    ensures Primary(s, env, pos) == Expected(Eval(e), end)
    decreases e, Rank(e, 3), 1
  {
    if e.Num? {
      NumParses(e.n, s, env, pos);
    } else {
      ParenParses(e, s, env, pos, end);
    }
  }

  lemma {:induction false} ParenParses(e: Ast, s: string, env: Env, pos: nat, end: nat)
    requires !e.Num? && WellFormed(e) && At(s, pos, "(" + Show(e) + ")") && end == pos + |Show(e)| + 2
    ensures Primary(s, env, pos) == Expected(Eval(e), end)
    decreases e, Rank(e, 3), 0
  {
    var close := end - 1;
    ParenLayout(s, pos, Show(e));
    ExprParses(e, s, env, pos + 1, close);
    PrimaryParen(s, env, pos);
    if Eval(e).Ok? {
      ExprLoopStop(s, env, close, Eval(e).value);
    }
  }

  /** A factor's text reads as the tree's value; the factor ends where the text does, up to whitespace. */
  /**
   * parseFactor from `pos` agrees with the tree's evaluation: the same value,
   * stopping where `end` does up to whitespace, or the same failure.
   */
  predicate FactorReads(s: string, env: Env, pos: nat, e: Ast, end: nat)
    requires pos <= |s| && end <= |s|
  {
    var f := Factor(s, env, pos);
    match Eval(e)
    case Ok(v) => f.POk? && f.value == v && SkipWs(s, f.pos) == SkipWs(s, end)
    case Err(x) => f == PFail(x)
  }

  /** PowerTail after a primary of value `a` agrees with raising `a` to the tree's value. */
  predicate CaretReads(s: string, env: Env, a: int, mid: nat, r: Ast, end: nat)
    requires mid <= |s| && end <= |s|
  {
    var f := PowerTail(s, env, a, mid);
    match Eval(r)
    case Ok(v) => f.POk? && f.value == Pow(a, v) && SkipWs(s, f.pos) == SkipWs(s, end)
    case Err(x) => f == PFail(x)
  }

  /** A factor's text reads as the tree's value; the factor ends where the text does, up to whitespace. */
  lemma {:induction false} FactorParses(e: Ast, s: string, env: Env, pos: nat, end: nat)
    requires WellFormed(e) && At(s, pos, ShowFactor(e)) && end == pos + |ShowFactor(e)|
    requires Boundary(s, end) && NextNotIn(s, end, {'^'})
    ensures FactorReads(s, env, pos, e, end)
    decreases e, Rank(e, 2), 1
  {
    match e
    case Neg(a) => NegParses(e, s, env, pos, end);
    case Bin(Caret, l, r) => PowerParses(e, s, env, pos, end);
    case _ => PlainFactorParses(e, s, env, pos, end);
  }

  lemma {:induction false} PlainFactorParses(e: Ast, s: string, env: Env, pos: nat, end: nat)
    requires !e.Neg? && !(e.Bin? && e.op == Caret)
    requires WellFormed(e) && At(s, pos, ShowPrimary(e)) && end == pos + |ShowPrimary(e)|
    requires Boundary(s, end) && NextNotIn(s, end, {'^'})
    ensures FactorReads(s, env, pos, e, end)
    decreases e, Rank(e, 2), 0
  {
    AtChar(s, pos, ShowPrimary(e), 0);
    FactorPrimary(s, env, pos);
    PrimaryParses(e, s, env, pos, end);
    var v := Eval(e);
    if v.Ok? {
      PowerTailStop(s, env, v.value, end);
    }
  }

  lemma {:induction false} NegParses(e: Ast, s: string, env: Env, pos: nat, end: nat)
    requires e.Neg? && WellFormed(e) && At(s, pos, "-" + ShowPrimary(e.operand))
    requires end == pos + 1 + |ShowPrimary(e.operand)| && Boundary(s, end)
    ensures FactorReads(s, env, pos, e, end)
    decreases e, Rank(e, 2), 0
  {
    NegLayout(s, pos, ShowPrimary(e.operand));
    FactorNeg(s, env, pos);
    PrimaryParses(e.operand, s, env, pos + 1, end);
  }

  lemma {:induction false} PowerParses(e: Ast, s: string, env: Env, pos: nat, end: nat)
    requires e.Bin? && e.op == Caret && WellFormed(e)
    requires At(s, pos, ShowPrimary(e.left) + OpText(Caret) + ShowFactor(e.right))
    requires end == pos + |ShowPrimary(e.left)| + 3 + |ShowFactor(e.right)|
    requires Boundary(s, end) && NextNotIn(s, end, {'^'})
    ensures FactorReads(s, env, pos, e, end)
    decreases e, Rank(e, 2), 0
  {
    var lt := ShowPrimary(e.left);
    var mid := pos + |lt|;
    BinLayout(s, pos, mid, end, lt, Caret, ShowFactor(e.right));
    AtChar(s, pos, lt, 0);
    FactorPrimary(s, env, pos);
    PrimaryParses(e.left, s, env, pos, mid);
    if Eval(e.left).Ok? {
      CaretParses(e.right, s, env, Eval(e.left).value, mid, end);
    }
  }

  /** The '^' and the factor after a primary of value `a` ending at `mid`. */
  lemma {:induction false} CaretParses(r: Ast, s: string, env: Env, a: int, mid: nat, end: nat)
    requires WellFormed(r) && mid + 3 <= |s| && SkipWs(s, mid) == mid + 1 && s[mid + 1] == '^'
    requires SkipWs(s, mid + 2) == mid + 3 && At(s, mid + 3, ShowFactor(r)) && end == mid + 3 + |ShowFactor(r)|
    requires Boundary(s, end) && NextNotIn(s, end, {'^'})
    ensures CaretReads(s, env, a, mid, r, end)
    decreases r, 4
  {
    PowerTailCaret(s, env, a, mid);
    FactorSkip(s, env, mid + 2);
    FactorParses(r, s, env, mid + 3, end);
  }

  /** A term's text reads as the tree's value, and parseTerm's loop goes on from the end of the text. */
  lemma {:induction false} TermParses(e: Ast, s: string, env: Env, pos: nat, end: nat)
    requires WellFormed(e) && At(s, pos, ShowTerm(e)) && end == pos + |ShowTerm(e)|
    requires Boundary(s, end) && NextNotIn(s, end, {'^'})
    ensures Eval(e).Ok? ==> Term(s, env, pos) == TermLoop(s, env, end, Eval(e).value)
    ensures Eval(e).Err? ==> Term(s, env, pos) == PFail(Eval(e).error)
    decreases e, Rank(e, 1), 1
  {
    if IsMultiplicative(e) {
      ProductParses(e, s, env, pos, end);
    } else {
      FactorTermParses(e, s, env, pos, end);
    }
  }

  lemma {:induction false} FactorTermParses(e: Ast, s: string, env: Env, pos: nat, end: nat)
    requires !IsMultiplicative(e) && WellFormed(e) && At(s, pos, ShowFactor(e)) && end == pos + |ShowFactor(e)|
    requires Boundary(s, end) && NextNotIn(s, end, {'^'})
    ensures Eval(e).Ok? ==> Term(s, env, pos) == TermLoop(s, env, end, Eval(e).value)
    ensures Eval(e).Err? ==> Term(s, env, pos) == PFail(Eval(e).error)
    decreases e, Rank(e, 1), 0
  {
    FactorParses(e, s, env, pos, end);
    TermStep(s, env, pos);
    if Eval(e).Ok? {
      var v := Eval(e).value;
      TermLoopSkip(s, env, Factor(s, env, pos).pos, v);
      TermLoopSkip(s, env, end, v);
    }
  }

  lemma {:induction false} ProductParses(e: Ast, s: string, env: Env, pos: nat, end: nat)
    requires IsMultiplicative(e) && WellFormed(e)
    requires At(s, pos, ShowTerm(e.left) + OpText(e.op) + ShowFactor(e.right))
    requires end == pos + |ShowTerm(e.left)| + 3 + |ShowFactor(e.right)|
    requires Boundary(s, end) && NextNotIn(s, end, {'^'})
    ensures Eval(e).Ok? ==> Term(s, env, pos) == TermLoop(s, env, end, Eval(e).value)
    ensures Eval(e).Err? ==> Term(s, env, pos) == PFail(Eval(e).error)
    decreases e, Rank(e, 1), 0
  {
    var lt := ShowTerm(e.left);
    var mid := pos + |lt|;
    BinLayout(s, pos, mid, end, lt, e.op, ShowFactor(e.right));
    TermParses(e.left, s, env, pos, mid);
    if Eval(e.left).Ok? {
      ProductTail(e.op, e.right, s, env, Eval(e.left).value, mid, end);
    }
  }

  /** parseTerm's loop over the operator at `mid + 1` and the factor after it, with `a` the value so far. */
  lemma {:induction false} ProductTail(op: BinOp, r: Ast, s: string, env: Env, a: int, mid: nat, end: nat)
    requires op == Times || op == Divide || op == Modulo
    requires WellFormed(r) && mid + 3 <= |s| && SkipWs(s, mid) == mid + 1 && s[mid + 1] == OpChar(op)
    requires SkipWs(s, mid + 2) == mid + 3 && At(s, mid + 3, ShowFactor(r)) && end == mid + 3 + |ShowFactor(r)|
    requires Boundary(s, end) && NextNotIn(s, end, {'^'})
    ensures Eval(r).Err? ==> TermLoop(s, env, mid, a) == PFail(Eval(r).error)
    ensures Eval(r).Ok? ==> var v := ApplyOp(op, a, Eval(r).value);
      TermLoop(s, env, mid, a) == if v.Ok? then TermLoop(s, env, end, v.value) else PFail(v.error)
    decreases r, 4
  {
    FactorSkip(s, env, mid + 2);
    FactorParses(r, s, env, mid + 3, end);
    ProductStep(op, s, env, a, mid, end, Eval(r));
  }

  /** parseTerm's loop over an operator and a factor whose outcome `rv` is known. */
  lemma ProductStep(op: BinOp, s: string, env: Env, a: int, mid: nat, end: nat, rv: Result<int>)
    requires (op == Times || op == Divide || op == Modulo)
    requires mid + 2 <= end <= |s| && SkipWs(s, mid) == mid + 1 && s[mid + 1] == OpChar(op)
    requires rv.Err? ==> Factor(s, env, mid + 2) == PFail(rv.error)
    requires rv.Ok? ==> var f := Factor(s, env, mid + 2);
      f.POk? && f.value == rv.value && SkipWs(s, f.pos) == SkipWs(s, end)
    ensures rv.Err? ==> TermLoop(s, env, mid, a) == PFail(rv.error)
    ensures rv.Ok? ==> var v := ApplyOp(op, a, rv.value);
      TermLoop(s, env, mid, a) == if v.Ok? then TermLoop(s, env, end, v.value) else PFail(v.error)
  {
    var f := Factor(s, env, mid + 2);
    if f.PFail? {
      TermLoopFail(s, env, mid, mid + 1, a);
    } else {
      TermLoopAdvance(s, env, mid, mid + 1, OpChar(op), a, f.value, f.pos);
      var v := ApplyOp(op, a, f.value);
      if v.Ok? {
        TermLoopSkip(s, env, f.pos, v.value);
        TermLoopSkip(s, env, end, v.value);
      }
    }
  }

  /** An expression's text reads as the tree's value, and parseExpression's loop goes on from the end of the text. */
  lemma {:induction false} ExprParses(e: Ast, s: string, env: Env, pos: nat, end: nat)
    requires WellFormed(e) && At(s, pos, Show(e)) && end == pos + |Show(e)|
    requires Boundary(s, end) && NextNotIn(s, end, {'^', '*', '/', '%'})
    ensures Eval(e).Ok? ==> Expr(s, env, pos) == ExprLoop(s, env, end, Eval(e).value)
    ensures Eval(e).Err? ==> Expr(s, env, pos) == PFail(Eval(e).error)
    decreases e, Rank(e, 0), 1
  {
    if IsAdditive(e) {
      SumParses(e, s, env, pos, end);
    } else {
      TermExprParses(e, s, env, pos, end);
    }
  }

  lemma {:induction false} TermExprParses(e: Ast, s: string, env: Env, pos: nat, end: nat)
    requires !IsAdditive(e) && WellFormed(e) && At(s, pos, ShowTerm(e)) && end == pos + |ShowTerm(e)|
    requires Boundary(s, end) && NextNotIn(s, end, {'^', '*', '/', '%'})
    ensures Eval(e).Ok? ==> Expr(s, env, pos) == ExprLoop(s, env, end, Eval(e).value)
    ensures Eval(e).Err? ==> Expr(s, env, pos) == PFail(Eval(e).error)
    decreases e, Rank(e, 0), 0
  {
    NextNotInSub(s, end, {'^', '*', '/', '%'}, {'^'});
    TermParses(e, s, env, pos, end);
    ExprStep(s, env, pos);
    if Eval(e).Ok? {
      NextNotInSub(s, end, {'^', '*', '/', '%'}, {'*', '/', '%'});
      TermLoopStop(s, env, end, Eval(e).value);
      ExprLoopSkip(s, env, end, Eval(e).value);
    }
  }

  lemma {:induction false} SumParses(e: Ast, s: string, env: Env, pos: nat, end: nat)
    requires IsAdditive(e) && WellFormed(e)
    requires At(s, pos, Show(e.left) + OpText(e.op) + ShowTerm(e.right))
    requires end == pos + |Show(e.left)| + 3 + |ShowTerm(e.right)|
    requires Boundary(s, end) && NextNotIn(s, end, {'^', '*', '/', '%'})
    ensures Eval(e).Ok? ==> Expr(s, env, pos) == ExprLoop(s, env, end, Eval(e).value)
    ensures Eval(e).Err? ==> Expr(s, env, pos) == PFail(Eval(e).error)
    decreases e, Rank(e, 0), 0
  {
    var lt := Show(e.left);
    var mid := pos + |lt|;
    BinLayout(s, pos, mid, end, lt, e.op, ShowTerm(e.right));
    ExprParses(e.left, s, env, pos, mid);
    if Eval(e.left).Ok? {
      SumTail(e.op, e.right, s, env, Eval(e.left).value, mid, end);
    }
  }

  /** parseExpression's loop over the operator at `mid + 1` and the term after it, with `a` the value so far. */
  lemma {:induction false} SumTail(op: BinOp, r: Ast, s: string, env: Env, a: int, mid: nat, end: nat)
    requires op == Plus || op == Minus
    requires WellFormed(r) && mid + 3 <= |s| && SkipWs(s, mid) == mid + 1 && s[mid + 1] == OpChar(op)
    requires SkipWs(s, mid + 2) == mid + 3 && At(s, mid + 3, ShowTerm(r)) && end == mid + 3 + |ShowTerm(r)|
    requires Boundary(s, end) && NextNotIn(s, end, {'^', '*', '/', '%'})
    ensures Eval(r).Err? ==> ExprLoop(s, env, mid, a) == PFail(Eval(r).error)
    ensures Eval(r).Ok? ==> ExprLoop(s, env, mid, a) == ExprLoop(s, env, end, ApplyOp(op, a, Eval(r).value).value)
    decreases r, 4
  {
    TermSkip(s, env, mid + 2);
    NextNotInSub(s, end, {'^', '*', '/', '%'}, {'^'});
    NextNotInSub(s, end, {'^', '*', '/', '%'}, {'*', '/', '%'});
    TermParses(r, s, env, mid + 3, end);
    SumStep(op, s, env, a, mid, end, Eval(r));
  }

  /** parseExpression's loop over an operator and a term whose outcome `rv` is known. */
  lemma SumStep(op: BinOp, s: string, env: Env, a: int, mid: nat, end: nat, rv: Result<int>)
    requires (op == Plus || op == Minus) && mid + 2 <= end <= |s| && SkipWs(s, mid) == mid + 1 && s[mid + 1] == OpChar(op)
    requires NextNotIn(s, end, {'*', '/', '%'})
    requires rv.Err? ==> Term(s, env, mid + 2) == PFail(rv.error)
    requires rv.Ok? ==> Term(s, env, mid + 2) == TermLoop(s, env, end, rv.value)
    ensures rv.Err? ==> Spec(s, env, SumsRule(a), mid) == PFail(rv.error)
    ensures rv.Ok? ==> Spec(s, env, SumsRule(a), mid) == Spec(s, env, SumsRule(ApplyOp(op, a, rv.value).value), end)
  {
    if rv.Err? {
      ExprLoopFail(s, env, mid, mid + 1, a);
    } else {
      var b := rv.value;
      TermLoopStop(s, env, end, b);
      ExprLoopAdvance(s, env, mid, mid + 1, OpChar(op), a, b, SkipWs(s, end));
      ExprLoopSkip(s, env, end, ApplyOp(op, a, b).value);
    }
  }

  /** String.trim leaves alone a text whose ends are not blank. */
  lemma TrimKeeps(t: string)
    requires |t| > 0 && !IsTrimmed(t[0]) && !IsTrimmed(t[|t| - 1])
    ensures Trim(t) == t
  {
  }

  /**
   * evaluateNumericExpression reads the rendering of every well-formed tree
   * back to the tree's value, or to the failure its evaluation meets first.
   */
  lemma ShowRoundTrip(e: Ast, env: Env)
    requires WellFormed(e)
    ensures NumericValue(Show(e), env) == Eval(e)
  {
    var t := Show(e);
    TrimKeeps(t);
    assert t[0..|t|] == t;
    ExprParses(e, t, env, 0, |t|);
  }

  /** Text after a complete expression that cannot continue it, such as a stray ')', is ignored. */
  lemma TrailingTextIgnored(e: Ast, env: Env)
    requires WellFormed(e)
    ensures NumericValue(Show(e) + " )", env) == Eval(e)
  {
    var t := Show(e);
    var u := t + " )";
    TrailingLayout(t, u);
    ExprParses(e, u, env, 0, |t|);
    if Eval(e).Ok? {
      ExprLoopStop(u, env, |t|, Eval(e).value);
    }
  }

  lemma TrailingLayout(t: string, u: string)
    requires |t| > 0 && !IsTrimmed(t[0]) && u == t + " )"
    ensures Trim(u) == u && At(u, 0, t) && Boundary(u, |t|) && SkipWs(u, |t|) == |t| + 1
    ensures NextNotIn(u, |t|, {'^', '*', '/', '%'}) && NextNotIn(u, |t|, {'+', '-'})
  {
    TrimKeeps(u);
    assert u[0..|t|] == t && u[|t|] == ' ' && u[|t| + 1] == ')';
    SkipOneSpace(u, |t|);
    CloseStops(u, |t|);
  }

  /** A '(' whose ')' never comes is closed by the end of the text. */
  lemma MissingParenthesisAccepted(e: Ast, env: Env)
    requires WellFormed(e)
    ensures NumericValue("(" + Show(e), env) == Eval(e)
  {
    var t := Show(e);
    var u := "(" + t;
    TrimKeeps(u);
    assert u[1..|u|] == t;
    ExprParses(e, u, env, 1, |u|);
    PrimaryParen(u, env, 0);
    var p := Primary(u, env, 0);
    assert p == Expected(Eval(e), |u|);
    FactorPrimary(u, env, 0);
    TermStep(u, env, 0);
    ExprStep(u, env, 0);
  }

  /** Text made of blanks only evaluates to 0. */
  lemma BlankIsZero(t: string, env: Env)
    requires forall i :: 0 <= i < |t| ==> IsTrimmed(t[i])
    ensures NumericValue(t, env) == Ok(0)
  {
    TrimStartSpec(t);
  }

  /** An identifier: a letter, then letters, digits and underscores. */
  predicate IsName(t: string) {
    |t| > 0 && ('a' <= t[0] <= 'z' || 'A' <= t[0] <= 'Z') && forall i :: 0 <= i < |t| ==> IsTokenChar(t[i])
  }

  lemma NameLayout(t: string)
    requires IsName(t)
    ensures Trim(t) == t && t[0..|t|] == t && TokenEnd(t, 0) == |t| && ParseInt(t).None?
    ensures !IsJavaWhitespace(t[0]) && t[0] != '(' && t[0] != '-'
  {
    TrimKeeps(t);
    assert At(t, 0, t);
    TokenEndOver(t, 0, t);
  }

  /** A lone identifier evaluates to its variable's value converted by toInt, or fails as TokenValue does. */
  lemma NameReads(t: string, env: Env)
    requires IsName(t)
    ensures NumericValue(t, env) == TokenValue(t, env)
  {
    NameLayout(t);
    PrimaryToken(t, env, 0);
    FactorPrimary(t, env, 0);
    TermStep(t, env, 0);
    ExprStep(t, env, 0);
  }

  /** An identifier that no scope and no global binds fails with "not defined". */
  lemma UndefinedName(t: string, env: Env)
    requires IsName(t) && !env.Has(t)
    ensures NumericValue(t, env) == Err(NotDefined(t))
  {
    NameLayout(t);
    NameReads(t, env);
  }

  /** An identifier bound to an int reads as that int. */
  lemma IntVariableReads(t: string, env: Env, i: int)
    requires IsName(t) && env.Get(t) == Some(IntVal(i))
    ensures NumericValue(t, env) == Ok(i)
  {
    NameLayout(t);
    HasVariableSpec(env.chain, env.globals, t);
    NameReads(t, env);
  }

  /**
   * A unary minus takes a primary only, and parseFactor returns straight after
   * it: a '^' that follows a negated primary ends the expression, so
   * "-2 ^ 2" reads as -2 and the exponent is never looked at.
   */
  lemma NegatedPowerDropsExponent(a: Ast, b: Ast, env: Env)
    requires WellFormed(a)
    ensures NumericValue("-" + ShowPrimary(a) + OpText(Caret) + ShowFactor(b), env) == Eval(Neg(a))
  {
    var pt := ShowPrimary(a);
    var u := "-" + pt + OpText(Caret) + ShowFactor(b);
    var end := 1 + |pt|;
    NegPowerLayout(pt, ShowFactor(b), u);
    NegParses(Neg(a), u, env, 0, end);
    TermStep(u, env, 0);
    ExprStep(u, env, 0);
    if Eval(Neg(a)).Ok? {
      TermLoopStop(u, env, end, Eval(Neg(a)).value);
      ExprLoopStop(u, env, end, Eval(Neg(a)).value);
    }
  }

  lemma NegPowerLayout(pt: string, ft: string, u: string)
    requires |pt| > 0 && Closes(pt[|pt| - 1]) && |ft| > 0 && Closes(ft[|ft| - 1]) && u == "-" + pt + OpText(Caret) + ft
    ensures Trim(u) == u && At(u, 0, "-" + pt) && Boundary(u, 1 + |pt|)
    ensures NextNotIn(u, 1 + |pt|, {'*', '/', '%'}) && NextNotIn(u, 1 + |pt|, {'+', '-'})
  {
    var n := 1 + |pt|;
    TrimKeeps(u);
    var rest := OpText(Caret) + ft;
    assert u == ("-" + pt) + rest;
    assert rest[0] == ' ' && rest[1] == '^';
    assert u[0..n] == "-" + pt && u[n] == rest[0] && u[n + 1] == rest[1];
    SkipOneSpace(u, n);
  }
  /** A decimal literal reads as its value. */
  lemma LiteralReads(n: nat, env: Env)
    requires n <= IntMax
    ensures NumericValue(NatToString(n), env) == Ok(n)
  {
    assert ShowFactor(Num(n)) == ShowPrimary(Num(n)) == NatToString(n);
    assert Show(Num(n)) == ShowTerm(Num(n)) == ShowFactor(Num(n));
    ShowRoundTrip(Num(n), env);
  }
}
