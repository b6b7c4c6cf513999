/**
 * The numeric expression parser (class Parser of Lexi.java): precedence
 * climbing over a string with a cursor. The grammar, loosest first:
 *   expression := term (('+' | '-') term)*            left-associative
 *   term       := factor (('*' | '/' | '%') factor)*  left-associative
 *   factor     := '-' primary | primary ('^' factor)?  '^' right-associative
 *   primary    := '(' expression ')'? | integer | identifier
 * A missing ')' and anything left after the expression are ignored.
 *
 * The functions below are the specification: each maps a start position to
 * the value and the position the Java method leaves `pos` at, or to the
 * failure it raises. The class Parser is the imperative original, proved to
 * agree with them.
 */
module NumericParser {
  import opened Wrappers
  import opened JavaText
  import opened JavaInt
  import opened Values
  import opened Scopes

  datatype Parsed = POk(value: int, pos: nat) | PFail(error: Error)

  /** skipWhitespace: the first position at or after `pos` that is not whitespace. */
  function SkipWs(s: string, pos: nat): (p: nat)
    requires pos <= |s|
    ensures pos <= p <= |s|
    ensures p < |s| ==> !IsJavaWhitespace(s[p])
    decreases |s| - pos
  {
    if pos < |s| && IsJavaWhitespace(s[pos]) then SkipWs(s, pos + 1) else pos
  }

  predicate IsTokenChar(c: char) { IsLetterOrDigit(c) || c == '_' }

  /** The end of the run of letters, digits and underscores that starts at `pos`. */
  function TokenEnd(s: string, pos: nat): (e: nat)
    requires pos <= |s|
    ensures pos <= e <= |s|
    ensures e < |s| ==> !IsTokenChar(s[e])
    decreases |s| - pos
  {
    if pos < |s| && IsTokenChar(s[pos]) then TokenEnd(s, pos + 1) else pos
  }

  /** The value of a primary token: an int literal, else a variable converted by toInt. */
  function TokenValue(tok: string, env: Env): (r: Result<int>)
    ensures ParseInt(tok).Some? ==> r == Ok(ParseInt(tok).value)
    ensures ParseInt(tok).None? && !env.Has(tok) ==> r == Err(NotDefined(tok))
  {
    match ParseInt(tok)
    case Some(n) => Ok(n)
    case None =>
      if !env.Has(tok) then Err(NotDefined(tok))
      else
        match env.Get(tok)
        case Some(v) => ToInt(v)
        case None => Err(InvalidNumber)
  }

  /** parsePrimary. */
  function Primary(s: string, env: Env, pos: nat): (r: Parsed)
    requires pos <= |s|
    ensures r.POk? ==> pos < r.pos <= |s|
    decreases |s| - pos, 0
  {
    var p := SkipWs(s, pos);
    if p < |s| && s[p] == '(' then
      match Expr(s, env, p + 1)
      case PFail(e) => PFail(e)
      case POk(v, q) =>
        var q' := SkipWs(s, q);
        POk(v, if q' < |s| && s[q'] == ')' then q' + 1 else q')
    else
      var e := TokenEnd(s, p);
      if e == p then PFail(UnexpectedCharacter(p))
      else
        match TokenValue(s[p..e], env)
        case Ok(n) => POk(n, e)
        case Err(err) => PFail(err)
  }

  /** parseFactor: a unary minus applies to a primary only; '^' recurses into a factor. */
  function Factor(s: string, env: Env, pos: nat): (r: Parsed)
    requires pos <= |s|
    ensures r.POk? ==> pos < r.pos <= |s|
    decreases |s| - pos, 1
  {
    var p := SkipWs(s, pos);
    if p < |s| && s[p] == '-' then
      match Primary(s, env, p + 1)
      case PFail(e) => PFail(e)
      case POk(v, q) => POk(Wrap(-v), q)
    else
      match Primary(s, env, p)
      case PFail(e) => PFail(e)
      case POk(v, q) => PowerTail(s, env, v, q)
  }

  /** The rest of parseFactor after a primary of value `v` ending at `q`: an optional '^' factor. */
  function PowerTail(s: string, env: Env, v: int, q: nat): (r: Parsed)
    requires q <= |s|
    ensures r.POk? ==> q <= r.pos <= |s|
    decreases |s| - q, 0
  {
    var q' := SkipWs(s, q);
    if q' < |s| && s[q'] == '^' then
      match Factor(s, env, q' + 1)
      case PFail(e) => PFail(e)
      case POk(x, q'') => POk(Pow(v, x), q'')
    else POk(v, q')
  }

  /** The loop of parseTerm from `pos` on, with `acc` the value so far. */
  function TermLoop(s: string, env: Env, pos: nat, acc: int): (r: Parsed)
    requires pos <= |s|
    ensures r.POk? ==> pos <= r.pos <= |s|
    decreases |s| - pos, 2
  {
    if pos >= |s| then POk(acc, pos)
    else
      var p := SkipWs(s, pos);
      if p >= |s| then POk(acc, p)
      else if s[p] == '*' then
        match Factor(s, env, p + 1)
        case PFail(e) => PFail(e)
        case POk(v, q) => TermLoop(s, env, q, Mul(acc, v))
      else if s[p] == '/' then
        match Factor(s, env, p + 1)
        case PFail(e) => PFail(e)
        case POk(v, q) => if v == 0 then PFail(DivisionByZero) else TermLoop(s, env, q, Div(acc, v))
      else if s[p] == '%' then
        match Factor(s, env, p + 1)
        case PFail(e) => PFail(e)
        case POk(v, q) => if v == 0 then PFail(ArithmeticException) else TermLoop(s, env, q, Rem(acc, v))
      else POk(acc, p)
  }

  /** parseTerm. */
  function Term(s: string, env: Env, pos: nat): (r: Parsed)
    requires pos <= |s|
    ensures r.POk? ==> pos < r.pos <= |s|
    decreases |s| - pos, 3
  {
    match Factor(s, env, pos)
    case PFail(e) => PFail(e)
    case POk(v, q) => TermLoop(s, env, q, v)
  }

  /** The loop of parseExpression from `pos` on, with `acc` the value so far. */
  function ExprLoop(s: string, env: Env, pos: nat, acc: int): (r: Parsed)
    requires pos <= |s|
    ensures r.POk? ==> pos <= r.pos <= |s|
    decreases |s| - pos, 4
  {
    if pos >= |s| then POk(acc, pos)
    else
      var p := SkipWs(s, pos);
      if p >= |s| then POk(acc, p)
      else if s[p] == '+' then
        match Term(s, env, p + 1)
        case PFail(e) => PFail(e)
        case POk(v, q) => ExprLoop(s, env, q, Wrap(acc + v))
      else if s[p] == '-' then
        match Term(s, env, p + 1)
        case PFail(e) => PFail(e)
        case POk(v, q) => ExprLoop(s, env, q, Wrap(acc - v))
      else POk(acc, p)
  }

  /** parseExpression. */
  function Expr(s: string, env: Env, pos: nat): (r: Parsed)
    requires pos <= |s|
    ensures r.POk? ==> pos < r.pos <= |s|
    decreases |s| - pos, 5
  {
    match Term(s, env, pos)
    case PFail(e) => PFail(e)
    case POk(v, q) => ExprLoop(s, env, q, v)
  }

  /**
   * evaluateNumericExpression: the trimmed text, 0 when it is empty, otherwise
   * the value of the expression that starts it; what follows is ignored.
   */
  function NumericValue(expr: string, env: Env): Result<int> {
    var e := Trim(expr);
    if e == "" then Ok(0)
    else
      match Expr(e, env, 0)
      case POk(v, _) => Ok(v)
      case PFail(err) => Err(err)
  }

  /** A text whose first character starts no number, name, sign or bracket fails at position 0. */
  lemma LeadingCharUnexpected(e: string, env: Env)
    requires |e| > 0 && Trim(e) == e
    requires !IsJavaWhitespace(e[0]) && !IsTokenChar(e[0]) && e[0] != '(' && e[0] != '-'
    ensures NumericValue(e, env) == Err(UnexpectedCharacter(0))
  {
    assert SkipWs(e, 0) == 0 && TokenEnd(e, 0) == 0;
    assert Primary(e, env, 0) == PFail(UnexpectedCharacter(0));
    assert Factor(e, env, 0) == PFail(UnexpectedCharacter(0));
    assert Expr(e, env, 0) == PFail(UnexpectedCharacter(0));
  }

  /** parseExpression's loop past the '+' or '-' at `at` and the term after it. */
  lemma ExprLoopAdvance(s: string, env: Env, pos: nat, at: nat, op: char, acc: int, v: int, q: nat)
    requires pos <= |s| && at == SkipWs(s, pos) && at < |s| && s[at] == op && (op == '+' || op == '-')
    requires Term(s, env, at + 1) == POk(v, q)
    ensures ExprLoop(s, env, pos, acc) == ExprLoop(s, env, q, if op == '+' then Wrap(acc + v) else Wrap(acc - v))
  {
  }

  /**
   * parseTerm's loop past the '*', '/' or '%' at `at` and the factor after it;
   * a zero divisor stops the loop with an error.
   */
  lemma TermLoopAdvance(s: string, env: Env, pos: nat, at: nat, op: char, acc: int, v: int, q: nat)
    requires pos <= |s| && at == SkipWs(s, pos) && at < |s| && s[at] == op && (op == '*' || op == '/' || op == '%')
    requires Factor(s, env, at + 1) == POk(v, q)
    ensures op != '*' && v == 0 ==>
      TermLoop(s, env, pos, acc) == PFail(if op == '/' then DivisionByZero else ArithmeticException)
    ensures op == '*' || v != 0 ==>
      TermLoop(s, env, pos, acc) == TermLoop(s, env, q, if op == '*' then Mul(acc, v) else if op == '/' then Div(acc, v) else Rem(acc, v))
  {
  }

  /** The rules the Parser's methods implement; the two loops carry the value so far. */
  datatype Rule = ExprRule | SumsRule(acc: int) | TermRule | ProductsRule(acc: int) | FactorRule | PrimaryRule

  /** What the specification functions give for `rule` from `pos`. */
  function Spec(s: string, env: Env, rule: Rule, pos: nat): Parsed
    requires pos <= |s|
  {
    match rule
    case ExprRule => Expr(s, env, pos)
    case SumsRule(acc) => ExprLoop(s, env, pos, acc)
    case TermRule => Term(s, env, pos)
    case ProductsRule(acc) => TermLoop(s, env, pos, acc)
    case FactorRule => Factor(s, env, pos)
    case PrimaryRule => Primary(s, env, pos)
  }

  /** A method's outcome and the cursor `pos` it leaves match the specification function's result. */
  predicate Agrees(spec: Parsed, r: Result<int>, pos: nat) {
    match spec
    case POk(v, p) => r == Ok(v) && pos == p
    case PFail(e) => r == Err(e)
  }

  /** The parser of Lexi.java: a cursor `pos` over `expr`, advanced by its methods. */
  class Parser {
    const expr: string
    const env: Env
    var pos: nat

    constructor (expr: string, env: Env)
      ensures this.expr == expr && this.env == env && pos == 0
    {
      this.expr := expr;
      this.env := env;
      pos := 0;
    }

    method SkipWhitespace()
      requires pos <= |expr|
      modifies this
      ensures pos == SkipWs(expr, old(pos))
    {
      while pos < |expr| && IsJavaWhitespace(expr[pos])
        invariant old(pos) <= pos <= |expr|
        invariant SkipWs(expr, old(pos)) == SkipWs(expr, pos)
        decreases |expr| - pos
      {
        pos := pos + 1;
      }
    }

    method ParseExpression() returns (r: Result<int>)
      requires pos <= |expr|
      modifies this
      ensures Agrees(Spec(expr, env, ExprRule, old(pos)), r, pos)
      decreases |expr| - pos, 5
    {
      var t := ParseTerm();
      if t.Err? { return Err(t.error); }
      r := ParseSums(t.value);
    }

    /** The loop of parseExpression: '+' or '-' and a term, while there is one. */
    method ParseSums(acc: int) returns (r: Result<int>)
      requires pos <= |expr|
      modifies this
      ensures Agrees(Spec(expr, env, SumsRule(acc), old(pos)), r, pos)
      decreases |expr| - pos, 4
    {
      ghost var spec := Spec(expr, env, SumsRule(acc), pos);
      var result := acc;
      while pos < |expr|
        invariant pos <= |expr|
        invariant Spec(expr, env, SumsRule(result), pos) == spec
        decreases |expr| - pos
      {
        SkipWhitespace();
        if pos >= |expr| { break; }
        var op := expr[pos];
        if op == '+' {
          pos := pos + 1;
          var t := ParseTerm();
          if t.Err? { return Err(t.error); }
          result := Wrap(result + t.value);
        } else if op == '-' {
          pos := pos + 1;
          var t := ParseTerm();
          if t.Err? { return Err(t.error); }
          result := Wrap(result - t.value);
        } else {
          break;
        }
      }
      return Ok(result);
    }

    method ParseTerm() returns (r: Result<int>)
      requires pos <= |expr|
      modifies this
      ensures Agrees(Spec(expr, env, TermRule, old(pos)), r, pos)
      decreases |expr| - pos, 3
    {
      var f := ParseFactor();
      if f.Err? { return Err(f.error); }
      r := ParseProducts(f.value);
    }

    /** The loop of parseTerm: '*', '/' or '%' and a factor, while there is one. */
    method ParseProducts(acc: int) returns (r: Result<int>)
      requires pos <= |expr|
      modifies this
      ensures Agrees(Spec(expr, env, ProductsRule(acc), old(pos)), r, pos)
      decreases |expr| - pos, 2
    {
      ghost var spec := Spec(expr, env, ProductsRule(acc), pos);
      var result := acc;
      while pos < |expr|
        invariant pos <= |expr|
        invariant Spec(expr, env, ProductsRule(result), pos) == spec
        decreases |expr| - pos
      {
        SkipWhitespace();
        if pos >= |expr| { break; }
        var op := expr[pos];
        if op == '*' {
          pos := pos + 1;
          var f := ParseFactor();
          if f.Err? { return Err(f.error); }
          result := Mul(result, f.value);
        } else if op == '/' {
          pos := pos + 1;
          var divisor := ParseFactor();
          if divisor.Err? { return Err(divisor.error); }
          if divisor.value == 0 { return Err(DivisionByZero); }
          result := Div(result, divisor.value);
        } else if op == '%' {
          pos := pos + 1;
          var f := ParseFactor();
          if f.Err? { return Err(f.error); }
          if f.value == 0 { return Err(ArithmeticException); }
          result := Rem(result, f.value);
        } else {
          break;
        }
      }
      return Ok(result);
    }

    method ParseFactor() returns (r: Result<int>)
      requires pos <= |expr|
      modifies this
      ensures Agrees(Spec(expr, env, FactorRule, old(pos)), r, pos)
      decreases |expr| - pos, 1
    {
      SkipWhitespace();
      if pos < |expr| && expr[pos] == '-' {
        pos := pos + 1;
        var p := ParsePrimary();
        if p.Err? { return Err(p.error); }
        return Ok(Wrap(-p.value));
      }
      var p := ParsePrimary();
      if p.Err? { return Err(p.error); }
      var result := p.value;
      ghost var tail := PowerTail(expr, env, result, pos);
      SkipWhitespace();
      if pos < |expr| && expr[pos] == '^' {
        pos := pos + 1;
        var exponent := ParseFactor();
        if exponent.Err? { return Err(exponent.error); }
        result := Pow(result, exponent.value);
      }
      return Ok(result);
    }

    method ParsePrimary() returns (r: Result<int>)
      requires pos <= |expr|
      modifies this
      ensures Agrees(Spec(expr, env, PrimaryRule, old(pos)), r, pos)
      decreases |expr| - pos, 0
    {
      SkipWhitespace();
      if pos < |expr| && expr[pos] == '(' {
        pos := pos + 1;
        var inner := ParseExpression();
        if inner.Err? { return Err(inner.error); }
        SkipWhitespace();
        if pos < |expr| && expr[pos] == ')' {
          pos := pos + 1;
        }
        return Ok(inner.value);
      }
      var tokenStart := pos;
      while pos < |expr| && IsTokenChar(expr[pos])
        invariant tokenStart <= pos <= |expr|
        invariant TokenEnd(expr, tokenStart) == TokenEnd(expr, pos)
        decreases |expr| - pos
      {
        pos := pos + 1;
      }
      if pos == tokenStart {
        return Err(UnexpectedCharacter(pos));
      }
      var v := TokenValue(expr[tokenStart..pos], env);
      if v.Err? { return Err(v.error); }
      return Ok(v.value);
    }
  }

  /** evaluateNumericExpression, running the Parser over the trimmed text. */
  method EvaluateNumericExpression(expr: string, env: Env) returns (r: Result<int>)
    ensures r == NumericValue(expr, env)
  {
    var e := Trim(expr);
    if e == "" { return Ok(0); }
    var parser := new Parser(e, env);
    r := parser.ParseExpression();
  }
}
