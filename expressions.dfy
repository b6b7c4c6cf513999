/**
 * The expression front end of Lexi.java: evaluateExpression picks one of
 * three readings of a trimmed expression (a quoted literal, a string
 * concatenation, a numeric expression); hasStringVariable decides whether an
 * expression with a '+' is a concatenation; evaluateStringConcatenation is a
 * left-to-right scanner that flushes the text it has gathered at quotes and
 * at unquoted '+' signs.
 */
module Expressions {
  import opened Wrappers
  import opened JavaText
  import opened JavaInt
  import opened Values
  import opened Scopes
  import opened NumericParser
  import opened NumericGrammar

  /** The character class hasStringVariable splits an expression at. */
  const OperatorChars: set<char> := {'+', '-', '*', '/', '(', ')', '%', '^'}

  /** `name` is bound somewhere in the chain or the globals, to a String. */
  predicate IsStringVariable(name: string, env: Env) {
    env.Has(name) && env.Get(name).Some? && env.Get(name).value.TextVal?
  }

  /** hasStringVariable: some piece between operator characters, trimmed, names a String variable. */
  predicate HasStringVariable(expr: string, env: Env) {
    AnyStringVariable(SplitOn(expr, OperatorChars), env)
  }

  predicate AnyStringVariable(tokens: seq<string>, env: Env) {
    exists k :: 0 <= k < |tokens| && NamesString(tokens[k], env)
  }

  /** The token, trimmed, names a String variable. */
  predicate NamesString(token: string, env: Env) {
    IsStringVariable(Trim(token), env)
  }

  /** The loop of hasStringVariable over the pieces, stopping at the first String variable. */
  method FindStringVariable(expr: string, env: Env) returns (found: bool)
    ensures found == HasStringVariable(expr, env)
  {
    var tokens := SplitOn(expr, OperatorChars);
    for k := 0 to |tokens|
      invariant forall j :: 0 <= j < k ==> !NamesString(tokens[j], env)
    {
      if NamesString(tokens[k], env) {
        assert AnyStringVariable(tokens, env);
        return true;
      }
    }
    return false;
  }

  /** An expression without operator characters has one piece: it is the variable's name or nothing. */
  lemma StringVariableAlone(expr: string, env: Env)
    requires forall i :: 0 <= i < |expr| ==> expr[i] !in OperatorChars
    ensures HasStringVariable(expr, env) <==> IsStringVariable(Trim(expr), env)
  {
    assert forall c :: c in expr ==> c !in OperatorChars;
    var tokens := SplitOn(expr, OperatorChars);
    assert tokens == [expr];
    assert tokens[0] == expr;
  }

  /** The first piece of a split is the text before the first separator. */
  lemma {:induction false} FirstPiece(s: string, seps: set<char>, k: nat)
    requires k < |s| && s[k] in seps && forall i :: 0 <= i < k ==> s[i] !in seps
    ensures Pieces(s, seps)[0] == s[..k]
    decreases k
  {
    if k > 0 {
      FirstPiece(s[1..], seps, k - 1);
      assert [s[0]] + s[1..][..k - 1] == s[..k];
    }
  }

  /** When a separator occurs, split's first element is the non-empty text before the first one. */
  lemma SplitHead(s: string, seps: set<char>, k: nat)
    requires 0 < k < |s| && s[k] in seps && forall i :: 0 <= i < k ==> s[i] !in seps
    ensures |SplitOn(s, seps)| > 0 && SplitOn(s, seps)[0] == s[..k]
  {
    FirstPiece(s, seps, k);
    var ps := Pieces(s, seps);
    var r := SplitOn(s, seps);
    assert r == DropTrailingEmpty(ps);
    assert ps[0] != "";
  }

  /** A String variable written first, before an operator character, is found. */
  lemma LeadingStringVariable(x: string, rest: string, env: Env)
    requires |rest| > 0 && rest[0] in OperatorChars && forall i :: 0 <= i < |x| ==> x[i] !in OperatorChars
    requires IsStringVariable(Trim(x), env) && Trim(x) != ""
    ensures HasStringVariable(x + rest, env)
  {
    var s := x + rest;
    assert s[|x|] == rest[0] && s[..|x|] == x;
    SplitHead(s, OperatorChars, |x|);
    assert SplitOn(s, OperatorChars)[0] == x;
  }

  /** What the concatenation scanner carries from one character to the next. */
  datatype ScanState = ScanState(result: string, current: string, inQuotes: bool)

  const ScanStart: ScanState := ScanState("", "", false)

  /**
   * The text an unquoted segment contributes when a '+' or the end of the
   * expression flushes it: the rendering of the variable it names, else the
   * integer `num` evaluates it to, else (the failure being caught) the
   * segment itself.
   */
  function FlushText(part: string, env: Env, num: string -> Result<int>): string {
    if env.Has(part) then
      HasVariableSpec(env.chain, env.globals, part);
      FormatValue(env.Get(part).value)
    else
      match num(part)
      case Ok(n) => IntToString(n)
      case Err(_) => part
  }

  /**
   * One character of the scanner. A closing quote moves the quoted text to the
   * result; an opening quote first evaluates the gathered text as a numeric
   * expression, whose failure is not caught; an unquoted '+' flushes the
   * gathered text; any other character is gathered.
   */
  function ScanStep(c: char, st: ScanState, env: Env, num: string -> Result<int>): Result<ScanState> {
    if c == '"' then
      if st.inQuotes then Ok(ScanState(st.result + st.current, "", false))
      else
        var part := Trim(st.current);
        if |st.current| > 0 && part != "" && part != "+" then
          match num(part)
          case Ok(n) => Ok(ScanState(st.result + IntToString(n), "", true))
          case Err(e) => Err(e)
        else Ok(ScanState(st.result, "", true))
    else if c == '+' && !st.inQuotes then
      if |st.current| > 0 then
        var part := Trim(st.current);
        Ok(ScanState(if part != "" then st.result + FlushText(part, env, num) else st.result, "", false))
      else Ok(st)
    else Ok(ScanState(st.result, st.current + [c], st.inQuotes))
  }

  /** The state after scanning all of `s`, or the failure that stopped the scan. */
  function Run(s: string, st: ScanState, env: Env, num: string -> Result<int>): Result<ScanState>
    decreases |s|
  {
    if s == [] then Ok(st)
    else
      match ScanStep(s[0], st, env, num)
      case Err(e) => Err(e)
      case Ok(st') => Run(s[1..], st', env, num)
  }

  /** After the last character, the gathered text is flushed as at a '+' (unless it is a lone "+"). */
  function ScanFinish(st: ScanState, env: Env, num: string -> Result<int>): string {
    var part := Trim(st.current);
    if |st.current| > 0 && part != "" && part != "+" then st.result + FlushText(part, env, num) else st.result
  }

  /** The numeric evaluator the scanner calls: evaluateNumericExpression over `env`. */
  function NumericOf(env: Env): string -> Result<int> {
    p => NumericValue(p, env)
  }

  /** evaluateStringConcatenation. */
  function Concatenation(expr: string, env: Env): Result<string> {
    match Run(expr, ScanStart, env, NumericOf(env))
    case Err(e) => Err(e)
    case Ok(st) => Ok(ScanFinish(st, env, NumericOf(env)))
  }

  /** The flush of an unquoted segment, evaluating it with the Parser when it names no variable. */
  method FlushSegment(part: string, env: Env) returns (t: string)
    ensures t == FlushText(part, env, NumericOf(env))
  {
    if env.Has(part) {
      HasVariableSpec(env.chain, env.globals, part);
      t := FormatValue(env.Get(part).value);
    } else {
      var v := EvaluateNumericExpression(part, env);
      t := if v.Ok? then IntToString(v.value) else part;
    }
  }

  /** The StringBuilder scanner of evaluateStringConcatenation, one character per iteration. */
  method EvaluateStringConcatenation(expr: string, env: Env) returns (r: Result<string>)
    ensures r == Concatenation(expr, env)
  {
    var result, current, inQuotes := "", "", false;
    for i := 0 to |expr|
      invariant Run(expr[i..], ScanState(result, current, inQuotes), env, NumericOf(env)) == Run(expr, ScanStart, env, NumericOf(env))
    {
      var c := expr[i];
      assert expr[i..][0] == c && expr[i..][1..] == expr[i + 1..];
      if c == '"' {
        if inQuotes {
          result, current, inQuotes := result + current, "", false;
        } else {
          if |current| > 0 {
            var part := Trim(current);
            if part != "" && part != "+" {
              var v := EvaluateNumericExpression(part, env);
              if v.Err? {
                return Err(v.error);
              }
              result := result + IntToString(v.value);
            }
            current := "";
          }
          inQuotes := true;
        }
      } else if c == '+' && !inQuotes {
        if |current| > 0 {
          var part := Trim(current);
          if part != "" {
            var t := FlushSegment(part, env);
            result := result + t;
          }
          current := "";
        }
      } else {
        current := current + [c];
      }
    }
    assert expr[|expr|..] == [];
    if |current| > 0 {
      var part := Trim(current);
      if part != "" && part != "+" {
        var t := FlushSegment(part, env);
        result := result + t;
      }
    }
    return Ok(result);
  }

  /**
   * evaluateExpression: a trimmed text that starts and ends with a quote is
   * a literal whose inner text is returned verbatim (a lone quote makes
   * substring fail); a text with a '+' and a quote or a String variable is a
   * concatenation; anything else is a numeric expression. No reading yields
   * a list.
   */
  function EvaluateExpression(expr: string, env: Env): (r: Result<Value>)
    ensures r.Ok? ==> !r.value.ListVal?
    ensures r.Ok? && r.value.TextVal? ==> Contains(Trim(expr), "\"") || HasStringVariable(Trim(expr), env)
  {
    var e := Trim(expr);
    if StartsWith(e, "\"") && EndsWith(e, "\"") then
      if |e| < 2 then Err(IndexOutOfBounds) else Ok(TextVal(e[1..|e| - 1]))
    else if Contains(e, "+") && (Contains(e, "\"") || HasStringVariable(e, env)) then
      match Concatenation(e, env)
      case Ok(t) => Ok(TextVal(t))
      case Err(x) => Err(x)
    else
      match NumericValue(e, env)
      case Ok(n) => Ok(IntVal(n))
      case Err(x) => Err(x)
  }

  /** A trimmed text that is no quoted literal and holds no '+' is read as a numeric expression. */
  lemma NumericReading(e: string, env: Env)
    requires Trim(e) == e && !StartsWith(e, "\"") && !Contains(e, "+")
    ensures EvaluateExpression(e, env) == match NumericValue(e, env) case Ok(n) => Ok(IntVal(n)) case Err(x) => Err(x)
  {
  }

  /** A text that is no quoted literal is read as a concatenation or as a numeric expression. */
  lemma UnquotedReading(expr: string, env: Env)
    requires !(StartsWith(Trim(expr), "\"") && EndsWith(Trim(expr), "\""))
    ensures var e := Trim(expr);
      EvaluateExpression(expr, env) ==
        if Contains(e, "+") && (Contains(e, "\"") || HasStringVariable(e, env)) then
          match Concatenation(e, env) case Ok(t) => Ok(TextVal(t)) case Err(x) => Err(x)
        else
          match NumericValue(e, env) case Ok(n) => Ok(IntVal(n)) case Err(x) => Err(x)
  {
  }

  /**
   * evaluateExpression as the interpreter runs it: hasStringVariable is only
   * consulted when the text holds a '+' and no quote, as `||` short-circuits.
   */
  method Evaluate(expr: string, env: Env) returns (r: Result<Value>)
    ensures r == EvaluateExpression(expr, env)
  {
    var e := Trim(expr);
    if StartsWith(e, "\"") && EndsWith(e, "\"") {
      if |e| < 2 {
        return Err(IndexOutOfBounds);
      }
      return Ok(TextVal(e[1..|e| - 1]));
    }
    var concatenation := IsConcatenation(e, env);
    UnquotedReading(expr, env);
    if concatenation {
      var t := EvaluateStringConcatenation(e, env);
      r := if t.Ok? then Ok(TextVal(t.value)) else Err(t.error);
    } else {
      var n := EvaluateNumericExpression(e, env);
      r := if n.Ok? then Ok(IntVal(n.value)) else Err(n.error);
    }
  }

  /** The test that sends a text to the concatenation evaluator, with `||` short-circuiting. */
  method IsConcatenation(e: string, env: Env) returns (b: bool)
    ensures b == (Contains(e, "+") && (Contains(e, "\"") || HasStringVariable(e, env)))
  {
    b := false;
    if Contains(e, "+") {
      if Contains(e, "\"") {
        b := true;
      } else {
        b := FindStringVariable(e, env);
      }
    }
  }

  /** Text between two quotes evaluates to itself, whatever it holds: `"a" + "b"` is the text a" + "b. */
  lemma QuotedLiteral(t: string, env: Env)
    ensures EvaluateExpression("\"" + t + "\"", env) == Ok(TextVal(t))
  {
    var e := "\"" + t + "\"";
    TrimKeeps(e);
    assert e[1..|e| - 1] == t;
  }

  /**
   * A variable holding text that is not an int literal cannot be evaluated on
   * its own: with no '+' the text goes to the numeric parser, whose toInt
   * rejects it.
   */
  lemma BareTextVariableFails(x: string, s: string, env: Env)
    requires IsName(x) && env.Get(x) == Some(TextVal(s)) && ParseInt(s).None?
    ensures EvaluateExpression(x, env) == Err(CannotConvert(s))
  {
    NameLayout(x);
    ContainsChar(x, '+');
    assert '+' !in x;
    HasVariableSpec(env.chain, env.globals, x);
    NameReads(x, env);
  }

  /** The operands a concatenation is written with. */
  datatype Operand =
    | Quoted(text: string)
    | Variable(name: string)
    | Literal(n: nat)

  /** How the operand is written. */
  function Source(o: Operand): string {
    match o
    case Quoted(t) => "\"" + t + "\""
    case Variable(x) => x
    case Literal(n) => NatToString(n)
  }

  /**
   * The text the operand stands for: a quoted text itself, a variable's
   * rendering (an unbound name stands for itself), a literal its digits.
   */
  function Rendered(o: Operand, env: Env): string {
    match o
    case Quoted(t) => t
    case Variable(x) =>
      (match env.Get(x)
       case Some(v) => FormatValue(v)
       case None => x)
    case Literal(n) => NatToString(n)
  }

  /** A quoted text holds no quote; a literal is an int and is not itself the name of a variable. */
  predicate WellFormedOperand(o: Operand, env: Env) {
    match o
    case Quoted(t) => '"' !in t
    case Variable(x) => IsName(x)
    case Literal(n) => n <= IntMax && !env.Has(NatToString(n))
  }

  /** Operands joined by " + ". */
  function JoinSource(ops: seq<Operand>): string
    requires |ops| > 0
  {
    if |ops| == 1 then Source(ops[0]) else Source(ops[0]) + " + " + JoinSource(ops[1..])
  }

  /** What a concatenation means: the texts of its operands, one after the other. */
  function JoinRendered(ops: seq<Operand>, env: Env): string {
    if |ops| == 0 then "" else Rendered(ops[0], env) + JoinRendered(ops[1..], env)
  }

  predicate Blank(w: string) {
    forall i :: 0 <= i < |w| ==> w[i] == ' '
  }

  /** No quote, and no '+' unless inside quotes: the scanner only gathers such text. */
  predicate Plain(x: string, inQuotes: bool) {
    forall i :: 0 <= i < |x| ==> x[i] != '"' && (inQuotes || x[i] != '+')
  }

  /** Scanning `x` then `y` is scanning `y` from the state `x` leaves. */
  lemma {:induction false} RunAppend(x: string, y: string, st: ScanState, env: Env, num: string -> Result<int>)
    ensures Run(x + y, st, env, num) ==
      match Run(x, st, env, num)
      case Err(e) => Err(e)
      case Ok(st') => Run(y, st', env, num)
    decreases |x|
  {
    if x == [] {
      assert x + y == y;
    } else {
      assert (x + y)[0] == x[0] && (x + y)[1..] == x[1..] + y;
      match ScanStep(x[0], st, env, num)
      case Err(e) =>
      case Ok(st') => RunAppend(x[1..], y, st', env, num);
    }
  }

  /** Plain text is gathered as it is. */
  lemma {:induction false} RunPlain(x: string, st: ScanState, env: Env, num: string -> Result<int>)
    requires Plain(x, st.inQuotes)
    ensures Run(x, st, env, num) == Ok(ScanState(st.result, st.current + x, st.inQuotes))
    decreases |x|
  {
    if x != [] {
      var st' := ScanState(st.result, st.current + [x[0]], st.inQuotes);
      assert ScanStep(x[0], st, env, num) == Ok(st');
      assert Plain(x[1..], st.inQuotes) by {
        forall i | 0 <= i < |x[1..]| ensures x[1..][i] == x[i + 1] { }
      }
      assert Run(x, st, env, num) == Run(x[1..], st', env, num);
      RunPlain(x[1..], st', env, num);
      assert st.current + [x[0]] + x[1..] == st.current + x;
    } else {
      assert st.current + x == st.current;
    }
  }

  /** The separator " + " flushes what was gathered before it and leaves one blank gathered. */
  lemma RunSeparator(st: ScanState, env: Env, num: string -> Result<int>)
    requires !st.inQuotes
    ensures var part := Trim(st.current + " ");
      Run(" + ", st, env, num) == Ok(ScanState(if part != "" then st.result + FlushText(part, env, num) else st.result, " ", false))
  {
    var s1 := ScanState(st.result, st.current + " ", false);
    assert ScanStep(' ', st, env, num) == Ok(s1);
    var part := Trim(st.current + " ");
    var s2 := ScanState(if part != "" then st.result + FlushText(part, env, num) else st.result, "", false);
    assert ScanStep('+', s1, env, num) == Ok(s2);
    var s3 := ScanState(s2.result, " ", false);
    assert "" + [' '] == " ";
    assert ScanStep(' ', s2, env, num) == Ok(s3);
    assert " + "[1..] == "+ " && "+ "[1..] == " " && " "[1..] == "";
  }

  /** A quoted operand, after blanks, adds its text to the result. */
  lemma RunQuoted(t: string, res: string, w: string, env: Env, num: string -> Result<int>)
    requires '"' !in t && Blank(w)
    ensures Run(Source(Quoted(t)), ScanState(res, w, false), env, num) == Ok(ScanState(res + t, "", false))
  {
    var st := ScanState(res, w, false);
    var s1 := ScanState(res, "", true);
    TrimPadded(w, "", "");
    assert w + "" + "" == w;
    assert ScanStep('"', st, env, num) == Ok(s1);
    assert Run("\"", st, env, num) == Ok(s1);
    RunAppend("\"", t + "\"", st, env, num);
    RunPlain(t, s1, env, num);
    RunAppend(t, "\"", s1, env, num);
    assert "" + t == t;
    var s2 := ScanState(res, t, true);
    assert ScanStep('"', s2, env, num) == Ok(ScanState(res + t, "", false));
    assert Run("\"", s2, env, num) == Ok(ScanState(res + t, "", false));
    assert "\"" + t + "\"" == "\"" + (t + "\"");
  }

  /** A variable or literal operand is written with identifier characters only. */
  lemma TokenText(o: Operand, w: string, v: string)
    requires (o.Variable? && IsName(o.name)) || o.Literal?
    requires Blank(w) && Blank(v)
    ensures Plain(Source(o), false) && Trim(w + Source(o) + v) == Source(o) != "" && Source(o) != "+"
  {
    var x := Source(o);
    assert forall i :: 0 <= i < |x| ==> IsTokenChar(x[i]) by {
      if o.Literal? {
        assert AllDigits(x);
      }
    }
    assert Plain(x, false);
    assert AllTrimmed(w) && AllTrimmed(v);
    TrimPadded(w, x, v);
    assert x[0] != '+';
  }

  /** Flushing a name yields its variable's rendering, or the name itself when nothing binds it. */
  lemma VariableFlush(x: string, env: Env, num: string -> Result<int>)
    requires ReadsOperands(env, num) && IsName(x)
    ensures FlushText(x, env, num) == Rendered(Variable(x), env)
  {
    HasVariableSpec(env.chain, env.globals, x);
  }

  /** Flushing a literal that names no variable yields its digits. */
  lemma LiteralFlush(n: nat, env: Env, num: string -> Result<int>)
    requires ReadsOperands(env, num) && n <= IntMax && !env.Has(NatToString(n))
    ensures FlushText(NatToString(n), env, num) == NatToString(n)
  {
    assert IntToString(n) == NatToString(n);
  }

  /** Flushing a well-formed variable or literal operand yields its rendering. */
  lemma TokenFlush(o: Operand, env: Env, num: string -> Result<int>)
    requires ReadsOperands(env, num) && (o.Variable? || o.Literal?) && WellFormedOperand(o, env)
    ensures FlushText(Source(o), env, num) == Rendered(o, env)
  {
    if o.Variable? {
      VariableFlush(o.name, env, num);
    } else {
      LiteralFlush(o.n, env, num);
    }
  }

  /** The scanner's state after an operand: a quoted text is in the result, a token is gathered after the blanks. */
  function AfterOperand(o: Operand, res: string, w: string): ScanState {
    if o.Quoted? then ScanState(res + o.text, "", false) else ScanState(res, w + Source(o), false)
  }

  lemma RunOperand(o: Operand, res: string, w: string, env: Env, num: string -> Result<int>)
    requires WellFormedOperand(o, env) && Blank(w)
    ensures Run(Source(o), ScanState(res, w, false), env, num) == Ok(AfterOperand(o, res, w))
  {
    if o.Quoted? {
      RunQuoted(o.text, res, w, env, num);
    } else {
      TokenText(o, w, "");
      RunPlain(Source(o), ScanState(res, w, false), env, num);
    }
  }

  /** The end of the expression flushes a last operand into its rendering. */
  lemma FinishOperand(o: Operand, res: string, w: string, env: Env, num: string -> Result<int>)
    requires ReadsOperands(env, num) && WellFormedOperand(o, env) && Blank(w)
    ensures ScanFinish(AfterOperand(o, res, w), env, num) == res + Rendered(o, env)
  {
    if !o.Quoted? {
      TokenText(o, w, "");
      assert w + Source(o) + "" == w + Source(o);
      TokenFlush(o, env, num);
    }
  }

  /** The " + " after an operand flushes it into its rendering. */
  /** Scanning `s` from `st` succeeds with `st'`. */
  predicate RunsTo(s: string, st: ScanState, env: Env, num: string -> Result<int>, st': ScanState) {
    Run(s, st, env, num) == Ok(st')
  }

  lemma SeparatorAfterOperand(o: Operand, res: string, w: string, env: Env, num: string -> Result<int>)
    requires ReadsOperands(env, num) && WellFormedOperand(o, env) && Blank(w)
    ensures RunsTo(" + ", AfterOperand(o, res, w), env, num, ScanState(res + Rendered(o, env), " ", false))
  {
    var st := AfterOperand(o, res, w);
    RunSeparator(st, env, num);
    if o.Quoted? {
      SeparatorAfterQuoted(o, res, w, env, num);
    } else {
      TokenText(o, w, " ");
      TokenFlush(o, env, num);
    }
  }

  lemma SeparatorAfterQuoted(o: Operand, res: string, w: string, env: Env, num: string -> Result<int>)
    requires o.Quoted?
    ensures var st := AfterOperand(o, res, w);
      (if Trim(st.current + " ") != "" then st.result + FlushText(Trim(st.current + " "), env, num) else st.result)
      == res + Rendered(o, env)
  {
    TrimPadded(" ", "", "");
    assert "" + " " == " " + "" + "";
  }

  /**
   * What the proofs below need of the numeric evaluator: a literal reads as
   * its value and a name nothing binds fails.
   */
  ghost predicate ReadsOperands(env: Env, num: string -> Result<int>) {
    (forall n: nat :: n <= IntMax ==> num(NatToString(n)) == Ok(n)) &&
    (forall x :: IsName(x) && !env.Has(x) ==> num(x).Err?)
  }

  lemma NumericOfReads(env: Env)
    ensures ReadsOperands(env, NumericOf(env))
  {
    forall n: nat | n <= IntMax
      ensures NumericOf(env)(NatToString(n)) == Ok(n)
    {
      LiteralReads(n, env);
    }
    forall x | IsName(x) && !env.Has(x)
      ensures NumericOf(env)(x).Err?
    {
      UndefinedName(x, env);
    }
  }

  /** Scanning `s` from `st` succeeds and, after the final flush, yields `t`. */
  predicate ScansTo(s: string, st: ScanState, env: Env, num: string -> Result<int>, t: string) {
    Run(s, st, env, num).Ok? && ScanFinish(Run(s, st, env, num).value, env, num) == t
  }

  predicate AllWellFormed(ops: seq<Operand>, env: Env) {
    forall k :: 0 <= k < |ops| ==> WellFormedOperand(ops[k], env)
  }

  /** Scanning operands joined by " + ", after blanks, appends what they mean to the result. */
  lemma {:induction false} ScanOperands(ops: seq<Operand>, res: string, w: string, env: Env, num: string -> Result<int>)
    requires ReadsOperands(env, num) && |ops| > 0 && Blank(w) && AllWellFormed(ops, env)
    ensures ScansTo(JoinSource(ops), ScanState(res, w, false), env, num, res + JoinRendered(ops, env))
    decreases |ops|
  {
    if |ops| == 1 {
      ScanLastOperand(ops, res, w, env, num);
    } else {
      assert AllWellFormed(ops[1..], env);
      ScanOperands(ops[1..], res + Rendered(ops[0], env), " ", env, num);
      JoinRenderedCons(ops, res, env);
      ScanNextOperand(ops, res, w, env, num);
    }
  }

  lemma ScanLastOperand(ops: seq<Operand>, res: string, w: string, env: Env, num: string -> Result<int>)
    requires ReadsOperands(env, num) && |ops| == 1 && Blank(w) && WellFormedOperand(ops[0], env)
    ensures ScansTo(JoinSource(ops), ScanState(res, w, false), env, num, res + JoinRendered(ops, env))
  {
    var o := ops[0];
    RunOperand(o, res, w, env, num);
    FinishOperand(o, res, w, env, num);
    assert JoinSource(ops) == Source(o);
    assert JoinRendered(ops, env) == Rendered(o, env) + "";
  }

  /** The first operand and its separator, then the rest from the state they leave. */
  lemma ScanNextOperand(ops: seq<Operand>, res: string, w: string, env: Env, num: string -> Result<int>)
    requires ReadsOperands(env, num) && |ops| > 1 && Blank(w) && WellFormedOperand(ops[0], env)
    requires ScansTo(JoinSource(ops[1..]), ScanState(res + Rendered(ops[0], env), " ", false), env, num, res + JoinRendered(ops, env))
    ensures ScansTo(JoinSource(ops), ScanState(res, w, false), env, num, res + JoinRendered(ops, env))
  {
    RunNextOperand(ops, res, w, env, num);
  }

  lemma JoinRenderedCons(ops: seq<Operand>, res: string, env: Env)
    requires |ops| > 0
    ensures res + Rendered(ops[0], env) + JoinRendered(ops[1..], env) == res + JoinRendered(ops, env)
  {
  }

  lemma RunNextOperand(ops: seq<Operand>, res: string, w: string, env: Env, num: string -> Result<int>)
    requires ReadsOperands(env, num) && |ops| > 1 && Blank(w) && WellFormedOperand(ops[0], env)
    ensures Run(JoinSource(ops), ScanState(res, w, false), env, num)
      == Run(JoinSource(ops[1..]), ScanState(res + Rendered(ops[0], env), " ", false), env, num)
  {
    var o := ops[0];
    var st := ScanState(res, w, false);
    var st1 := AfterOperand(o, res, w);
    var st2 := ScanState(res + Rendered(o, env), " ", false);
    var rest := JoinSource(ops[1..]);
    assert JoinSource(ops) == Source(o) + (" + " + rest);
    RunOperand(o, res, w, env, num);
    RunAppendOk(Source(o), " + " + rest, st, st1, env, num);
    SeparatorAfterOperand(o, res, w, env, num);
    RunAppendOk(" + ", rest, st1, st2, env, num);
  }

  lemma RunAppendOk(x: string, y: string, st: ScanState, st': ScanState, env: Env, num: string -> Result<int>)
    requires Run(x, st, env, num) == Ok(st')
    ensures Run(x + y, st, env, num) == Run(y, st', env, num)
  {
    RunAppend(x, y, st, env, num);
  }

  /** A concatenation of well-formed operands yields their texts in order. */
  lemma ConcatenationMeaning(ops: seq<Operand>, env: Env)
    requires |ops| > 0 && AllWellFormed(ops, env)
    ensures Concatenation(JoinSource(ops), env) == Ok(JoinRendered(ops, env))
  {
    NumericOfReads(env);
    ScanOperands(ops, "", "", env, NumericOf(env));
    assert "" + JoinRendered(ops, env) == JoinRendered(ops, env);
  }
  lemma SourceEnds(o: Operand, env: Env)
    requires WellFormedOperand(o, env)
    ensures |Source(o)| > 0 && !IsTrimmed(Source(o)[0]) && !IsTrimmed(Source(o)[|Source(o)| - 1])
    ensures o.Quoted? <==> Source(o)[0] == '"'
    ensures o.Quoted? <==> Source(o)[|Source(o)| - 1] == '"'
  {
    if o.Literal? {
      var x := Source(o);
      assert IsDigit(x[0]) && IsDigit(x[|x| - 1]);
    }
  }

  /** A joined expression ends with the last character of its last operand. */
  lemma {:induction false} JoinSourceLast(ops: seq<Operand>, c: char)
    requires |ops| > 0
    requires var l := Source(ops[|ops| - 1]); |l| > 0 && l[|l| - 1] == c
    ensures var j := JoinSource(ops); |j| > 0 && j[|j| - 1] == c
    decreases |ops|
  {
    if |ops| > 1 {
      assert ops[1..][|ops| - 2] == ops[|ops| - 1];
      JoinSourceLast(ops[1..], c);
      var head := Source(ops[0]) + " + ";
      var rest := JoinSource(ops[1..]);
      assert JoinSource(ops) == head + rest;
    }
  }

  /** A quoted operand puts a quote into the joined expression. */
  lemma {:induction false} QuoteInJoin(ops: seq<Operand>, k: nat)
    requires k < |ops| && ops[k].Quoted?
    ensures '"' in JoinSource(ops)
    decreases k
  {
    if k == 0 {
      assert Source(ops[0])[0] == '"';
      if |ops| > 1 {
        assert JoinSource(ops)[0] == Source(ops[0])[0];
      }
    } else {
      QuoteInJoin(ops[1..], k - 1);
      assert JoinSource(ops) == Source(ops[0]) + " + " + JoinSource(ops[1..]);
    }
  }

  /**
   * Operands joined by " + ", one of them quoted, make a concatenation
   * (unless the text both starts and ends with a quote, which reads as one
   * literal), and evaluate to the operands' texts in order.
   */
  lemma ConcatenationExpression(ops: seq<Operand>, k: nat, env: Env)
    requires |ops| >= 2 && AllWellFormed(ops, env) && k < |ops| && ops[k].Quoted?
    requires !ops[0].Quoted? || !ops[|ops| - 1].Quoted?
    ensures EvaluateExpression(JoinSource(ops), env) == Ok(TextVal(JoinRendered(ops, env)))
  {
    var j := JoinSource(ops);
    var first, last := Source(ops[0]), Source(ops[|ops| - 1]);
    SourceEnds(ops[0], env);
    SourceEnds(ops[|ops| - 1], env);
    assert j == first + " + " + JoinSource(ops[1..]);
    JoinSourceLast(ops, last[|last| - 1]);
    assert j[0] == first[0];
    TrimKeeps(j);
    assert j[|first| + 1] == '+';
    ContainsChar(j, '+');
    QuoteInJoin(ops, k);
    ContainsChar(j, '"');
    assert !(StartsWith(j, "\"") && EndsWith(j, "\"")) by {
      if StartsWith(j, "\"") && EndsWith(j, "\"") {
        assert false;
      }
    }
    ConcatenationMeaning(ops, env);
  }

  const ScoreOperands: seq<Operand> := [Quoted("Score: "), Literal(10), Literal(5)]

  lemma ScoreSource()
    ensures JoinSource(ScoreOperands) == "\"Score: \" + 10 + 5"
  {
    var ops := ScoreOperands;
    assert NatToString(10) == "10" && NatToString(5) == "5";
    assert ops[1..][1..] == [Literal(5)];
  }

  lemma ScoreRendered(env: Env)
    ensures JoinRendered(ScoreOperands, env) == "Score: 105"
  {
    var ops := ScoreOperands;
    assert NatToString(10) == "10" && NatToString(5) == "5";
    assert ops[1..][1..] == [Literal(5)] && ops[1..][1..][1..] == [];
    assert JoinRendered([Literal(5)], env) == "5";
    assert JoinRendered(ops[1..], env) == "10" + "5";
  }

  /** `"Score: " + 10 + 5` is the text Score: 105, each unquoted operand being flushed on its own. */
  lemma ScoreExample(env: Env)
    requires !env.Has("10") && !env.Has("5")
    ensures EvaluateExpression("\"Score: \" + 10 + 5", env) == Ok(TextVal("Score: 105"))
  {
    assert NatToString(10) == "10" && NatToString(5) == "5";
    assert AllWellFormed(ScoreOperands, env);
    ScoreSource();
    ScoreRendered(env);
    ConcatenationExpression(ScoreOperands, 0, env);
  }
}
