/**
 * evaluateCondition: the condition of if, elseif, while and repeat. The
 * trimmed text is split at the first occurrence of the first comparison
 * operator, in the order == != >= <= > <, that it contains; both sides are
 * evaluated as expressions. Two ints are compared; when either side is text,
 * == and != compare the renderings and any other operator falls through to
 * the next one in the list. A condition that no operator decides is false.
 */
module Conditions {
  import opened Wrappers
  import opened JavaText
  import opened JavaInt
  import opened Values
  import opened Scopes
  import opened NumericParser
  import opened NumericGrammar
  import opened Expressions

  datatype CmpOp = Eq | Ne | Ge | Le | Gt | Lt

  /** The operators in the order they are tried. */
  const Operators: seq<CmpOp> := [Eq, Ne, Ge, Le, Gt, Lt]

  /** The characters comparison operators are written with. */
  const ComparisonChars: set<char> := {'=', '!', '<', '>'}

  function Symbol(op: CmpOp): (t: string)
    ensures |t| > 0 && forall i :: 0 <= i < |t| ==> t[i] in ComparisonChars
  {
    match op
    case Eq => "=="
    case Ne => "!="
    case Ge => ">="
    case Le => "<="
    case Gt => ">"
    case Lt => "<"
  }

  /** The position of an operator in the order they are tried. */
  function Rank(op: CmpOp): (k: nat)
    ensures k < |Operators| && Operators[k] == op
  {
    match op
    case Eq => 0
    case Ne => 1
    case Ge => 2
    case Le => 3
    case Gt => 4
    case Lt => 5
  }

  function Compare(op: CmpOp, l: int, r: int): bool {
    match op
    case Eq => l == r
    case Ne => l != r
    case Ge => l >= r
    case Le => l <= r
    case Gt => l > r
    case Lt => l < r
  }

  /**
   * What one operator decides about the two evaluated sides; None when the
   * sides are not both ints and the operator is not == or != (the next
   * operator is then tried).
   */
  function Decide(op: CmpOp, l: Value, r: Value): (d: Option<bool>)
    ensures d.None? <==> !(l.IntVal? && r.IntVal?) && op != Eq && op != Ne
  {
    if l.IntVal? && r.IntVal? then Some(Compare(op, l.i, r.i))
    else if op == Eq || op == Ne then Some((FormatValue(l) == FormatValue(r)) == (op == Eq))
    else None
  }

  /**
   * The operators from position k on, tried against the trimmed condition c,
   * `eval` reading each side of the split. It is a parameter so that what
   * the operator loop does can be stated for any reading of the sides;
   * ConditionValue supplies trim followed by evaluateExpression.
   */
  function TryOperators(c: string, eval: string -> Result<Value>, k: nat): Result<bool>
    requires k <= |Operators|
    decreases |Operators| - k
  {
    if k == |Operators| then Ok(false)
    else
      var op := Operators[k];
      var t := Symbol(op);
      match IndexOf(c, t)
      case None => TryOperators(c, eval, k + 1)
      case Some(j) =>
        Outcome(op, eval(c[..j]), eval(c[j + |t|..]), TryOperators(c, eval, k + 1))
  }

  /**
   * The result of trying `op` once its two sides are evaluated: a failure
   * on the left, then on the right, is the result; else the operator
   * decides, or `next`, the outcome of the operators after it, is.
   */
  function Outcome(op: CmpOp, left: Result<Value>, right: Result<Value>, next: Result<bool>): Result<bool> {
    match left
    case Err(x) => Err(x)
    case Ok(l) =>
      match right
      case Err(x) => Err(x)
      case Ok(r) =>
        match Decide(op, l, r)
        case Some(b) => Ok(b)
        case None => next
  }

  /** A side of the split is trimmed, then evaluated. */
  function Evaluator(env: Env): string -> Result<Value> {
    e => EvaluateExpression(Trim(e), env)
  }

  /** The condition under a given evaluator of its sides. */
  function ConditionWith(condition: string, eval: string -> Result<Value>): Result<bool> {
    TryOperators(Trim(condition), eval, 0)
  }

  function ConditionValue(condition: string, env: Env): Result<bool> {
    ConditionWith(condition, Evaluator(env))
  }

  /** evaluateCondition: the operator loop run on the trimmed condition, sides read by evaluateExpression. */
  method EvaluateCondition(condition: string, env: Env) returns (r: Result<bool>)
    ensures r == ConditionValue(condition, env)
  {
    r := TryEachOperator(Trim(condition), Evaluator(env));
  }

  /** The loop over the operator list, returning as soon as one operator decides. */
  method TryEachOperator(c: string, eval: string -> Result<Value>) returns (r: Result<bool>)
    ensures r == TryOperators(c, eval, 0)
  {
    for k := 0 to |Operators|
      invariant TryOperators(c, eval, k) == TryOperators(c, eval, 0)
    {
      var op := Operators[k];
      var t := Symbol(op);
      var found := IndexOf(c, t);
      if found.Some? {
        var j := found.value;
        TryAt(c, eval, k, op, t, j);
        var left := eval(c[..j]);
        if left.Err? {
          return Err(left.error);
        }
        var right := eval(c[j + |t|..]);
        if right.Err? {
          return Err(right.error);
        }
        var d := Decide(op, left.value, right.value);
        if d.Some? {
          return Ok(d.value);
        }
      }
    }
    return Ok(false);
  }

  /** `pat` starts with `c` and occurs in `s`, so `c` occurs in `s`. */
  lemma OccurrenceHolds(s: string, pat: string, j: nat)
    requires |pat| > 0 && OccursAt(s, pat, j)
    ensures pat[0] in s
  {
    assert s[j..j + |pat|][0] == s[j];
  }

  /** A condition with no comparison character is false, whatever its sides would evaluate to. */
  lemma NoOperatorIsFalse(condition: string, eval: string -> Result<Value>)
    requires forall i :: 0 <= i < |condition| ==> condition[i] !in ComparisonChars
    ensures ConditionWith(condition, eval) == Ok(false)
  {
    var c := Trim(condition);
    TrimStartSpec(condition);
    TrimEndSpec(TrimStart(condition));
    assert c == TrimStart(condition)[..|c|];
    assert forall i :: 0 <= i < |c| ==> c[i] !in ComparisonChars;
    forall k | 0 <= k < |Operators|
      ensures IndexOf(c, Symbol(Operators[k])).None?
    {
      var t := Symbol(Operators[k]);
      if IndexOf(c, t).Some? {
        OccurrenceHolds(c, t, IndexOf(c, t).value);
      }
    }
  }

  predicate NoComparisonChars(s: string) {
    forall i :: 0 <= i < |s| ==> s[i] !in ComparisonChars
  }

  /** A condition written as `l <op> r` with one blank on either side of the operator. */
  function Spaced(l: string, op: CmpOp, r: string): string {
    Around(l, Symbol(op), r)
  }

  /** `s` between `l` and `r`, one blank on either side. */
  function Around(l: string, s: string, r: string): string {
    (l + " ") + (s + (" " + r))
  }

  /** The characters of Around(l, s, r) position by position. */
  lemma SpacedChars(l: string, s: string, r: string)
    ensures var c := Around(l, s, r); var m := |l| + 1;
      |c| == m + |s| + 1 + |r| && c[|l|] == ' ' && c[m + |s|] == ' ' &&
      (forall p :: 0 <= p < |l| ==> c[p] == l[p]) &&
      (forall p :: 0 <= p < |s| ==> c[m + p] == s[p]) &&
      (forall p :: 0 <= p < |r| ==> c[m + |s| + 1 + p] == r[p]) &&
      c[m..m + |s|] == s
  {
  }

  /**
   * An operator written with comparison characters at both ends occurs in
   * Around(l, s, r) only inside `s`, when `l` and `r` hold no such
   * character.
   */
  lemma OccursOnlyInSymbol(l: string, s: string, r: string, t: string, i: int)
    requires NoComparisonChars(l) && NoComparisonChars(r)
    requires |t| > 0 && t[0] in ComparisonChars && t[|t| - 1] in ComparisonChars
    requires OccursAt(Around(l, s, r), t, i)
    ensures |l| + 1 <= i && i + |t| <= |l| + 1 + |s|
    ensures t == s[i - |l| - 1..i - |l| - 1 + |t|]
  {
    var c := Around(l, s, r);
    var m := |l| + 1;
    SpacedChars(l, s, r);
    assert c[i] == t[0] by { assert c[i..i + |t|][0] == c[i]; }
    assert c[i + |t| - 1] == t[|t| - 1] by { assert c[i..i + |t|][|t| - 1] == c[i + |t| - 1]; }
    if i + |t| - 1 > m + |s| {
      assert false;
    }
    if i < |l| {
      assert false;
    }
    assert c[i..i + |t|] == c[m..m + |s|][i - m..i - m + |t|];
  }

  /** Every operator tried before `op` or of no shorter spelling is spelled differently. */
  lemma SymbolsDiffer(op: CmpOp, k: nat)
    requires k < |Operators| && k != Rank(op)
    ensures Symbol(Operators[k]) != Symbol(op)
    ensures k < Rank(op) ==> |Symbol(Operators[k])| >= |Symbol(op)|
  {
  }

  /** In `l op r`, `op` is found right after `l` and every other operator of no shorter spelling is absent. */
  lemma SymbolFound(l: string, op: CmpOp, r: string)
    requires NoComparisonChars(l) && NoComparisonChars(r)
    ensures IndexOf(Spaced(l, op, r), Symbol(op)) == Some(|l| + 1)
    ensures forall k :: 0 <= k < |Operators| && k != Rank(op) && |Symbol(Operators[k])| >= |Symbol(op)| ==>
      IndexOf(Spaced(l, op, r), Symbol(Operators[k])).None?
  {
    var c := Spaced(l, op, r);
    var s := Symbol(op);
    SpacedChars(l, s, r);
    assert OccursAt(c, s, |l| + 1);
    var found := IndexOf(c, s);
    if found.value != |l| + 1 {
      OccursOnlyInSymbol(l, s, r, s, found.value);
    }
    forall k | 0 <= k < |Operators| && k != Rank(op) && |Symbol(Operators[k])| >= |Symbol(op)|
      ensures IndexOf(c, Symbol(Operators[k])).None?
    {
      var t := Symbol(Operators[k]);
      SymbolsDiffer(op, k);
      if IndexOf(c, t).Some? {
        OccursOnlyInSymbol(l, s, r, t, IndexOf(c, t).value);
        assert false;
      }
    }
  }

  /** Absent operators are skipped. */
  lemma {:induction false} SkipAbsent(c: string, eval: string -> Result<Value>, k: nat, n: nat)
    requires k <= n <= |Operators|
    requires forall p :: k <= p < n ==> IndexOf(c, Symbol(Operators[p])).None?
    ensures TryOperators(c, eval, k) == TryOperators(c, eval, n)
    decreases n - k
  {
    if k < n {
      SkipAbsent(c, eval, k + 1, n);
    }
  }

  /**
   * `l op r` is decided at `op`, whatever evaluates its sides: no operator
   * tried earlier occurs in it, and its two sides trim back to `l` and `r`.
   */
  lemma DecidedAt(l: string, op: CmpOp, r: string, eval: string -> Result<Value>)
    requires Tight(l) && Tight(r) && NoComparisonChars(l) && NoComparisonChars(r)
    ensures Trim(Spaced(l, op, r)) == Spaced(l, op, r)
    ensures TryOperators(Spaced(l, op, r), eval, 0) ==
      Outcome(op, eval(l + " "), eval(" " + r), TryOperators(Spaced(l, op, r), eval, Rank(op) + 1))
  {
    var c := Spaced(l, op, r);
    var t := Symbol(op);
    var j := |l| + 1;
    OperatorReached(l, op, r, eval);
    SpacedLayout(l, op, r, t, j);
    TryAt(c, eval, Rank(op), op, t, j);
  }

  lemma SpacedLayout(l: string, op: CmpOp, r: string, t: string, j: nat)
    requires Tight(l) && Tight(r) && t == Symbol(op) && j == |l| + 1
    ensures Trim(Spaced(l, op, r)) == Spaced(l, op, r)
    ensures j + |t| <= |Spaced(l, op, r)|
    ensures Spaced(l, op, r)[..j] == l + " "
    ensures Spaced(l, op, r)[j + |t|..] == " " + r
  {
    AroundLayout(l, t, r, j);
  }

  /** Trimming each side of `l op r` gives back `l` and `r`. */
  lemma SidesRead(l: string, r: string, env: Env)
    requires Tight(l) && Tight(r)
    ensures Evaluator(env)(l + " ") == EvaluateExpression(l, env)
    ensures Evaluator(env)(" " + r) == EvaluateExpression(r, env)
  {
    SideReads(l + " ", l, env);
    SideReads(" " + r, r, env);
  }

  lemma SideReads(t: string, x: string, env: Env)
    requires Tight(x) && (t == x + " " || t == " " + x)
    ensures Evaluator(env)(t) == EvaluateExpression(x, env)
  {
    if t == x + " " {
      TrimBlankAfter(t, x);
    } else {
      TrimBlankBefore(t, x);
    }
  }

  /** One round of the operator loop, at an operator that occurs at `j`. */
  lemma TryAt(c: string, eval: string -> Result<Value>, k: nat, op: CmpOp, t: string, j: nat)
    requires k < |Operators| && op == Operators[k] && t == Symbol(op)
    requires IndexOf(c, t) == Some(j)
    ensures j + |t| <= |c|
    ensures TryOperators(c, eval, k) == Outcome(op, eval(c[..j]), eval(c[j + |t|..]), TryOperators(c, eval, k + 1))
  {
  }

  lemma PrefixSuffix(a: string, b: string)
    ensures (a + b)[..|a|] == a && (a + b)[|a|..] == b
  {
  }

  /** Around(l, s, r) is already trimmed, and splits at `j` into `l` and `r`, each with its blank. */
  lemma AroundLayout(l: string, s: string, r: string, j: nat)
    requires Tight(l) && Tight(r) && j == |l| + 1
    ensures Trim(Around(l, s, r)) == Around(l, s, r)
    ensures j + |s| <= |Around(l, s, r)|
    ensures Around(l, s, r)[..j] == l + " "
    ensures Around(l, s, r)[j + |s|..] == " " + r
  {
    var c := Around(l, s, r);
    var a, b := l + " ", s + (" " + r);
    assert c == a + b;
    PrefixSuffix(a, b);
    PrefixSuffix(s, " " + r);
    assert c[..j] == a;
    assert c[j + |s|..] == b[|s|..] == " " + r;
    assert c[0] == l[0];
    assert c[|c| - 1] == r[|r| - 1];
    TrimKeeps(c);
  }

  lemma TrimBlankAfter(t: string, l: string)
    requires Tight(l) && t == l + " "
    ensures Trim(t) == l
  {
    assert t == "" + l + " ";
    TrimPadded("", l, " ");
  }

  lemma TrimBlankBefore(t: string, r: string)
    requires Tight(r) && t == " " + r
    ensures Trim(t) == r
  {
    assert t == " " + r + "";
    TrimPadded(" ", r, "");
  }

  /** The operators before `op` are all absent from `l op r`, so the loop reaches `op`. */
  lemma OperatorReached(l: string, op: CmpOp, r: string, eval: string -> Result<Value>)
    requires NoComparisonChars(l) && NoComparisonChars(r)
    ensures var c := Spaced(l, op, r);
      TryOperators(c, eval, 0) == TryOperators(c, eval, Rank(op)) &&
      IndexOf(c, Symbol(op)) == Some(|l| + 1)
  {
    var c := Spaced(l, op, r);
    SymbolFound(l, op, r);
    forall p | 0 <= p < Rank(op)
      ensures IndexOf(c, Symbol(Operators[p])).None?
    {
      SymbolsDiffer(op, p);
    }
    SkipAbsent(c, eval, 0, Rank(op));
  }

  /*
   * The lemmas below hold whatever reads the sides of the split: `eval`
   * stands for trim-then-evaluateExpression (Evaluator), and they state how
   * the operator loop treats the values read.
   */

  /** A side that fails to be read makes the whole condition fail, the left side first. */
  lemma ErrorsPropagate(l: string, op: CmpOp, r: string, eval: string -> Result<Value>)
    requires Tight(l) && Tight(r) && NoComparisonChars(l) && NoComparisonChars(r)
    ensures eval(l + " ").Err? ==> ConditionWith(Spaced(l, op, r), eval) == Err(eval(l + " ").error)
    ensures eval(l + " ").Ok? && eval(" " + r).Err? ==>
      ConditionWith(Spaced(l, op, r), eval) == Err(eval(" " + r).error)
  {
    DecidedAt(l, op, r, eval);
  }

  /** Two sides that read as ints are compared as ints, by every operator. */
  lemma IntComparison(l: string, op: CmpOp, r: string, eval: string -> Result<Value>, a: int, b: int)
    requires Tight(l) && Tight(r) && NoComparisonChars(l) && NoComparisonChars(r)
    requires eval(l + " ") == Ok(IntVal(a)) && eval(" " + r) == Ok(IntVal(b))
    ensures ConditionWith(Spaced(l, op, r), eval) == Ok(Compare(op, a, b))
  {
    DecidedAt(l, op, r, eval);
  }

  /** When either side is text, == and != compare what the two sides display as. */
  lemma TextEquality(l: string, op: CmpOp, r: string, eval: string -> Result<Value>, x: Value, y: Value)
    requires Tight(l) && Tight(r) && NoComparisonChars(l) && NoComparisonChars(r)
    requires op == Eq || op == Ne
    requires eval(l + " ") == Ok(x) && eval(" " + r) == Ok(y) && (x.TextVal? || y.TextVal?)
    ensures ConditionWith(Spaced(l, op, r), eval) == Ok((FormatValue(x) == FormatValue(y)) == (op == Eq))
  {
    DecidedAt(l, op, r, eval);
  }

  /** `l != r` holds exactly when `l == r` does not, whenever either decides. */
  lemma NotEqualNegates(l: string, r: string, eval: string -> Result<Value>)
    requires Tight(l) && Tight(r) && NoComparisonChars(l) && NoComparisonChars(r)
    ensures ConditionWith(Spaced(l, Eq, r), eval).Ok? <==> ConditionWith(Spaced(l, Ne, r), eval).Ok?
    ensures ConditionWith(Spaced(l, Eq, r), eval).Ok? ==>
      ConditionWith(Spaced(l, Ne, r), eval).value == !ConditionWith(Spaced(l, Eq, r), eval).value
  {
    DecidedAt(l, Eq, r, eval);
    DecidedAt(l, Ne, r, eval);
  }

  /** > and < never hold when either side is text: no later operator occurs to decide. */
  lemma TextOrderingIsFalse(l: string, op: CmpOp, r: string, eval: string -> Result<Value>, x: Value, y: Value)
    requires Tight(l) && Tight(r) && NoComparisonChars(l) && NoComparisonChars(r)
    requires op == Gt || op == Lt
    requires eval(l + " ") == Ok(x) && eval(" " + r) == Ok(y) && (x.TextVal? || y.TextVal?)
    ensures ConditionWith(Spaced(l, op, r), eval) == Ok(false)
  {
    var c := Spaced(l, op, r);
    DecidedAt(l, op, r, eval);
    if op == Gt {
      SymbolFound(l, op, r);
      assert IndexOf(c, Symbol(Operators[5])).None?;
    }
  }

  /** The one-character operator that begins `op`'s spelling: `>` for `>=`, `<` for `<=`. */
  function Shorter(op: CmpOp): CmpOp
    requires op == Ge || op == Le
  {
    if op == Ge then Gt else Lt
  }

  /** `l >= r` is `l >` followed by `= r`, and likewise for `<=`. */
  lemma OrderingLayout(l: string, op: CmpOp, r: string)
    requires op == Ge || op == Le
    ensures var c := Spaced(l, op, r); var j := |l| + 1;
      j + 1 <= |c| && c[..j] == l + " " && c[j..j + 1] == Symbol(Shorter(op)) && c[j + 1..] == "= " + r
  {
    var t := Symbol(Shorter(op));
    var c := Spaced(l, op, r);
    assert Symbol(op) == t + "=";
    assert c == (l + " ") + (t + ("= " + r));
    PrefixSuffix(l + " ", t + ("= " + r));
    PrefixSuffix(t, "= " + r);
  }

  /** In `l >= r` (`l <= r`) the operator `>` (`<`) is first found where `op` is. */
  lemma ShorterFound(l: string, op: CmpOp, r: string)
    requires NoComparisonChars(l) && NoComparisonChars(r)
    requires op == Ge || op == Le
    ensures IndexOf(Spaced(l, op, r), Symbol(Shorter(op))) == Some(|l| + 1)
  {
    var c := Spaced(l, op, r);
    var t := Symbol(Shorter(op));
    OrderingLayout(l, op, r);
    assert OccursAt(c, t, |l| + 1);
    var found := IndexOf(c, t);
    OccursOnlyInSymbol(l, Symbol(op), r, t, found.value);
  }

  /** `<` does not occur in `l >= r`. */
  lemma LessAbsent(l: string, r: string)
    requires NoComparisonChars(l) && NoComparisonChars(r)
    ensures IndexOf(Spaced(l, Ge, r), "<").None?
  {
    var c := Spaced(l, Ge, r);
    if IndexOf(c, "<").Some? {
      OccursOnlyInSymbol(l, ">=", r, "<", IndexOf(c, "<").value);
    }
  }

  /** `>` does not occur in `l <= r`. */
  lemma GreaterAbsent(l: string, r: string)
    requires NoComparisonChars(l) && NoComparisonChars(r)
    ensures IndexOf(Spaced(l, Le, r), ">").None?
  {
    var c := Spaced(l, Le, r);
    if IndexOf(c, ">").Some? {
      OccursOnlyInSymbol(l, "<=", r, ">", IndexOf(c, ">").value);
    }
  }

  /** After `>=` falls through: `<=` is absent, `>` splits at the same place, `<` is absent. */
  lemma GeFallsThrough(l: string, r: string, eval: string -> Result<Value>)
    requires NoComparisonChars(l) && NoComparisonChars(r)
    ensures var c := Spaced(l, Ge, r); var j := |l| + 1;
      j + 1 <= |c| && TryOperators(c, eval, 3) == Outcome(Gt, eval(c[..j]), eval(c[j + 1..]), Ok(false))
  {
    var c := Spaced(l, Ge, r);
    SymbolFound(l, Ge, r);
    assert IndexOf(c, Symbol(Operators[3])).None?;
    ShorterFound(l, Ge, r);
    LessAbsent(l, r);
    TryAt(c, eval, 4, Gt, ">", |l| + 1);
  }

  /** After `<=` falls through: `>` is absent and `<` splits at the same place. */
  lemma LeFallsThrough(l: string, r: string, eval: string -> Result<Value>)
    requires NoComparisonChars(l) && NoComparisonChars(r)
    ensures var c := Spaced(l, Le, r); var j := |l| + 1;
      j + 1 <= |c| && TryOperators(c, eval, 4) == Outcome(Lt, eval(c[..j]), eval(c[j + 1..]), Ok(false))
  {
    var c := Spaced(l, Le, r);
    ShorterFound(l, Le, r);
    GreaterAbsent(l, r);
    TryAt(c, eval, 5, Lt, "<", |l| + 1);
  }

  /**
   * In `l >= r` (`l <= r`) the one-character operator `>` (`<`) tried later
   * is found at the same place, so the split leaves `= r` as its right side.
   */
  lemma OrderingSplitsAgain(l: string, op: CmpOp, r: string, eval: string -> Result<Value>)
    requires NoComparisonChars(l) && NoComparisonChars(r)
    requires op == Ge || op == Le
    ensures TryOperators(Spaced(l, op, r), eval, Rank(op) + 1) ==
      Outcome(Shorter(op), eval(l + " "), eval("= " + r), Ok(false))
  {
    OrderingLayout(l, op, r);
    if op == Ge {
      GeFallsThrough(l, r, eval);
    } else {
      LeFallsThrough(l, r, eval);
    }
  }

  /**
   * `>=` and `<=` are not false when a side is text: they fall through to
   * `>` or `<`, whose right side `= r` is read as an expression. When the
   * left side reads, that reading decides the condition.
   */
  lemma TextOrderingReadsEquals(l: string, op: CmpOp, r: string, eval: string -> Result<Value>, x: Value, y: Value)
    requires Tight(l) && Tight(r) && NoComparisonChars(l) && NoComparisonChars(r)
    requires op == Ge || op == Le
    requires eval(l + " ") == Ok(x) && eval(" " + r) == Ok(y) && (x.TextVal? || y.TextVal?)
    ensures ConditionWith(Spaced(l, op, r), eval) == Outcome(Shorter(op), Ok(x), eval("= " + r), Ok(false))
  {
    DecidedAt(l, op, r, eval);
    OrderingSplitsAgain(l, op, r, eval);
  }

  /** A text starting with `=` and holding no '+' is read as a numeric expression that fails at its first character. */
  lemma EqualsSignUnexpected(r: string, env: Env)
    requires Tight(r) && '+' !in r
    ensures Evaluator(env)("= " + r) == Err(UnexpectedCharacter(0))
  {
    var e := "= " + r;
    assert e[|e| - 1] == r[|r| - 1];
    TrimKeeps(e);
    ContainsChar(e, '+');
    assert !StartsWith(e, "\"") by { assert e[..1][0] == '='; }
    LeadingCharUnexpected(e, env);
    NumericReading(e, env);
  }

  /**
   * With evaluateExpression reading the sides, `l >= r` and `l <= r` with a
   * text side and a right side without '+' fail with "Unexpected character"
   * at position 0 of `= r`.
   */
  lemma TextOrderingWithEqualsFails(l: string, op: CmpOp, r: string, env: Env, x: Value, y: Value)
    requires Tight(l) && Tight(r) && NoComparisonChars(l) && NoComparisonChars(r) && '+' !in r
    requires op == Ge || op == Le
    requires EvaluateExpression(l, env) == Ok(x) && EvaluateExpression(r, env) == Ok(y) && (x.TextVal? || y.TextVal?)
    ensures ConditionValue(Spaced(l, op, r), env) == Err(UnexpectedCharacter(0))
  {
    SidesRead(l, r, env);
    TextOrderingReadsEquals(l, op, r, Evaluator(env), x, y);
    EqualsSignUnexpected(r, env);
  }

  /** A variable name bound to an int evaluates to that int. */
  lemma IntNameEvaluates(x: string, env: Env, a: int)
    requires IsName(x) && env.Get(x) == Some(IntVal(a))
    ensures EvaluateExpression(x, env) == Ok(IntVal(a))
  {
    NameLayout(x);
    ContainsChar(x, '+');
    IntVariableReads(x, env, a);
  }

  /** A name holds no comparison character and no blank at its ends. */
  lemma NameIsTight(x: string)
    requires IsName(x)
    ensures Tight(x) && NoComparisonChars(x)
  {
    assert IsTokenChar(x[|x| - 1]);
  }

  /** `x < y` on two int variables compares their values. */
  lemma VariablesCompare(x: string, op: CmpOp, y: string, env: Env, a: int, b: int)
    requires IsName(x) && env.Get(x) == Some(IntVal(a))
    requires IsName(y) && env.Get(y) == Some(IntVal(b))
    ensures ConditionValue(Spaced(x, op, y), env) == Ok(Compare(op, a, b))
  {
    NameIsTight(x);
    NameIsTight(y);
    IntNameEvaluates(x, env, a);
    IntNameEvaluates(y, env, b);
    SidesRead(x, y, env);
    IntComparison(x, op, y, Evaluator(env), a, b);
  }

  /** A decimal literal evaluates to its value. */
  lemma LiteralEvaluates(n: nat, env: Env)
    requires n <= IntMax
    ensures EvaluateExpression(NatToString(n), env) == Ok(IntVal(n))
  {
    var d := NatToString(n);
    assert IsDigit(d[0]) && IsDigit(d[|d| - 1]);
    TrimKeeps(d);
    ContainsChar(d, '+');
    LiteralReads(n, env);
  }

  /** The digits of a number, quoted or not, hold no comparison character and no blank at the ends. */
  lemma DigitsAreTight(n: nat)
    ensures var d := NatToString(n); Tight(d) && NoComparisonChars(d)
    ensures var q := "\"" + NatToString(n) + "\""; Tight(q) && NoComparisonChars(q)
  {
    var d := NatToString(n);
    var q := "\"" + d + "\"";
    assert forall i :: 0 <= i < |d| ==> IsDigit(d[i]);
    assert forall i :: 0 <= i < |q| ==> q[i] == '"' || q[i] in d;
  }

  /** Both sides of `"n" == n` are read: the quoted one as text, the bare one as an int. */
  lemma QuotedNumberSides(n: nat, env: Env)
    requires n <= IntMax
    ensures var d := NatToString(n);
      Evaluator(env)("\"" + d + "\"" + " ") == Ok(TextVal(d)) && Evaluator(env)(" " + d) == Ok(IntVal(n))
  {
    var d := NatToString(n);
    DigitsAreTight(n);
    QuotedLiteral(d, env);
    LiteralEvaluates(n, env);
    SidesRead("\"" + d + "\"", d, env);
  }

  /** A quoted number equals the bare number: both sides display the same digits. */
  lemma QuotedNumberEqualsNumber(n: nat, env: Env)
    requires n <= IntMax
    ensures ConditionValue(Spaced("\"" + NatToString(n) + "\"", Eq, NatToString(n)), env) == Ok(true)
  {
    var d := NatToString(n);
    var q := "\"" + d + "\"";
    QuotedNumberSides(n, env);
    QuotedEqualsBare(n, Evaluator(env));
  }

  lemma QuotedEqualsBare(n: nat, eval: string -> Result<Value>)
    requires var d := NatToString(n);
      eval("\"" + d + "\"" + " ") == Ok(TextVal(d)) && eval(" " + d) == Ok(IntVal(n))
    ensures ConditionWith(Spaced("\"" + NatToString(n) + "\"", Eq, NatToString(n)), eval) == Ok(true)
  {
    var d := NatToString(n);
    DigitsAreTight(n);
    SameDigits(n);
    TextEquality("\"" + d + "\"", Eq, d, eval, TextVal(d), IntVal(n));
  }

  lemma SameDigits(n: nat)
    ensures FormatValue(IntVal(n)) == FormatValue(TextVal(NatToString(n)))
  {
  }
}
