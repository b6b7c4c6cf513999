/**
 * What the executor promises about blocks, if statements, calls, parameters,
 * counting loops and the increase and decrease statements, stated over the
 * functions of Execution.
 */
module ExecutionProperties {
  import opened Wrappers
  import opened JavaText
  import opened JavaInt
  import opened Values
  import opened Scopes
  import opened Blocks
  import opened Execution
  import opened Lines

  // ---------------------------------------------------------------------
  // Blocks of lines
  // ---------------------------------------------------------------------

  lemma TrimTwice(x: string)
    ensures Trim(Trim(x)) == Trim(x)
  {
    var t := Trim(x);
    TrimSpec(x);
    TrimPadded("", t, "");
    assert "" + t + "" == t;
  }

  /** A blank line or a comment is passed over: the block goes on at the next line as if it started there. */
  lemma BlockSkipsLine(p: Patterns, rd: Readers, s: State, code: seq<string>, i: nat, end: nat, fuel: nat)
    requires i < end <= |code| && |s.frames| > 0
    requires IsSkippable(Trim(code[i]))
    ensures Block(p, rd, s, code, i, end, fuel) == Block(p, rd, s, code, i + 1, end, fuel)
  {
  }

  /** A trimmed line that starts with `c` has a header that starts with `c` lower-cased. */
  lemma HeaderOfTrimmed(line: string)
    ensures Header(Trim(line)) == Header(line) == Lower(Trim(line))
    ensures IsSkippable(Trim(line)) ==> Header(line) == [] || Header(line)[0] == '#' || Header(line)[0] == '/'
  {
    TrimTwice(line);
    var t := Trim(line);
    if t != [] {
      assert Header(line)[0] == LowerChar(t[0]);
      if StartsWith(t, "#") || StartsWith(t, "//") {
        assert t[..1][0] == t[0];
      }
    }
  }

  /** A terminator (`end`, `done`, `finish`) leaves the block at once: nothing after it runs and the state is as it was. */
  lemma BlockStopsAtTerminator(p: Patterns, rd: Readers, s: State, code: seq<string>, i: nat, end: nat, fuel: nat)
    requires i < end <= |code| && |s.frames| > 0
    requires IsBlockEnd(code[i])
    ensures Block(p, rd, s, code, i, end, fuel) == Outcome(s, None)
  {
    HeaderOfTrimmed(code[i]);
    var h := Header(code[i]);
    assert h[0] == 'e' || h[0] == 'd' || h[0] == 'f';
    assert h[..3] == "end" || h[..3] == "don" || h[..3] == "fin";
    assert !IsReturnStatement(Trim(code[i])) && !IsIfStatement(Trim(code[i]));
    if StartsWith(h, "for ") || StartsWith(h, "function ") { assert h[..3] == "fin" && h[1] == 'i'; }
  }

  /**
   * A return line evaluates what follows `return`, fills the return slot,
   * raises the flag and leaves the block; nothing after it runs. An
   * expression that fails is the block's failure and changes nothing.
   */
  lemma BlockStopsAtReturn(p: Patterns, rd: Readers, s: State, code: seq<string>, i: nat, end: nat, fuel: nat)
    requires i < end <= |code| && |s.frames| > 0 && !s.hasReturned
    requires IsReturnStatement(code[i])
    ensures |Trim(code[i])| >= 6
    ensures Block(p, rd, s, code, i, end, fuel) ==
      match rd.eval(ReturnExpression(Trim(code[i])), s.Scope())
      case Ok(v) => Outcome(s.(returnValue := Some(v), hasReturned := true), None)
      case Err(x) => Outcome(s, Some(x))
  {
    HeaderOfTrimmed(code[i]);
    assert Header(code[i])[0] == Header(code[i])[..7][0] == 'r';
  }

  /** Once the return flag is up, a block runs nothing. */
  lemma BlockAfterReturn(p: Patterns, rd: Readers, s: State, code: seq<string>, i: nat, end: nat, fuel: nat)
    requires end <= |code| && |s.frames| > 0 && s.hasReturned
    ensures Block(p, rd, s, code, i, end, fuel) == Outcome(s, None)
  {
  }

  // ---------------------------------------------------------------------
  // If statements
  // ---------------------------------------------------------------------

  /** The header line of an if is at least three characters long, so its condition can be cut out. */
  lemma OpenerLength(line: string)
    requires Opener(line)
    ensures |line| >= 3
  {
    var h := Header(line);
    assert Opens(h, Written);
    OpenerFirstLetter(h, Written);
    if StartsWith(h, "if ") { } else { assert |h| >= 4; }
    TrimSpec(line);
  }

  /** The scan's and findBlockEnd's counters along `if` at i, plain lines, `else` at e, plain lines, `end` at k. */
  lemma IfElseDepths(code: seq<string>, i: nat, e: nat, k: nat)
    requires i < e < k < |code|
    requires Opener(code[i]) && Header(code[e]) == "else" && Header(code[k]) == "end"
    requires PlainBetween(code, i + 1, e) && PlainBetween(code, e + 1, k)
    ensures Depth(code, i, k + 1, Written) == 0 && ScanDepth(code, i, e + 1, Written) == 1
  {
    KeywordCounts(code[e]);
    KeywordCounts(code[k]);
    assert Depth(code, i, i + 1, Written) == 1 && ScanDepth(code, i, i + 1, Written) == 1;
    PlainRun(code, i, i + 1, e);
    PlainRun(code, i, e + 1, k);
  }

  /** findBlockEnd from an if with an else stops at the first line whose header closes a level at depth zero, the end at k. */
  lemma IfElseEnd(code: seq<string>, i: nat, e: nat, k: nat, end: nat)
    requires i < e < k < end <= |code|
    requires Opener(code[i]) && Header(code[e]) == "else" && Header(code[k]) == "end"
    requires PlainBetween(code, i + 1, e) && PlainBetween(code, e + 1, k)
    ensures BlockEnd(code, i, end, Written) == k
  {
    IfElseDepths(code, i, e, k);
    assert EndsAt(code, i, k, Written);
  }

  /** The scan of an if with an else finds the else at e and no elseif. */
  lemma IfElseMarkers(code: seq<string>, i: nat, e: nat, k: nat)
    requires i < e < k < |code|
    requires Opener(code[i]) && Header(code[e]) == "else" && Header(code[k]) == "end"
    requires PlainBetween(code, i + 1, e) && PlainBetween(code, e + 1, k)
    ensures FirstMarker(code, i, k + 1, Written, ElseifMarker) == None
    ensures FirstMarker(code, i, k + 1, Written, ElseMarker) == Some(e)
  {
    IfElseDepths(code, i, e, k);
    assert MarkerAt(code, i, e, Written, ElseMarker);
    forall j | i <= j < k + 1
      ensures !MarkerAt(code, i, j, Written, ElseifMarker)
      ensures j != e ==> !MarkerAt(code, i, j, Written, ElseMarker)
    {
      if i < j < e || e < j < k {
        PlainIsNoMarker(code, i, j, Written);
      } else if j == e || j == k {
        NotElseif(Header(code[j]));
      }
    }
  }

  /** The layout `if` at i, plain lines, `end` at k: the block ends at k and has neither elseif nor else. */
  lemma IfLayout(code: seq<string>, i: nat, k: nat, end: nat)
    requires i < k < end <= |code|
    requires Opener(code[i]) && Header(code[k]) == "end"
    requires PlainBetween(code, i + 1, k)
    ensures BlockEnd(code, i, end, Written) == k
    ensures IfBranches(code, i, k, Written) == Ok(Branches(None, None))
  {
    KeywordCounts(code[k]);
    assert Depth(code, i, i + 1, Written) == 1;
    PlainRun(code, i, i + 1, k);
    assert EndsAt(code, i, k, Written);
    forall j | i <= j < k + 1
      ensures !MarkerAt(code, i, j, Written, ElseifMarker) && !MarkerAt(code, i, j, Written, ElseMarker)
    {
      if i < j < k {
        PlainIsNoMarker(code, i, j, Written);
      } else if j == k {
        NotElseif(Header(code[j]));
      }
    }
  }

  /**
   * An if with an else: a true condition runs the lines between the header
   * and the else, a false one the lines between the else and the end, and
   * execution goes on after the end; a failing condition is the statement's
   * failure.
   */
  lemma IfElseRunsOneBranch(p: Patterns, rd: Readers, s: State, code: seq<string>, i: nat, e: nat, k: nat, end: nat, fuel: nat)
    requires i < e < k < end <= |code| && |s.frames| > 0
    requires Opener(code[i]) && Header(code[e]) == "else" && Header(code[k]) == "end"
    requires PlainBetween(code, i + 1, e) && PlainBetween(code, e + 1, k)
    ensures |code[i]| >= 3
    ensures IfBlock(p, rd, s, code, i, end, fuel) ==
      match rd.cond(IfCondition(code[i]), s.Scope())
      case Err(x) => Jump(Outcome(s, Some(x)), i + 1)
      case Ok(true) => Jump(Block(p, rd, s, code, i + 1, e, fuel), k + 1)
      case Ok(false) => Jump(Block(p, rd, s, code, e + 1, k, fuel), k + 1)
  {
    OpenerLength(code[i]);
    IfElseEnd(code, i, e, k, end);
    IfElseMarkers(code, i, e, k);
  }

  /**
   * An if without an else: a true condition runs the lines between the
   * header and the end, a false one runs nothing; either way execution goes
   * on after the end.
   */
  lemma IfRunsBodyWhenMet(p: Patterns, rd: Readers, s: State, code: seq<string>, i: nat, k: nat, end: nat, fuel: nat)
    requires i < k < end <= |code| && |s.frames| > 0
    requires Opener(code[i]) && Header(code[k]) == "end"
    requires PlainBetween(code, i + 1, k)
    ensures |code[i]| >= 3
    ensures IfBlock(p, rd, s, code, i, end, fuel) ==
      match rd.cond(IfCondition(code[i]), s.Scope())
      case Err(x) => Jump(Outcome(s, Some(x)), i + 1)
      case Ok(true) => Jump(Block(p, rd, s, code, i + 1, k, fuel), k + 1)
      case Ok(false) => Jump(Outcome(s, None), k + 1)
  {
    OpenerLength(code[i]);
    IfLayout(code, i, k, end);
  }

  // ---------------------------------------------------------------------
  // Arguments and parameters
  // ---------------------------------------------------------------------

  /**
   * The arguments are evaluated left to right, each trimmed, in the caller's
   * scope: the list is the values in order when every one evaluates, and
   * otherwise the failure of the first one that does not.
   */
  lemma {:induction false} EvaluateAllSpec(rd: Readers, texts: seq<string>, env: Env)
    ensures var r := EvaluateAll(rd, texts, env);
      (r.Ok? <==> forall k :: 0 <= k < |texts| ==> rd.eval(Trim(texts[k]), env).Ok?)
      && (r.Ok? ==> forall k :: 0 <= k < |texts| ==> rd.eval(Trim(texts[k]), env) == Ok(r.value[k]))
      && (r.Err? ==> exists k :: 0 <= k < |texts| && rd.eval(Trim(texts[k]), env) == Err(r.error)
                                && forall j :: 0 <= j < k ==> rd.eval(Trim(texts[j]), env).Ok?)
    decreases |texts|
  {
    if |texts| > 0 {
      EvaluateAllSpec(rd, texts[1..], env);
      assert forall k :: 1 <= k < |texts| ==> texts[1..][k - 1] == texts[k];
      var r := EvaluateAll(rd, texts, env);
      if r.Err? && rd.eval(Trim(texts[0]), env).Ok? {
        var rest := EvaluateAll(rd, texts[1..], env);
        var k :| 0 <= k < |texts[1..]| && rd.eval(Trim(texts[1..][k]), env) == Err(rest.error)
                 && forall j :: 0 <= j < k ==> rd.eval(Trim(texts[1..][j]), env).Ok?;
        assert rd.eval(Trim(texts[k + 1]), env) == Err(r.error);
      }
    }
  }

  /** The new context binds exactly the parameter names. */
  lemma {:induction false} ParametersKeys(names: seq<string>, values: seq<Value>, n: string)
    requires |names| == |values|
    ensures n in Parameters(names, values) <==> n in names
    decreases |names|
  {
    if |names| > 0 {
      var m := |names| - 1;
      ParametersKeys(names[..m], values[..m], n);
      assert names == names[..m] + [names[m]];
    }
  }

  /** A parameter is bound to its own argument when no later parameter has the same name. */
  lemma {:induction false} ParameterBound(names: seq<string>, values: seq<Value>, k: nat)
    requires |names| == |values| && k < |names|
    requires forall j :: k < j < |names| ==> names[j] != names[k]
    ensures Parameters(names, values)[names[k]] == values[k]
    decreases |names|
  {
    var m := |names| - 1;
    if k < m {
      ParameterBound(names[..m], values[..m], k);
    }
  }

  /**
   * The body of a call reads a name from its parameters when it is one, and
   * otherwise through the caller's chain of contexts and the globals.
   */
  lemma CalleeScope(s: State, names: seq<string>, values: seq<Value>, n: string)
    requires |names| == |values|
    ensures var callee := Env(s.frames + [Parameters(names, values)], s.globals);
      callee.Get(n) == (if n in names then Some(Parameters(names, values)[n]) else s.Scope().Get(n))
  {
    ParametersKeys(names, values, n);
    PushSpec(s.frames, Parameters(names, values), s.globals, n);
  }

  // ---------------------------------------------------------------------
  // Counting loops
  // ---------------------------------------------------------------------

  /** Setting a variable twice in the current context keeps the second value. */
  lemma BindTwice(s: State, name: string, a: Value, b: Value)
    requires |s.frames| > 0
    ensures Bind(Bind(s, name, a), name, b) == Bind(s, name, b)
  {
    var x := Bind(Bind(s, name, a), name, b).frames;
    var y := Bind(s, name, b).frames;
    var m := s.frames[|s.frames| - 1];
    assert m[name := a][name := b] == m[name := b];
    assert x[..|x| - 1] == y[..|y| - 1];
    assert x == x[..|x| - 1] + [x[|x| - 1]];
    assert y == y[..|y| - 1] + [y[|y| - 1]];
  }

  /** When the first bound exceeds the second, the body never runs and the variable is not set. */
  lemma ForEmptyRange(p: Patterns, rd: Readers, s: State, code: seq<string>, i: nat, end: nat, fuel: nat,
                      h: ForHeader, first: int, last: int)
    requires i < end <= |code| && |s.frames| > 0
    requires p.forHeader(code[i]) == Some(h)
    requires Bound(rd, h.from, s.Scope()) == Ok(first) && Bound(rd, h.to, s.Scope()) == Ok(last)
    requires first > last
    ensures ForBlock(p, rd, s, code, i, end, fuel) == Jump(Outcome(s, None), BlockEnd(code, i, end, Written) + 1)
  {
  }

  /**
   * Over an empty body the variable takes every int from the first bound to
   * the second in turn and is left at the second; the loop costs one unit of
   * fuel per value.
   */
  lemma {:induction false} ForLeavesVariableAtLast(p: Patterns, rd: Readers, s: State, code: seq<string>, variable: string,
                                                   counter: int, last: int, k: nat, fuel: nat)
    requires k <= |code| && |s.frames| > 0
    requires IntMin <= counter <= last < IntMax && fuel > last - counter
    ensures ForLoop(p, rd, s, code, variable, counter, last, k, k, fuel) == Outcome(Bind(s, variable, IntVal(last)), None)
    decreases last - counter
  {
    var t := Bind(s, variable, IntVal(counter));
    assert Block(p, rd, t, code, k, k, fuel - 1) == Outcome(t, None);
    assert Wrap(counter + 1) == counter + 1;
    if counter < last {
      ForLeavesVariableAtLast(p, rd, t, code, variable, counter + 1, last, k, fuel - 1);
      BindTwice(s, variable, IntVal(counter), IntVal(last));
    }
  }

  /** From every state the body lines [start, stop) run without error and leave the loop variable reading as before. */
  ghost predicate BodyKeeps(p: Patterns, rd: Readers, code: seq<string>, variable: string, start: nat, stop: nat)
    requires stop <= |code|
  {
    forall t: State, f: nat :: |t.frames| > 0 ==>
      Block(p, rd, t, code, start, stop, f).error.None?
      && Block(p, rd, t, code, start, stop, f).state.Scope().Get(variable) == t.Scope().Get(variable)
  }

  /**
   * The loop variable is set before each run of the body; over a body that
   * succeeds and does not itself reassign the variable, the loop runs to the
   * second bound and leaves the variable at it.
   */
  lemma {:induction false} ForEndsAtLast(p: Patterns, rd: Readers, s: State, code: seq<string>, variable: string,
                                         counter: int, last: int, start: nat, stop: nat, fuel: nat)
    requires stop <= |code| && |s.frames| > 0
    requires IntMin <= counter <= last < IntMax && fuel > last - counter
    requires BodyKeeps(p, rd, code, variable, start, stop)
    ensures var r := ForLoop(p, rd, s, code, variable, counter, last, start, stop, fuel);
      r.error.None? && r.state.Scope().Get(variable) == Some(IntVal(last))
    decreases last - counter
  {
    var t := Bind(s, variable, IntVal(counter));
    SetLocalSpec(s.frames, s.globals, variable, IntVal(counter), variable);
    var b := Block(p, rd, t, code, start, stop, fuel - 1);
    assert b.error.None? && b.state.Scope().Get(variable) == Some(IntVal(counter));
    assert Wrap(counter + 1) == counter + 1;
    if counter < last {
      ForEndsAtLast(p, rd, b.state, code, variable, counter + 1, last, start, stop, fuel - 1);
    }
  }

  /**
   * A loop up to IntMax never finishes: `i <= IntMax` holds for every int, so
   * the loop ends only at an error from its body or when the fuel runs out.
   */
  lemma {:induction false} ForToIntMaxNeverEnds(p: Patterns, rd: Readers, s: State, code: seq<string>, variable: string,
                                                counter: int, start: nat, stop: nat, fuel: nat)
    requires stop <= |code| && |s.frames| > 0 && InRange(counter)
    ensures ForLoop(p, rd, s, code, variable, counter, IntMax, start, stop, fuel).error.Some?
    decreases fuel
  {
    if fuel > 0 {
      var r := Block(p, rd, Bind(s, variable, IntVal(counter)), code, start, stop, fuel - 1);
      if r.error.None? {
        ForToIntMaxNeverEnds(p, rd, r.state, code, variable, Wrap(counter + 1), start, stop, fuel - 1);
      }
    }
  }

  // ---------------------------------------------------------------------
  // increase and decrease
  // ---------------------------------------------------------------------

  /**
   * `increase n` followed by `decrease n` gives n back its value, wrap-around
   * at IntMax included; both write the current context, so a variable of an
   * outer context ends up shadowed there.
   */
  lemma IncreaseThenDecrease(rd: Readers, s: State, name: string, c: int)
    requires |s.frames| > 0 && s.Scope().Get(name) == Some(IntVal(c)) && InRange(c)
    ensures var up := Adjust(rd, s, Step(name, None), true);
      up.error.None? && Adjust(rd, up.state, Step(name, None), false) == Outcome(Bind(s, name, IntVal(c)), None)
  {
    HasVariableSpec(s.frames, s.globals, name);
    var n := Wrap(c + 1);
    var up := Bind(s, name, IntVal(n));
    SetLocalSpec(s.frames, s.globals, name, IntVal(n), name);
    HasVariableSpec(up.frames, up.globals, name);
    assert Wrap(n - 1) == c;
    BindTwice(s, name, IntVal(n), IntVal(c));
  }
}
