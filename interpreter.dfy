/**
 * The interpreter's mutable state (the static fields of Lexi: the context
 * chain, globalVariables, the function table, the return flag and slot, the
 * console) as a class, and the executor as methods that update it in place.
 * Each method is proved to leave exactly the state, and raise exactly the
 * exception, that the Execution functions prescribe with Lexi's own readers.
 */
module Runtime {
  import opened Wrappers
  import opened JavaText
  import opened JavaInt
  import opened Values
  import opened Scopes
  import opened Blocks
  import opened Execution

  class Interpreter {
    /** What the statement and header regexes capture. */
    const patterns: Patterns
    /**
     * How expressions and conditions are read; the constructor installs
     * Lexi's own evaluateExpression and evaluateCondition.
     */
    const rd: Readers
    /** The ExecutionContext chain, outermost first; the current context is the last. */
    var frames: seq<Frame>
    var globals: Frame
    var functions: map<string, Function>
    var hasReturned: bool
    var returnValue: Option<Value>
    /** Everything written to standard output so far. */
    var output: string
    /** The lines standard input has still to deliver. */
    var input: seq<string>

    function Snapshot(): State
      reads this
    {
      State(frames, globals, functions, hasReturned, returnValue, output, input)
    }

    function Scope(): Env
      reads this
    {
      Env(frames, globals)
    }

    constructor(patterns: Patterns, input: seq<string>)
      ensures this.patterns == patterns && rd == Lexi() && Snapshot() == Start(map[], input)
    {
      this.patterns := patterns;
      rd := Lexi();
      frames := [map[]];
      globals := map[];
      functions := map[];
      hasReturned := false;
      returnValue := None;
      output := "";
      this.input := input;
    }

    /** runProgram: the program runs as one block in a new global context. */
    method RunProgram(program: seq<string>, fuel: nat) returns (error: Option<Error>)
      requires rd == Lexi()
      modifies this
      ensures Outcome(Snapshot(), error) == Execution.RunProgram(patterns, old(Snapshot()), program, fuel)
    {
      hasReturned := false;
      returnValue := None;
      frames := [map[]];
      error := ExecuteBlock(program, 0, |program|, fuel);
    }

    method ExecuteBlock(code: seq<string>, startLine: nat, endLine: nat, fuel: nat) returns (error: Option<Error>)
      requires endLine <= |code| && |frames| > 0
      modifies this
      ensures Outcome(Snapshot(), error) == Block(patterns, rd, old(Snapshot()), code, startLine, endLine, fuel)
      decreases fuel, endLine - startLine, 2
    {
      var i := startLine;
      while i < endLine && !hasReturned
        invariant startLine <= i && |frames| == |old(frames)|
        invariant Block(patterns, rd, Snapshot(), code, i, endLine, fuel)
               == Block(patterns, rd, old(Snapshot()), code, startLine, endLine, fuel)
        decreases endLine - i
      {
        var line := Trim(code[i]);
        if IsSkippable(line) {
          i := i + 1;
          continue;
        }
        var next: nat;
        if IsReturnStatement(line) {
          TrimSpec(line);
          error := HandleReturn(line);
          return;
        } else if IsIfStatement(line) {
          next, error := HandleIfBlock(code, i, endLine, fuel);
        } else if IsWhileStatement(line) {
          next, error := HandleWhileBlock(code, i, endLine, fuel);
        } else if IsForStatement(line) {
          next, error := HandleForBlock(code, i, endLine, fuel);
        } else if IsFunctionDefinition(line) {
          next, error := HandleFunctionDefinition(code, i, endLine);
        } else if IsBlockEnd(line) {
          return None;
        } else {
          error := ExecuteStatement(line, fuel);
          next := i + 1;
        }
        if error.Some? {
          return;
        }
        i := next;
      }
      return None;
    }

    /** handleReturn: the value of the text after the keyword fills the return slot and raises the flag. */
    method HandleReturn(line: string) returns (error: Option<Error>)
      requires |line| >= 6
      modifies this
      ensures var r := rd.eval(ReturnExpression(line), old(Scope()));
        && (r.Err? ==> Snapshot() == old(Snapshot()) && error == Some(r.error))
        && (r.Ok? ==> Snapshot() == old(Snapshot()).(returnValue := Some(r.value), hasReturned := true) && error.None?)
    {
      var r := rd.eval(ReturnExpression(line), Scope());
      if r.Err? {
        return Some(r.error);
      }
      returnValue := Some(r.value);
      hasReturned := true;
      return None;
    }

    method HandleIfBlock(code: seq<string>, startLine: nat, maxLine: nat, fuel: nat) returns (next: nat, error: Option<Error>)
      requires startLine <= maxLine && startLine < |code| && maxLine <= |code| && |frames| > 0
      modifies this
      ensures IfRan(patterns, rd, old(Snapshot()), code, startLine, maxLine, fuel, Outcome(Snapshot(), error), next)
      decreases fuel, maxLine - startLine, 0
    {
      if |code[startLine]| < 3 {
        return 0, Some(IndexOutOfBounds);
      }
      var met := rd.cond(IfCondition(code[startLine]), Scope());
      if met.Err? {
        return 0, Some(met.error);
      }
      var blockEnd := FindBlockEnd(code, startLine, maxLine);
      var branches := ScanBranches(code, startLine, blockEnd);
      if branches.Err? {
        return 0, Some(branches.error);
      }
      var b := branches.value;
      MarkersFollowStart(code, startLine, blockEnd + 1, Written);
      if met.value {
        var ifEnd := if b.elseifLine.Some? then b.elseifLine.value else if b.elseLine.Some? then b.elseLine.value else blockEnd;
        error := ExecuteBlock(code, startLine + 1, ifEnd, fuel);
      } else if b.elseifLine.Some? {
        next, error := HandleIfBlock(code, b.elseifLine.value, maxLine, fuel);
        return;
      } else if b.elseLine.Some? {
        error := ExecuteBlock(code, b.elseLine.value + 1, blockEnd, fuel);
      } else {
        error := None;
      }
      next := blockEnd + 1;
    }

    method HandleWhileBlock(code: seq<string>, startLine: nat, maxLine: nat, fuel: nat) returns (next: nat, error: Option<Error>)
      requires startLine < maxLine <= |code| && |frames| > 0
      modifies this
      ensures var j := WhileBlock(patterns, rd, old(Snapshot()), code, startLine, maxLine, fuel);
        Outcome(Snapshot(), error) == j.outcome && (error.None? ==> next == j.next)
      decreases fuel, maxLine - startLine, 0
    {
      var condition := WhileCondition(code[startLine]);
      var blockEnd := FindBlockEnd(code, startLine, maxLine);
      error := RunWhileLoop(code, condition, startLine + 1, blockEnd, fuel);
      if error.Some? {
        return 0, error;
      }
      return blockEnd + 1, None;
    }

    /** The loop of handleWhileBlock: the body lines [start, stop) run while the condition holds. */
    method RunWhileLoop(code: seq<string>, condition: string, start: nat, stop: nat, fuel: nat) returns (error: Option<Error>)
      requires stop <= |code| && |frames| > 0
      modifies this
      ensures Outcome(Snapshot(), error) == WhileLoop(patterns, rd, old(Snapshot()), code, condition, start, stop, fuel)
      decreases fuel, stop - start, 0
    {
      var f: nat := fuel;
      while true
        invariant f <= fuel && |frames| == |old(frames)|
        invariant WhileLoop(patterns, rd, Snapshot(), code, condition, start, stop, f)
               == WhileLoop(patterns, rd, old(Snapshot()), code, condition, start, stop, fuel)
        decreases f
      {
        var holds := rd.cond(condition, Scope());
        if holds.Err? {
          return Some(holds.error);
        }
        if !holds.value {
          return None;
        }
        if f == 0 {
          return Some(OutOfFuel);
        }
        error := ExecuteBlock(code, start, stop, f - 1);
        if error.Some? {
          return;
        }
        f := f - 1;
      }
    }

    method HandleForBlock(code: seq<string>, startLine: nat, maxLine: nat, fuel: nat) returns (next: nat, error: Option<Error>)
      requires startLine < maxLine <= |code| && |frames| > 0
      modifies this
      ensures var j := ForBlock(patterns, rd, old(Snapshot()), code, startLine, maxLine, fuel);
        Outcome(Snapshot(), error) == j.outcome && (error.None? ==> next == j.next)
      decreases fuel, maxLine - startLine, 0
    {
      var header := patterns.forHeader(code[startLine]);
      if header.None? {
        return 0, Some(InvalidForSyntax);
      }
      var h := header.value;
      var first := Bound(rd, h.from, Scope());
      if first.Err? {
        return 0, Some(first.error);
      }
      var last := Bound(rd, h.to, Scope());
      if last.Err? {
        return 0, Some(last.error);
      }
      var blockEnd := FindBlockEnd(code, startLine, maxLine);
      error := RunForLoop(code, h.variable, first.value, last.value, startLine + 1, blockEnd, fuel);
      if error.Some? {
        return 0, error;
      }
      return blockEnd + 1, None;
    }

    /** The counting loop of handleForBlock over the body lines [start, stop). */
    method RunForLoop(code: seq<string>, variable: string, first: int, last: int, start: nat, stop: nat, fuel: nat)
      returns (error: Option<Error>)
      requires stop <= |code| && |frames| > 0
      modifies this
      ensures Outcome(Snapshot(), error) == ForLoop(patterns, rd, old(Snapshot()), code, variable, first, last, start, stop, fuel)
      decreases fuel, stop - start, 0
    {
      var counter := first;
      var f: nat := fuel;
      while counter <= last
        invariant f <= fuel && |frames| == |old(frames)|
        invariant ForLoop(patterns, rd, Snapshot(), code, variable, counter, last, start, stop, f)
               == ForLoop(patterns, rd, old(Snapshot()), code, variable, first, last, start, stop, fuel)
        decreases f
      {
        if f == 0 {
          return Some(OutOfFuel);
        }
        ghost var before := Snapshot();
        frames := SetLocal(frames, variable, IntVal(counter));
        assert Snapshot() == Bind(before, variable, IntVal(counter));
        error := ExecuteBlock(code, start, stop, f - 1);
        if error.Some? {
          return;
        }
        counter := Wrap(counter + 1);
        f := f - 1;
      }
      return None;
    }

    method HandleFunctionDefinition(code: seq<string>, startLine: nat, maxLine: nat) returns (next: nat, error: Option<Error>)
      requires startLine < maxLine <= |code|
      modifies this
      ensures var j := DefineFunction(patterns, old(Snapshot()), code, startLine, maxLine);
        Outcome(Snapshot(), error) == j.outcome && (error.None? ==> next == j.next)
    {
      var header := patterns.functionHeader(code[startLine]);
      if header.None? {
        return 0, Some(InvalidFunctionSyntax);
      }
      var h := header.value;
      var parameters := SplitParameters(h.params);
      var blockEnd := FindBlockEnd(code, startLine, maxLine);
      var body := CopyLines(code, startLine + 1, blockEnd);
      functions := functions[h.fname := Function(h.fname, parameters, body)];
      return blockEnd + 1, None;
    }

    /** The lines [from, to) of the program, none when the range is empty. */
    static method CopyLines(code: seq<string>, from: nat, to: nat) returns (lines: seq<string>)
      requires to <= |code|
      ensures lines == if from <= to then code[from..to] else []
    {
      lines := [];
      var k := from;
      while k < to
        invariant from <= k && (k <= to || k == from)
        invariant lines == if k <= to then code[from..k] else []
      {
        lines := lines + [code[k]];
        k := k + 1;
      }
    }

    /** The parameter names of a function header, each word of the trimmed text trimmed again. */
    static method SplitParameters(params: Option<string>) returns (names: seq<string>)
      ensures names == ParameterNames(params)
    {
      names := [];
      if params.None? || Trim(params.value) == [] {
        return;
      }
      var words := Words(Trim(params.value));
      for k := 0 to |words|
        invariant names == seq(k, j requires 0 <= j < k => Trim(words[j]))
      {
        names := names + [Trim(words[k])];
      }
    }

    method ExecuteStatement(line: string, fuel: nat) returns (error: Option<Error>)
      requires |frames| > 0
      modifies this
      ensures Outcome(Snapshot(), error) == Statement(patterns, rd, old(Snapshot()), line, fuel)
      decreases fuel, 0, 3
    {
      match Dispatch(patterns.statement(line))
      case CreateVariable(a) =>
        var v := rd.eval(a.expr, Scope());
        error := Store(a.name, v);
      case SetVariable(a) =>
        var v: Result<Value>;
        if Contains(Lower(a.expr), "call ") {
          v := EvaluateFunctionCallExpression(a.expr, fuel);
        } else {
          v := rd.eval(a.expr, Scope());
        }
        error := Store(a.name, v);
      case IncreaseVariable(step) =>
        error := AdjustVariable(step, true);
      case DecreaseVariable(step) =>
        error := AdjustVariable(step, false);
      case Display(e) =>
        var v := rd.eval(e, Scope());
        if v.Err? {
          return Some(v.error);
        }
        output := output + FormatValue(v.value) + "\n";
        error := None;
      case Input(name) =>
        error := ReadLine(name);
      case FunctionCall(call) =>
        error := CallFunction(call.fname, call.args, fuel);
      case CreateList(name) =>
        frames := SetLocal(frames, name, ListVal([]));
        error := None;
      case ListAdd(a) =>
        error := AddToListVariable(a);
      case Unknown =>
        error := Some(UnknownCommand(line));
    }

    /** setVariable of an evaluated value in the current context, unless the evaluation failed. */
    method Store(name: string, v: Result<Value>) returns (error: Option<Error>)
      requires |frames| > 0
      modifies this
      ensures Outcome(Snapshot(), error) == Assigned(old(Snapshot()), name, v)
    {
      if v.Err? {
        return Some(v.error);
      }
      frames := SetLocal(frames, name, v.value);
      return None;
    }

    /** tryIncreaseVariable (up) and tryDecreaseVariable (down) after the match. */
    method AdjustVariable(step: Step, up: bool) returns (error: Option<Error>)
      requires |frames| > 0
      modifies this
      ensures Outcome(Snapshot(), error) == Adjust(rd, old(Snapshot()), step, up)
    {
      if !HasVariable(frames, globals, step.name) {
        return Some(NotDefined(step.name));
      }
      var amount := 1;
      if step.amount.Some? {
        var v := rd.eval(step.amount.value, Scope());
        if v.Err? {
          return Some(v.error);
        }
        if !v.value.IntVal? {
          return Some(ClassCastException);
        }
        amount := v.value.i;
      }
      var current := CurrentInt(GetVariable(frames, globals, step.name));
      if current.Err? {
        return Some(current.error);
      }
      frames := SetLocal(frames, step.name, IntVal(Wrap(if up then current.value + amount else current.value - amount)));
      return None;
    }

    /** tryInput after the match: prompt, read a line, store it. */
    method ReadLine(name: string) returns (error: Option<Error>)
      requires |frames| > 0
      modifies this
      ensures Outcome(Snapshot(), error) == ReadInput(old(Snapshot()), name)
    {
      output := output + "? ";
      if |input| == 0 {
        return Some(NoSuchElement);
      }
      var text := input[0];
      input := input[1..];
      var parsed := ParseInt(text);
      frames := SetLocal(frames, name, if parsed.Some? then IntVal(parsed.value) else TextVal(text));
      return None;
    }

    /** tryArrayAdd after the match. */
    method AddToListVariable(a: Assign) returns (error: Option<Error>)
      requires |frames| > 0
      modifies this
      ensures Outcome(Snapshot(), error) == AddToList(rd, old(Snapshot()), a)
    {
      var listName := Trim(a.name);
      var valueText := Trim(a.expr);
      if !HasVariable(frames, globals, listName) {
        return Some(NotDefined(listName));
      }
      var list := GetVariable(frames, globals, listName);
      if list.None? || !list.value.ListVal? {
        return Some(NotAList(listName));
      }
      var v := rd.eval(valueText, Scope());
      if v.Err? {
        return Some(v.error);
      }
      var rebound := Rebind(frames, globals, listName, ListVal(list.value.items + [v.value]));
      frames, globals := rebound.0, rebound.1;
      return None;
    }

    method CallFunction(fname: string, args: Option<string>, fuel: nat) returns (error: Option<Error>)
      requires |frames| > 0
      modifies this
      ensures Outcome(Snapshot(), error) == Execution.CallFunction(patterns, rd, old(Snapshot()), fname, args, fuel)
      decreases fuel, 0, 1
    {
      if fname !in functions {
        return Some(FunctionNotDefined(fname));
      }
      var f := functions[fname];
      var arguments := EvaluateArguments(ArgumentTexts(args));
      if arguments.Err? {
        return Some(arguments.error);
      }
      var values := arguments.value;
      if |values| != |f.parameters| {
        return Some(ArityMismatch(fname, |f.parameters|, |values|));
      }
      if fuel == 0 {
        return Some(OutOfFuel);
      }
      var frame := BindParameters(f.parameters, values);
      var previousReturnState := hasReturned;
      var previousReturnValue := returnValue;
      var depth := |frames|;
      frames := frames + [frame];
      hasReturned := false;
      returnValue := None;
      error := ExecuteBlock(f.body, 0, |f.body|, fuel - 1);
      frames := frames[..depth];
      if error.Some? {
        return;
      }
      hasReturned := previousReturnState;
      returnValue := previousReturnValue;
    }

    /** The arguments of callFunction, each evaluated in the caller's context, left to right. */
    method EvaluateArguments(texts: seq<string>) returns (r: Result<seq<Value>>)
      ensures r == EvaluateAll(rd, texts, Scope())
    {
      var env := Scope();
      var values: seq<Value> := [];
      assert texts[0..] == texts;
      ghost var all := EvaluateAll(rd, texts, env);
      assert all.Ok? ==> [] + all.value == all.value;
      for k := 0 to |texts|
        invariant all == match EvaluateAll(rd, texts[k..], env) case Err(x) => Err(x) case Ok(rest) => Ok(values + rest)
      {
        assert texts[k..][1..] == texts[k + 1..];
        var v := rd.eval(Trim(texts[k]), env);
        if v.Err? {
          return Err(v.error);
        }
        ghost var tail := EvaluateAll(rd, texts[k + 1..], env);
        if tail.Ok? {
          assert values + ([v.value] + tail.value) == (values + [v.value]) + tail.value;
        }
        values := values + [v.value];
      }
      assert texts[|texts|..] == [] && values + [] == values;
      return Ok(values);
    }

    /** The new context of a call, filled by setVariable for each parameter in turn. */
    static method BindParameters(names: seq<string>, values: seq<Value>) returns (frame: Frame)
      requires |names| == |values|
      ensures frame == Parameters(names, values)
    {
      frame := map[];
      for k := 0 to |names|
        invariant frame == Parameters(names[..k], values[..k])
      {
        assert names[..k + 1][..k] == names[..k] && values[..k + 1][..k] == values[..k];
        frame := frame[names[k] := values[k]];
      }
      assert names[..|names|] == names && values[..|values|] == values;
    }

    method EvaluateFunctionCallExpression(expr: string, fuel: nat) returns (r: Result<Value>)
      requires |frames| > 0
      modifies this
      ensures Valued(Snapshot(), r) == CallExpression(patterns, rd, old(Snapshot()), expr, fuel)
      decreases fuel, 0, 2
    {
      var form := patterns.callForm(expr);
      if form.None? {
        return Err(InvalidCallSyntax);
      }
      var error := CallFunction(form.value.fname, form.value.args, fuel);
      if error.Some? {
        return Err(error.value);
      }
      if returnValue.None? {
        return Err(NoReturnValue(form.value.fname));
      }
      var result := returnValue.value;
      returnValue := None;
      hasReturned := false;
      return Ok(result);
    }
  }
}
