/**
 * The structured executor as functions over an explicit machine state:
 * executeBlock and the handlers it dispatches to (return, if/elseif/else,
 * while/repeat, for/loop, function definitions), executeStatement with its
 * nine statement forms, and function calls with their parameter scope and
 * the save-and-restore of the return slot.
 *
 * java.util.regex is not modelled: what each statement regex captures from a
 * line is given by `Patterns`, and the dispatcher keeps the source's order of
 * trying them. Loops that may not end and nested calls consume `fuel`; a run
 * that exhausts it ends with OutOfFuel.
 */
module Execution {
  import opened Wrappers
  import opened JavaText
  import opened JavaInt
  import opened Values
  import opened Scopes
  import opened Expressions
  import opened Conditions
  import opened Blocks

  /** A defined function: its name, parameter names and the lines of its body. */
  datatype Function = Function(name: string, parameters: seq<string>, body: seq<string>)

  /** The captures of `create ... called N with value E`, `set N to E` and `add E to N`. */
  datatype Assign = Assign(name: string, expr: string)

  /** The captures of `increase N [by A]` and `decrease N [by A]`. */
  datatype Step = Step(name: string, amount: Option<string>)

  /** The captures of `call F [with ARGS]`. */
  datatype CallForm = CallForm(fname: string, args: Option<string>)

  /** What each statement regex captures when it matches the whole (trimmed) line, None when it does not. */
  datatype Captures = Captures(
    createVariable: Option<Assign>,
    setVariable: Option<Assign>,
    increaseVariable: Option<Step>,
    decreaseVariable: Option<Step>,
    display: Option<string>,
    input: Option<string>,
    functionCall: Option<CallForm>,
    createList: Option<string>,
    listAdd: Option<Assign>)

  datatype ForHeader = ForHeader(variable: string, from: string, to: string)

  datatype FunctionHeader = FunctionHeader(fname: string, params: Option<string>)

  /**
   * The regex engine: the statement forms (whole-line matches), and the first
   * match of the for header, the function header and the call form in a text.
   */
  datatype Patterns = Patterns(
    statement: string -> Captures,
    forHeader: string -> Option<ForHeader>,
    functionHeader: string -> Option<FunctionHeader>,
    callForm: string -> Option<CallForm>)

  /**
   * How the executor reads an expression (evaluateExpression) and a condition
   * (evaluateCondition) in a scope. The executor is stated for any readers;
   * `Lexi` supplies the ones of the Expressions and Conditions modules.
   */
  datatype Readers = Readers(
    eval: (string, Env) -> Result<Value>,
    cond: (string, Env) -> Result<bool>)

  function Lexi(): Readers {
    Readers((e, env) => EvaluateExpression(e, env), (c, env) => ConditionValue(c, env))
  }

  datatype Command =
    | CreateVariable(assign: Assign)
    | SetVariable(assign: Assign)
    | IncreaseVariable(step: Step)
    | DecreaseVariable(step: Step)
    | Display(expr: string)
    | Input(name: string)
    | FunctionCall(call: CallForm)
    | CreateList(name: string)
    | ListAdd(assign: Assign)
    | Unknown

  /** executeStatement tries the forms in a fixed order; the first that matches runs. */
  function Dispatch(c: Captures): (r: Command)
    ensures r.Unknown? <==>
              (c.createVariable.None? && c.setVariable.None? && c.increaseVariable.None?
               && c.decreaseVariable.None? && c.display.None? && c.input.None? && c.functionCall.None?
               && c.createList.None? && c.listAdd.None?)
  {
    if c.createVariable.Some? then CreateVariable(c.createVariable.value)
    else if c.setVariable.Some? then SetVariable(c.setVariable.value)
    else if c.increaseVariable.Some? then IncreaseVariable(c.increaseVariable.value)
    else if c.decreaseVariable.Some? then DecreaseVariable(c.decreaseVariable.value)
    else if c.display.Some? then Display(c.display.value)
    else if c.input.Some? then Input(c.input.value)
    else if c.functionCall.Some? then FunctionCall(c.functionCall.value)
    else if c.createList.Some? then CreateList(c.createList.value)
    else if c.listAdd.Some? then ListAdd(c.listAdd.value)
    else Unknown
  }

  /**
   * The interpreter's state: the chain of execution contexts (outermost first,
   * the current one last), globalVariables, the function table, the return
   * flag and slot, what has been printed, and the input lines not yet read.
   */
  datatype State = State(
    frames: seq<Frame>,
    globals: Frame,
    functions: map<string, Function>,
    hasReturned: bool,
    returnValue: Option<Value>,
    output: string,
    input: seq<string>)
  {
    /** What the expressions of the current context see. */
    function Scope(): Env { Env(frames, globals) }
  }

  /** Where a run stands after a statement, a block or a call: the state, and the exception that ended it, if any. */
  datatype Outcome = Outcome(state: State, error: Option<Error>)

  /** The outcome of one line of a block, and the index executeBlock goes on from. */
  datatype Jump = Jump(outcome: Outcome, next: nat)

  /** The state after evaluating a call expression, and its value or failure. */
  datatype Valued = Valued(state: State, value: Result<Value>)

  /** runProgram's starting state: one empty global context and nothing returned. */
  function Start(functions: map<string, Function>, input: seq<string>): State {
    State([map[]], map[], functions, false, None, "", input)
  }

  /** setVariable on the current context. */
  function Bind(s: State, name: string, v: Value): State
    requires |s.frames| > 0
  {
    s.(frames := SetLocal(s.frames, name, v))
  }

  /** Storing the value of an expression, or stopping at its failure. */
  function Assigned(s: State, name: string, r: Result<Value>): (o: Outcome)
    requires |s.frames| > 0
    ensures |o.state.frames| == |s.frames|
    ensures r.Err? ==> o == Outcome(s, Some(r.error))
    ensures r.Ok? ==> o.error.None? && Stored(s, o.state, name, r.value)
  {
    match r
    case Err(x) => Outcome(s, Some(x))
    case Ok(v) => BindSpec(s, name, v); Outcome(Bind(s, name, v), None)
  }

  /**
   * `t` is `s` with `name` set to `v` in the current context: the other
   * contexts, the globals and everything else as they were, so `name` reads
   * as `v` and every other name as before.
   */
  ghost predicate Stored(s: State, t: State, name: string, v: Value)
    requires |s.frames| > 0
  {
    var n := |s.frames| - 1;
    t == s.(frames := t.frames) && |t.frames| == |s.frames|
    && t.frames[..n] == s.frames[..n] && t.frames[n] == s.frames[n][name := v]
    && t.Scope().Get(name) == Some(v)
    && forall other :: other != name ==> t.Scope().Get(other) == s.Scope().Get(other)
  }

  lemma BindSpec(s: State, name: string, v: Value)
    requires |s.frames| > 0
    ensures Stored(s, Bind(s, name, v), name, v)
  {
    SetLocalKeeps(s.frames, s.globals, name, v);
  }

  /** The `(int)` cast the increase and decrease forms apply to the amount: only an Integer passes. */
  function AsInt(r: Result<Value>): Result<int> {
    match r
    case Err(x) => Err(x)
    case Ok(IntVal(n)) => Ok(n)
    case Ok(_) => Err(ClassCastException)
  }

  /** toInt of what getVariable returns; null is an invalid number. */
  function CurrentInt(v: Option<Value>): Result<int> {
    match v
    case None => Err(InvalidNumber)
    case Some(x) => ToInt(x)
  }

  /**
   * increase / decrease: the name must be defined; the amount (1 when absent)
   * is evaluated and cast, then the current value converted, and the sum or
   * difference, wrapped to an int, is stored in the current context.
   */
  function Adjust(rd: Readers, s: State, step: Step, up: bool): (o: Outcome)
    requires |s.frames| > 0
    ensures |o.state.frames| == |s.frames|
    ensures !s.Scope().Has(step.name) ==> o == Outcome(s, Some(NotDefined(step.name)))
    ensures o.error.Some? ==> o.state == s
    ensures o.error.None? <==>
      s.Scope().Has(step.name) && Amount(rd, s, step).Ok? && CurrentInt(s.Scope().Get(step.name)).Ok?
    ensures o.error.None? ==>
      var a := Amount(rd, s, step).value;
      var c := CurrentInt(s.Scope().Get(step.name)).value;
      Stored(s, o.state, step.name, IntVal(Wrap(if up then c + a else c - a)))
  {
    if !s.Scope().Has(step.name) then Outcome(s, Some(NotDefined(step.name)))
    else
      match Amount(rd, s, step)
      case Err(x) => Outcome(s, Some(x))
      case Ok(a) =>
        match CurrentInt(s.Scope().Get(step.name))
        case Err(x) => Outcome(s, Some(x))
        case Ok(c) =>
          var v := IntVal(Wrap(if up then c + a else c - a));
          BindSpec(s, step.name, v);
          Outcome(Bind(s, step.name, v), None)
  }

  /** The amount of an increase or decrease: 1 when absent, else the expression cast to an int. */
  function Amount(rd: Readers, s: State, step: Step): Result<int> {
    if step.amount.None? then Ok(1) else AsInt(rd.eval(step.amount.value, s.Scope()))
  }

  /**
   * `add E to N`: both captures trimmed; N must be defined and hold a list;
   * then E is evaluated and appended to that list where it is bound.
   */
  function AddToList(rd: Readers, s: State, a: Assign): (o: Outcome)
    requires |s.frames| > 0
    ensures |o.state.frames| == |s.frames|
    ensures o.error.Some? ==> o.state == s
    ensures !s.Scope().Has(Trim(a.name)) ==> o.error == Some(NotDefined(Trim(a.name)))
    ensures s.Scope().Has(Trim(a.name)) && !IsList(s.Scope().Get(Trim(a.name))) ==>
      o.error == Some(NotAList(Trim(a.name)))
    ensures o.error.None? <==>
      s.Scope().Has(Trim(a.name)) && IsList(s.Scope().Get(Trim(a.name))) && rd.eval(Trim(a.expr), s.Scope()).Ok?
    ensures o.error.None? ==>
      var name := Trim(a.name);
      var t := o.state.Scope();
      o.state == s.(frames := o.state.frames, globals := o.state.globals)
      && t.Get(name) == Some(ListVal(s.Scope().Get(name).value.items + [rd.eval(Trim(a.expr), s.Scope()).value]))
      && forall other :: other != name ==> t.Get(other) == s.Scope().Get(other)
  {
    var listName := Trim(a.name);
    var valueText := Trim(a.expr);
    if !s.Scope().Has(listName) then Outcome(s, Some(NotDefined(listName)))
    else
      match s.Scope().Get(listName)
      case None => Outcome(s, Some(NotAList(listName)))
      case Some(list) =>
        if !list.ListVal? then Outcome(s, Some(NotAList(listName)))
        else
          match rd.eval(valueText, s.Scope())
          case Err(x) => Outcome(s, Some(x))
          case Ok(v) =>
            var (frames, globals) := Rebind(s.frames, s.globals, listName, ListVal(list.items + [v]));
            RebindKeeps(s.frames, s.globals, listName, ListVal(list.items + [v]));
            Outcome(s.(frames := frames, globals := globals), None)
  }

  /** What getVariable returned is a list. */
  predicate IsList(v: Option<Value>) {
    v.Some? && v.value.ListVal?
  }

  /**
   * `ask for N`: prints the prompt, reads a line, stores it as an int when
   * parseInt accepts it and as text otherwise; no line left is an error.
   */
  function ReadInput(s: State, name: string): (o: Outcome)
    requires |s.frames| > 0
    ensures |o.state.frames| == |s.frames|
    ensures o.state.output == s.output + "? "
    ensures |s.input| == 0 ==> o == Outcome(s.(output := s.output + "? "), Some(NoSuchElement))
    ensures |s.input| > 0 ==>
      var prompted := s.(output := s.output + "? ", input := s.input[1..]);
      o.error.None?
      && (ParseInt(s.input[0]).Some? ==> Stored(prompted, o.state, name, IntVal(ParseInt(s.input[0]).value)))
      && (ParseInt(s.input[0]).None? ==> Stored(prompted, o.state, name, TextVal(s.input[0])))
  {
    var prompted := s.(output := s.output + "? ");
    if |s.input| == 0 then Outcome(prompted, Some(NoSuchElement))
    else
      var line := s.input[0];
      var v := match ParseInt(line) case Some(n) => IntVal(n) case None => TextVal(line);
      BindSpec(prompted.(input := s.input[1..]), name, v);
      Outcome(Bind(prompted.(input := s.input[1..]), name, v), None)
  }

  /** Every text of the list evaluated in order; the first failure is the result. */
  function EvaluateAll(rd: Readers, texts: seq<string>, env: Env): (r: Result<seq<Value>>)
    ensures r.Ok? ==> |r.value| == |texts|
    decreases |texts|
  {
    if |texts| == 0 then Ok([])
    else
      match rd.eval(Trim(texts[0]), env)
      case Err(x) => Err(x)
      case Ok(v) =>
        match EvaluateAll(rd, texts[1..], env)
        case Err(x) => Err(x)
        case Ok(vs) => Ok([v] + vs)
  }

  /** The argument texts: none without `with`, else the text split at commas. */
  function ArgumentTexts(args: Option<string>): seq<string> {
    if args.None? then [] else SplitOn(args.value, {','})
  }

  /** The new context of a call: each parameter bound to its argument in order, a later duplicate winning. */
  function Parameters(names: seq<string>, values: seq<Value>): (f: Frame)
    requires |names| == |values|
    ensures forall k :: 0 <= k < |names| ==> names[k] in f
    decreases |names|
  {
    if |names| == 0 then map[]
    else
      var n := |names| - 1;
      Parameters(names[..n], values[..n])[names[n] := values[n]]
  }

  /** The parameter list of a function header: the words of the trimmed text, each trimmed. */
  function ParameterNames(params: Option<string>): seq<string> {
    if params.None? || Trim(params.value) == [] then []
    else
      var words := Words(Trim(params.value));
      seq(|words|, k requires 0 <= k < |words| => Trim(words[k]))
  }

  /** The text of a return statement after the keyword, trimmed. */
  function ReturnExpression(line: string): string
    requires |line| >= 6
  {
    Trim(line[6..])
  }

  /**
   * handleFunctionDefinition: the header's name and parameters, the lines up to
   * findBlockEnd as the body; the table entry is replaced and execution goes on
   * after the terminator.
   */
  function DefineFunction(p: Patterns, s: State, code: seq<string>, i: nat, end: nat): (j: Jump)
    requires i < end <= |code|
    ensures j.next > i && j.outcome.state.frames == s.frames
    ensures p.functionHeader(code[i]).None? ==> j == Jump(Outcome(s, Some(InvalidFunctionSyntax)), i + 1)
    ensures p.functionHeader(code[i]).Some? ==>
      var h := p.functionHeader(code[i]).value;
      var b := BlockEnd(code, i, end, Written);
      var t := j.outcome.state;
      j.outcome.error.None? && j.next == b + 1
      && t == s.(functions := t.functions)
      && t.functions.Keys == s.functions.Keys + {h.fname}
      && (forall n :: n in s.functions && n != h.fname ==> t.functions[n] == s.functions[n])
      && t.functions[h.fname].name == h.fname
      && t.functions[h.fname].parameters == ParameterNames(h.params)
      && (IsFunctionDefinition(code[i]) ==> b > i && t.functions[h.fname].body == code[i + 1..b])
  {
    match p.functionHeader(code[i])
    case None => Jump(Outcome(s, Some(InvalidFunctionSyntax)), i + 1)
    case Some(h) =>
      var blockEnd := BlockEnd(code, i, end, Written);
      DefinitionBodyFollows(code, i, end);
      var body := if blockEnd > i then code[i + 1..blockEnd] else [];
      var f := Function(h.fname, ParameterNames(h.params), body);
      Jump(Outcome(s.(functions := s.functions[h.fname := f]), None), blockEnd + 1)
  }

  /**
   * executeBlock over lines [i, end): it stops at the end of the range, after a
   * return (here or in a nested block), at a terminator line, or at the first
   * exception.
   */
  function Block(p: Patterns, rd: Readers, s: State, code: seq<string>, i: nat, end: nat, fuel: nat): (r: Outcome)
    requires end <= |code| && |s.frames| > 0
    ensures |r.state.frames| == |s.frames|
    decreases fuel, end - i, 2
  {
    if i >= end || s.hasReturned then Outcome(s, None)
    else
      var j := Line(p, rd, s, code, i, end, fuel);
      if j.outcome.error.Some? then j.outcome
      else Block(p, rd, j.outcome.state, code, j.next, end, fuel)
  }

  /**
   * One iteration of executeBlock's loop, at line i: what it does and where the
   * loop goes on (`end` when the block is left).
   */
  function Line(p: Patterns, rd: Readers, s: State, code: seq<string>, i: nat, end: nat, fuel: nat): (j: Jump)
    requires i < end <= |code| && |s.frames| > 0
    ensures j.next > i && |j.outcome.state.frames| == |s.frames|
    decreases fuel, end - i, 1
  {
    var line := Trim(code[i]);
    if IsSkippable(line) then Jump(Outcome(s, None), i + 1)
    else if IsReturnStatement(line) then
      TrimSpec(line);
      match rd.eval(ReturnExpression(line), s.Scope())
      case Err(x) => Jump(Outcome(s, Some(x)), end)
      case Ok(v) => Jump(Outcome(s.(returnValue := Some(v), hasReturned := true), None), end)
    else if IsIfStatement(line) then IfBlock(p, rd, s, code, i, end, fuel)
    else if IsWhileStatement(line) then WhileBlock(p, rd, s, code, i, end, fuel)
    else if IsForStatement(line) then ForBlock(p, rd, s, code, i, end, fuel)
    else if IsFunctionDefinition(line) then DefineFunction(p, s, code, i, end)
    else if IsBlockEnd(line) then Jump(Outcome(s, None), end)
    else Jump(Statement(p, rd, s, line, fuel), i + 1)
  }

  /**
   * handleIfBlock at line i: the condition, then the block end and the
   * elseif/else scan; the first branch runs, or the elseif line is handled as
   * an if of its own, or the else branch runs. The scan reads line blockEnd,
   * so an elseif may be found on the first line after the range.
   */
  function IfBlock(p: Patterns, rd: Readers, s: State, code: seq<string>, i: nat, end: nat, fuel: nat): (j: Jump)
    requires i <= end && i < |code| && end <= |code| && |s.frames| > 0
    ensures j.next > i && |j.outcome.state.frames| == |s.frames|
    decreases fuel, end - i, 0
  {
    if |code[i]| < 3 then Jump(Outcome(s, Some(IndexOutOfBounds)), i + 1)
    else
      match rd.cond(IfCondition(code[i]), s.Scope())
      case Err(x) => Jump(Outcome(s, Some(x)), i + 1)
      case Ok(met) =>
        var blockEnd := BlockEnd(code, i, end, Written);
        match IfBranches(code, i, blockEnd, Written)
        case Err(x) => Jump(Outcome(s, Some(x)), i + 1)
        case Ok(b) =>
          MarkersFollowStart(code, i, blockEnd + 1, Written);
          if met then Jump(Block(p, rd, s, code, i + 1, IfEnd(b, blockEnd), fuel), blockEnd + 1)
          else if b.elseifLine.Some? then IfBlock(p, rd, s, code, b.elseifLine.value, end, fuel)
          else if b.elseLine.Some? then Jump(Block(p, rd, s, code, b.elseLine.value + 1, blockEnd, fuel), blockEnd + 1)
          else Jump(Outcome(s, None), blockEnd + 1)
  }

  /** An if statement at line i, started in s, ended with o and (unless it failed) went on at next. */
  predicate IfRan(p: Patterns, rd: Readers, s: State, code: seq<string>, i: nat, end: nat, fuel: nat, o: Outcome, next: nat)
    requires i <= end && i < |code| && end <= |code| && |s.frames| > 0
  {
    var j := IfBlock(p, rd, s, code, i, end, fuel);
    o == j.outcome && (o.error.None? ==> next == j.next)
  }

  /** handleWhileBlock at line i: the body [i + 1, blockEnd) runs while the condition holds. */
  function WhileBlock(p: Patterns, rd: Readers, s: State, code: seq<string>, i: nat, end: nat, fuel: nat): (j: Jump)
    requires i < end <= |code| && |s.frames| > 0
    ensures j.next > i && |j.outcome.state.frames| == |s.frames|
    decreases fuel, end - i, 0
  {
    var blockEnd := BlockEnd(code, i, end, Written);
    Jump(WhileLoop(p, rd, s, code, WhileCondition(code[i]), i + 1, blockEnd, fuel), blockEnd + 1)
  }

  /** The loop of handleWhileBlock: each test of a true condition runs the body once, at the cost of one unit of fuel. */
  function WhileLoop(p: Patterns, rd: Readers, s: State, code: seq<string>, condition: string, start: nat, stop: nat, fuel: nat): (r: Outcome)
    requires stop <= |code| && |s.frames| > 0
    ensures |r.state.frames| == |s.frames|
    decreases fuel, stop - start, 0
  {
    match rd.cond(condition, s.Scope())
    case Err(x) => Outcome(s, Some(x))
    case Ok(holds) =>
      if !holds then Outcome(s, None)
      else if fuel == 0 then Outcome(s, Some(OutOfFuel))
      else
        var r := Block(p, rd, s, code, start, stop, fuel - 1);
        if r.error.Some? then r else WhileLoop(p, rd, r.state, code, condition, start, stop, fuel - 1)
  }

  /**
   * handleForBlock at line i: the header's variable and bounds (each evaluated,
   * then converted by toInt), and the body run for every int from the first
   * bound to the second.
   */
  function ForBlock(p: Patterns, rd: Readers, s: State, code: seq<string>, i: nat, end: nat, fuel: nat): (j: Jump)
    requires i < end <= |code| && |s.frames| > 0
    ensures j.next > i && |j.outcome.state.frames| == |s.frames|
    decreases fuel, end - i, 0
  {
    match p.forHeader(code[i])
    case None => Jump(Outcome(s, Some(InvalidForSyntax)), i + 1)
    case Some(h) =>
      match Bound(rd, h.from, s.Scope())
      case Err(x) => Jump(Outcome(s, Some(x)), i + 1)
      case Ok(first) =>
        match Bound(rd, h.to, s.Scope())
        case Err(x) => Jump(Outcome(s, Some(x)), i + 1)
        case Ok(last) =>
          var blockEnd := BlockEnd(code, i, end, Written);
          Jump(ForLoop(p, rd, s, code, h.variable, first, last, i + 1, blockEnd, fuel), blockEnd + 1)
  }

  /** A bound of a for header: toInt of the expression's value. */
  function Bound(rd: Readers, text: string, env: Env): Result<int> {
    match rd.eval(text, env)
    case Err(x) => Err(x)
    case Ok(v) => ToInt(v)
  }

  /**
   * The counting loop `for (int i = first; i <= last; i++)`: the variable is set
   * in the current context before each run of the body; `i++` wraps at IntMax.
   */
  function ForLoop(p: Patterns, rd: Readers, s: State, code: seq<string>, variable: string, counter: int, last: int,
                   start: nat, stop: nat, fuel: nat): (r: Outcome)
    requires stop <= |code| && |s.frames| > 0
    ensures |r.state.frames| == |s.frames|
    decreases fuel, stop - start, 0
  {
    if counter > last then Outcome(s, None)
    else if fuel == 0 then Outcome(s, Some(OutOfFuel))
    else
      var r := Block(p, rd, Bind(s, variable, IntVal(counter)), code, start, stop, fuel - 1);
      if r.error.Some? then r
      else ForLoop(p, rd, r.state, code, variable, Wrap(counter + 1), last, start, stop, fuel - 1)
  }

  /** executeStatement on a trimmed line: the first statement form that matches runs. */
  function Statement(p: Patterns, rd: Readers, s: State, line: string, fuel: nat): (o: Outcome)
    requires |s.frames| > 0
    ensures |o.state.frames| == |s.frames|
    decreases fuel, 0, 3
  {
    match Dispatch(p.statement(line))
    case CreateVariable(a) => Assigned(s, a.name, rd.eval(a.expr, s.Scope()))
    case SetVariable(a) =>
      if Contains(Lower(a.expr), "call ") then
        var c := CallExpression(p, rd, s, a.expr, fuel);
        Assigned(c.state, a.name, c.value)
      else Assigned(s, a.name, rd.eval(a.expr, s.Scope()))
    case IncreaseVariable(step) => Adjust(rd, s, step, true)
    case DecreaseVariable(step) => Adjust(rd, s, step, false)
    case Display(e) =>
      (match rd.eval(e, s.Scope())
       case Err(x) => Outcome(s, Some(x))
       case Ok(v) => Outcome(s.(output := s.output + FormatValue(v) + "\n"), None))
    case Input(name) => ReadInput(s, name)
    case FunctionCall(c) => CallFunction(p, rd, s, c.fname, c.args, fuel)
    case CreateList(name) => Outcome(Bind(s, name, ListVal([])), None)
    case ListAdd(a) => AddToList(rd, s, a)
    case Unknown => Outcome(s, Some(UnknownCommand(line)))
  }


  /**
   * callFunction up to the end of the body: the function must exist, the
   * arguments are evaluated in the caller's context and must match the
   * parameters in number; the body runs in a new context on top of the
   * caller's with the return flag and slot cleared. The callee's context is
   * dropped afterwards; the flag and slot are as the body left them.
   */
  function Invoke(p: Patterns, rd: Readers, s: State, fname: string, args: Option<string>, fuel: nat): (o: Outcome)
    requires |s.frames| > 0
    ensures |o.state.frames| == |s.frames|
    ensures fname !in s.functions ==> o == Outcome(s, Some(FunctionNotDefined(fname)))
    ensures o.error.None? ==> fname in s.functions && |ArgumentTexts(args)| == |s.functions[fname].parameters|
    decreases fuel, 0, 0
  {
    if fname !in s.functions then Outcome(s, Some(FunctionNotDefined(fname)))
    else
      var f := s.functions[fname];
      match EvaluateAll(rd, ArgumentTexts(args), s.Scope())
      case Err(x) => Outcome(s, Some(x))
      case Ok(values) =>
        if |values| != |f.parameters| then Outcome(s, Some(ArityMismatch(fname, |f.parameters|, |values|)))
        else if fuel == 0 then Outcome(s, Some(OutOfFuel))
        else
          var callee := s.(frames := s.frames + [Parameters(f.parameters, values)], hasReturned := false, returnValue := None);
          var r := Block(p, rd, callee, f.body, 0, |f.body|, fuel - 1);
          Outcome(r.state.(frames := r.state.frames[..|s.frames|]), r.error)
  }

  /** callFunction: the call, after which the caller's return flag and slot are put back. */
  function CallFunction(p: Patterns, rd: Readers, s: State, fname: string, args: Option<string>, fuel: nat): (o: Outcome)
    requires |s.frames| > 0
    ensures |o.state.frames| == |s.frames|
    ensures o.error.None? ==> o.state.hasReturned == s.hasReturned && o.state.returnValue == s.returnValue
    decreases fuel, 0, 1
  {
    var r := Invoke(p, rd, s, fname, args, fuel);
    if r.error.Some? then r
    else Outcome(r.state.(hasReturned := s.hasReturned, returnValue := s.returnValue), None)
  }


  /**
   * evaluateFunctionCallExpression: the call form is found in the text, the
   * call made, and the return slot read after callFunction has put it back;
   * an empty slot is an error, a full one is taken and cleared.
   */
  function CallExpression(p: Patterns, rd: Readers, s: State, expr: string, fuel: nat): (c: Valued)
    requires |s.frames| > 0
    ensures |c.state.frames| == |s.frames|
    decreases fuel, 0, 2
  {
    match p.callForm(expr)
    case None => Valued(s, Err(InvalidCallSyntax))
    case Some(form) =>
      var r := CallFunction(p, rd, s, form.fname, form.args, fuel);
      if r.error.Some? then Valued(r.state, Err(r.error.value))
      else if r.state.returnValue.None? then Valued(r.state, Err(NoReturnValue(form.fname)))
      else Valued(r.state.(returnValue := None, hasReturned := false), Ok(r.state.returnValue.value))
  }

  /** runProgram: a new global context and a cleared return flag and slot; the rest of the state carries over. */
  function Restart(s: State): State {
    s.(frames := [map[]], hasReturned := false, returnValue := None)
  }

  /** runProgram: the whole program as one block, read with Lexi's own expression and condition readers. */
  function RunProgram(p: Patterns, s: State, program: seq<string>, fuel: nat): Outcome {
    Block(p, Lexi(), Restart(s), program, 0, |program|, fuel)
  }
}
