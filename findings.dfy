/**
 * Defects of the executor as written, each exhibited on an input, next to a
 * corrected definition and the property it was evidently meant to have.
 *
 * 1. A value-returning call (`set x to call f`) reads the return slot after
 *    callFunction has put the caller's slot back, so it never sees the value
 *    the callee returned.
 * 2. handleIfBlock handles an elseif line as an if, cutting three characters
 *    off it: the condition keeps "eif" in front.
 * 3. Both condition cuts count characters on the line as stored, so an
 *    indented header loses the wrong characters.
 * 4. findBlockEnd does not count the `repeat` and `loop` headers.
 * 5. The elseif/else scan closes a level only at `end`, not at `done` or
 *    `finish`.
 * 6. A `return` inside a while loop does not end the loop: the body is skipped
 *    but the unchanged condition is evaluated again and again.
 * 7. An elseif is handled by handleIfBlock from its own line with the range
 *    of the whole program: findBlockEnd finds no end for it and the scan
 *    reads past the last line.
 */
module Findings {
  import opened Wrappers
  import opened JavaText
  import opened Values
  import opened Scopes
  import opened Blocks
  import opened Lines
  import opened Execution

  // ---------------------------------------------------------------------
  // Findings 2 and 3: the conditions cut out of header lines
  // ---------------------------------------------------------------------

  /** As written, an elseif line handled as an if keeps "eif " in front of its condition. */
  lemma ElseifConditionKeepsEif(c: string)
    requires Tight(c)
    ensures IfCondition("elseif " + c) == "eif " + c
  {
    var x := "eif " + c;
    assert ("elseif " + c)[3..] == x;
    assert x[|x| - 1] == c[|c| - 1];
    TrimPadded("", x, "");
    assert "" + x + "" == x;
  }

  /** As written, an if header indented by two blanks loses "  i" instead of "if ". */
  lemma IndentedIfConditionKeepsLetter(c: string)
    requires Tight(c)
    ensures IfCondition("  if " + c) == "f " + c
  {
    var x := "f " + c;
    assert ("  if " + c)[3..] == x;
    assert x[|x| - 1] == c[|c| - 1];
    TrimPadded("", x, "");
    assert "" + x + "" == x;
  }

  /** As written, a while header indented by two blanks loses "  whi" instead of "while ". */
  lemma IndentedWhileConditionKeepsLetters(c: string)
    requires Tight(c)
    ensures WhileCondition("  while " + c) == "le " + c
  {
    var line := "  while " + c;
    var t := "while " + c;
    assert line == "  " + t + "";
    assert t[|t| - 1] == c[|c| - 1];
    TrimPadded("  ", t, "");
    assert t == "while" + (" " + c);
    WordLengthOfWord("while", " " + c);
    var x := "le " + c;
    assert line[5..] == x;
    assert x[|x| - 1] == c[|c| - 1];
    TrimPadded("", x, "");
    assert "" + x + "" == x;
  }

  /**
   * Corrected: the condition is what follows the header's first word on the
   * trimmed line, whatever the keyword (if, elseif, while, repeat) and the
   * indentation.
   */
  lemma HeaderConditionReads(indent: string, keyword: string, c: string)
    requires AllTrimmed(indent) && keyword != [] && Solid(keyword) && Tight(c)
    ensures HeaderCondition(indent + keyword + " " + c) == c
  {
    var x := keyword + (" " + c);
    assert indent + keyword + " " + c == indent + x + "";
    assert x[|x| - 1] == c[|c| - 1];
    TrimPadded(indent, x, "");
    WordLengthOfWord(keyword, " " + c);
    assert x[|keyword|..] == " " + c + "";
    TrimPadded(" ", c, "");
  }

  // ---------------------------------------------------------------------
  // Findings 4 and 5: the two depth counters
  // ---------------------------------------------------------------------

  /**
   * As written, findBlockEnd does not count a `repeat` or `loop` header,
   * although the executor hands it to the while or for handler; the fixed
   * counter opens a level there.
   */
  lemma {:induction false} RepeatAndLoopNotCounted(line: string)
    requires StartsWith(Header(line), "repeat ") || StartsWith(Header(line), "loop ")
    ensures IsBlockHeader(line) && Delta(line, Written) == 0 && Delta(line, Fixed) == 1
  {
    var h := Header(line);
    if StartsWith(h, "repeat ") {
      assert h[0] == h[..7][0] == 'r';
    } else {
      assert h[0] == h[..5][0] == 'l';
    }
    NotPrefix(h, "if ");
    NotPrefix(h, "while ");
    NotPrefix(h, "for ");
    NotPrefix(h, "function ");
    NotPrefix(h, "define function");
  }

  /**
   * As written, in [header, body, end, after] with a repeat header the `end`
   * of the loop takes the depth below zero, no end is found and the loop's
   * block runs to the end of the range, taking in the line after the loop.
   */
  lemma RepeatBlockOverruns(header: string, body: string, after: string)
    requires StartsWith(Header(header), "repeat ") && Plain(body) && Plain(after)
    ensures BlockEnd([header, body, "end", after], 0, 4, Written) == 4
  {
    RepeatAndLoopNotCounted(header);
    KeywordLines();
    var code := [header, body, "end", after];
    assert Depth(code, 0, 3, Written) == -1;
    assert Depth(code, 0, 4, Written) == -1;
  }

  /** Corrected: with the fixed counter the same loop ends at its own `end`. */
  lemma RepeatBlockEndsWhenFixed(header: string, body: string, after: string)
    requires StartsWith(Header(header), "repeat ") && Plain(body)
    ensures BlockEnd([header, body, "end", after], 0, 4, Fixed) == 2
  {
    RepeatAndLoopNotCounted(header);
    KeywordLines();
    var code := [header, body, "end", after];
    assert Depth(code, 0, 3, Fixed) == 0;
  }

  /** Corrected: the fixed counter opens a level at every line the executor treats as a block header. */
  lemma {:induction false} FixedCountsEveryHeader(line: string)
    requires IsBlockHeader(line)
    ensures Delta(line, Fixed) == 1
  {
    var h := Header(line);
    if StartsWith(h, "define function ") {
      assert h[..15] == h[..16][..15];
    }
    assert Opens(h, Fixed);
    OpenerFirstLetter(h, Fixed);
  }

  /** findBlockEnd closes the while's level at `done` and ends the if of [if, while, done, else, end] at line 4. */
  lemma IfWithDoneEnds(first: string, inner: string)
    requires Opener(first) && Opener(inner)
    ensures BlockEnd([first, inner, "done", "else", "end"], 0, 5, Written) == 4
  {
    KeywordLines();
    var code := [first, inner, "done", "else", "end"];
    assert Depth(code, 0, 2, Written) == 2;
    assert Depth(code, 0, 3, Written) == 1;
    assert Depth(code, 0, 5, Written) == 0;
  }

  /** The scan's counter along [if, while, done, else, end], as written and fixed. */
  lemma ScanDepths(first: string, inner: string)
    requires Opener(first) && Opener(inner)
    ensures var code := [first, inner, "done", "else", "end"];
      ScanDepth(code, 0, 1, Written) == 1 && ScanDepth(code, 0, 2, Written) == 2
      && ScanDepth(code, 0, 3, Written) == 2 && ScanDepth(code, 0, 4, Written) == 2
      && ScanDepth(code, 0, 5, Written) == 1
    ensures var code := [first, inner, "done", "else", "end"];
      ScanDepth(code, 0, 1, Fixed) == 1 && ScanDepth(code, 0, 2, Fixed) == 2
      && ScanDepth(code, 0, 3, Fixed) == 1 && ScanDepth(code, 0, 4, Fixed) == 1
      && ScanDepth(code, 0, 5, Fixed) == 0
  {
    KeywordLines();
    var code := [first, inner, "done", "else", "end"];
    assert ScanDepth(code, 0, 2, Written) == 2;
    assert ScanDepth(code, 0, 2, Fixed) == 2;
  }

  /**
   * As written, the scan does not close the while's level at `done`, so the
   * `else` of the same program is seen at depth two and missed: the if has no
   * else branch.
   */
  lemma ScanMissesElseAfterDone(first: string, inner: string)
    requires Opener(first) && Opener(inner)
    ensures IfBranches([first, inner, "done", "else", "end"], 0, 4, Written) == Ok(Branches(None, None))
  {
    KeywordLines();
    ScanDepths(first, inner);
    var code := [first, inner, "done", "else", "end"];
    assert !MarkerAt(code, 0, 0, Written, ElseMarker) && !MarkerAt(code, 0, 1, Written, ElseMarker);
    assert !MarkerAt(code, 0, 2, Written, ElseMarker) && !MarkerAt(code, 0, 3, Written, ElseMarker);
    assert !MarkerAt(code, 0, 4, Written, ElseMarker);
    assert !MarkerAt(code, 0, 0, Written, ElseifMarker) && !MarkerAt(code, 0, 1, Written, ElseifMarker);
    assert !MarkerAt(code, 0, 2, Written, ElseifMarker) && !MarkerAt(code, 0, 3, Written, ElseifMarker);
    assert !MarkerAt(code, 0, 4, Written, ElseifMarker);
  }

  /** Corrected: the fixed scan closes a level at `done` and finds the else at line 3. */
  lemma ScanFindsElseWhenFixed(first: string, inner: string)
    requires Opener(first) && Opener(inner)
    ensures IfBranches([first, inner, "done", "else", "end"], 0, 4, Fixed) == Ok(Branches(None, Some(3)))
  {
    KeywordLines();
    ScanDepths(first, inner);
    var code := [first, inner, "done", "else", "end"];
    assert MarkerAt(code, 0, 3, Fixed, ElseMarker);
    assert !MarkerAt(code, 0, 0, Fixed, ElseMarker) && !MarkerAt(code, 0, 1, Fixed, ElseMarker);
    assert !MarkerAt(code, 0, 2, Fixed, ElseMarker);
    assert !MarkerAt(code, 0, 0, Fixed, ElseifMarker) && !MarkerAt(code, 0, 1, Fixed, ElseifMarker);
    assert !MarkerAt(code, 0, 2, Fixed, ElseifMarker) && !MarkerAt(code, 0, 3, Fixed, ElseifMarker);
    assert !MarkerAt(code, 0, 4, Fixed, ElseifMarker);
  }

  /** Corrected: the fixed scan counts depth exactly as findBlockEnd does. */
  lemma {:induction false} FixedScanAgrees(code: seq<string>, start: nat, i: nat)
    requires start <= i <= |code|
    ensures ScanDepth(code, start, i, Fixed) == Depth(code, start, i, Fixed)
    decreases i - start
  {
    if i > start {
      FixedScanAgrees(code, start, i - 1);
    }
  }

  // ---------------------------------------------------------------------
  // Finding 1: the value of a call expression
  // ---------------------------------------------------------------------

  /** A function whose body is the single line `return 5`. */
  function Five(): Function {
    Function("five", [], ["return 5"])
  }

  /** The one line of Five's body is a return statement of the expression `5`. */
  lemma ReturnFiveLine()
    ensures var line := Trim("return 5");
      line == "return 5" && !IsSkippable(line) && IsReturnStatement(line) && ReturnExpression(line) == "5"
  {
    var line := "return 5";
    HeaderOfPlain(line);
    TrimPadded("", line, "");
    assert "" + line + "" == line;
    assert line[..1][0] == 'r' && line[..2][0] == 'r';
    assert line[..7] == "return ";
    assert line[6..] == " " + "5";
    TrimPadded(" ", "5", "");
    assert " " + "5" + "" == " " + "5";
  }

  /** Calling Five runs its return: the callee's own state ends with the slot holding 5. */
  lemma FiveReturns(p: Patterns, rd: Readers, s: State, fuel: nat)
    requires |s.frames| > 0 && s.functions.Keys == {"five"} && s.functions["five"] == Five() && fuel > 0
    requires forall env :: rd.eval("5", env) == Ok(IntVal(5))
    ensures var r := Invoke(p, rd, s, "five", None, fuel);
      r.error == None && r.state.hasReturned && r.state.returnValue == Some(IntVal(5))
  {
    ReturnFiveLine();
    var callee := s.(frames := s.frames + [Parameters([], [])], hasReturned := false, returnValue := None);
    assert EvaluateAll(rd, ArgumentTexts(None), s.Scope()) == Ok([]);
    var j := Line(p, rd, callee, Five().body, 0, 1, fuel - 1);
    assert j.outcome == Outcome(callee.(returnValue := Some(IntVal(5)), hasReturned := true), None);
    assert Block(p, rd, callee, Five().body, 0, 1, fuel - 1) == j.outcome;
  }

  /**
   * As written, callFunction puts the caller's return flag and slot back
   * before evaluateFunctionCallExpression reads the slot. In a state whose
   * slot is empty (the interpreter starts with it empty), `set x to call five`
   * fails with "did not return a value" although the body returned 5.
   */
  lemma CallValueLost(p: Patterns, rd: Readers, s: State, expr: string, fuel: nat)
    requires |s.frames| > 0 && s.functions.Keys == {"five"} && s.functions["five"] == Five() && fuel > 0
    requires forall env :: rd.eval("5", env) == Ok(IntVal(5))
    requires p.callForm(expr) == Some(CallForm("five", None)) && s.returnValue.None?
    ensures CallExpression(p, rd, s, expr, fuel).value == Err(NoReturnValue("five"))
  {
    FiveReturns(p, rd, s, fuel);
  }

  /**
   * Corrected: the value of a call expression is read from the return slot
   * as the callee's body left it; the caller's flag and slot are put back
   * afterwards, as for a call statement.
   */
  function CallValue(p: Patterns, rd: Readers, s: State, expr: string, fuel: nat): (c: Valued)
    requires |s.frames| > 0
    ensures |c.state.frames| == |s.frames|
    ensures c.value.Ok? ==> c.state.hasReturned == s.hasReturned && c.state.returnValue == s.returnValue
  {
    match p.callForm(expr)
    case None => Valued(s, Err(InvalidCallSyntax))
    case Some(form) =>
      var r := Invoke(p, rd, s, form.fname, form.args, fuel);
      if r.error.Some? then Valued(r.state, Err(r.error.value))
      else
        var back := r.state.(hasReturned := s.hasReturned, returnValue := s.returnValue);
        match r.state.returnValue
        case None => Valued(back, Err(NoReturnValue(form.fname)))
        case Some(v) => Valued(back, Ok(v))
  }

  /** Corrected: a call expression succeeds exactly when the call does and the callee returned, and it has the call statement's effect. */
  lemma CallValueMatchesCall(p: Patterns, rd: Readers, s: State, expr: string, fuel: nat)
    requires |s.frames| > 0 && p.callForm(expr).Some?
    ensures var form := p.callForm(expr).value;
      var r := Invoke(p, rd, s, form.fname, form.args, fuel);
      var c := CallValue(p, rd, s, expr, fuel);
      (c.value.Ok? <==> r.error.None? && r.state.returnValue.Some?)
      && (c.value.Ok? ==> c.value.value == r.state.returnValue.value
                          && c.state == CallFunction(p, rd, s, form.fname, form.args, fuel).state)
  {
  }

  /** Corrected: `set x to call five` gets 5. */
  lemma CallValueOfFive(p: Patterns, rd: Readers, s: State, expr: string, fuel: nat)
    requires |s.frames| > 0 && s.functions.Keys == {"five"} && s.functions["five"] == Five() && fuel > 0
    requires forall env :: rd.eval("5", env) == Ok(IntVal(5))
    requires p.callForm(expr) == Some(CallForm("five", None))
    ensures CallValue(p, rd, s, expr, fuel).value == Ok(IntVal(5))
  {
    FiveReturns(p, rd, s, fuel);
  }

  // ---------------------------------------------------------------------
  // Finding 6: a return inside a while loop
  // ---------------------------------------------------------------------

  /**
   * As written, once a return has happened the while loop's body does
   * nothing, but the loop tests its condition again: in a state where it
   * holds, the loop never ends, whatever the fuel.
   */
  lemma {:induction false} ReturnedWhileSpins(p: Patterns, rd: Readers, s: State, code: seq<string>, condition: string,
                                              start: nat, stop: nat, fuel: nat)
    requires stop <= |code| && |s.frames| > 0 && s.hasReturned
    requires rd.cond(condition, s.Scope()) == Ok(true)
    ensures WhileLoop(p, rd, s, code, condition, start, stop, fuel) == Outcome(s, Some(OutOfFuel))
    decreases fuel
  {
    if fuel > 0 {
      assert Block(p, rd, s, code, start, stop, fuel - 1) == Outcome(s, None);
      ReturnedWhileSpins(p, rd, s, code, condition, start, stop, fuel - 1);
    }
  }

  /** Corrected: the loop also stops once a return has happened. */
  function WhileLoopFixed(p: Patterns, rd: Readers, s: State, code: seq<string>, condition: string,
                          start: nat, stop: nat, fuel: nat): (r: Outcome)
    requires stop <= |code| && |s.frames| > 0
    ensures |r.state.frames| == |s.frames|
    ensures r.error.None? ==> r.state.hasReturned || rd.cond(condition, r.state.Scope()) == Ok(false)
    decreases fuel
  {
    if s.hasReturned then Outcome(s, None)
    else
      match rd.cond(condition, s.Scope())
      case Err(x) => Outcome(s, Some(x))
      case Ok(holds) =>
        if !holds then Outcome(s, None)
        else if fuel == 0 then Outcome(s, Some(OutOfFuel))
        else
          var r := Block(p, rd, s, code, start, stop, fuel - 1);
          if r.error.Some? then r else WhileLoopFixed(p, rd, r.state, code, condition, start, stop, fuel - 1)
  }

  /** Corrected: a return in the body ends the loop with the state the return left. */
  lemma WhileFixedStopsAtReturn(p: Patterns, rd: Readers, s: State, code: seq<string>, condition: string,
                                start: nat, stop: nat, fuel: nat)
    requires stop <= |code| && |s.frames| > 0 && !s.hasReturned && fuel > 0
    requires rd.cond(condition, s.Scope()) == Ok(true)
    requires var r := Block(p, rd, s, code, start, stop, fuel - 1); r.error.None? && r.state.hasReturned
    ensures WhileLoopFixed(p, rd, s, code, condition, start, stop, fuel) == Block(p, rd, s, code, start, stop, fuel - 1)
  {
  }

  /** Corrected: without a return the fixed loop is the loop as written. */
  lemma {:induction false} WhileFixedAgrees(p: Patterns, rd: Readers, s: State, code: seq<string>, condition: string,
                                            start: nat, stop: nat, fuel: nat)
    requires stop <= |code| && |s.frames| > 0
    requires WhileLoop(p, rd, s, code, condition, start, stop, fuel).state.hasReturned == false
    ensures WhileLoopFixed(p, rd, s, code, condition, start, stop, fuel) == WhileLoop(p, rd, s, code, condition, start, stop, fuel)
    decreases fuel
  {
    if s.hasReturned {
      if rd.cond(condition, s.Scope()) == Ok(true) {
        ReturnedWhileSpins(p, rd, s, code, condition, start, stop, fuel);
      }
    } else if fuel > 0 && rd.cond(condition, s.Scope()) == Ok(true) {
      var r := Block(p, rd, s, code, start, stop, fuel - 1);
      if r.error.None? {
        WhileFixedAgrees(p, rd, r.state, code, condition, start, stop, fuel - 1);
      }
    }
  }

  // ---------------------------------------------------------------------
  // Finding 7: an elseif handled from its own line
  // ---------------------------------------------------------------------

  /**
   * An if at i, plain lines, an elseif at f, plain lines, its `end` at k,
   * then plain lines to the end of the program.
   */
  predicate ElseifLayout(code: seq<string>, i: nat, f: nat, k: nat) {
    i < f < k < |code| && Opener(code[i]) && StartsWith(Header(code[f]), "elseif ") && Header(code[k]) == "end"
    && PlainBetween(code, i + 1, f) && PlainBetween(code, f + 1, k) && PlainBetween(code, k + 1, |code|)
  }

  /** The counters along the layout, counted from the if line. */
  lemma ElseifDepths(code: seq<string>, i: nat, f: nat, k: nat, c: Counting)
    requires ElseifLayout(code, i, f, k)
    ensures Depth(code, i, k + 1, c) == 0 && ScanDepth(code, i, f + 1, c) == 1
  {
    ElseifCounts(code[f]);
    KeywordCounts(code[k]);
    assert Delta(code[i], c) == 1 && ScanDelta(code[i], c) == 1;
    assert Depth(code, i, i + 1, c) == 1;
    assert ScanDepth(code, i, i + 1, c) == 1;
    PlainRun(code, i, i + 1, f);
    PlainRun(code, i, f + 1, k);
  }

  /** findBlockEnd from the if line stops at its `end`, as written and fixed. */
  lemma ElseifOuterEnd(code: seq<string>, i: nat, f: nat, k: nat, c: Counting)
    requires ElseifLayout(code, i, f, k)
    ensures BlockEnd(code, i, |code|, c) == k
  {
    ElseifDepths(code, i, f, k, c);
    ElseifCounts(code[f]);
    assert EndsAt(code, i, k, c);
  }

  /** As written, the scan from the if line finds the elseif at f. */
  lemma ElseifFound(code: seq<string>, i: nat, f: nat, k: nat)
    requires ElseifLayout(code, i, f, k)
    ensures FirstMarker(code, i, k + 1, Written, ElseifMarker) == Some(f)
  {
    ElseifDepths(code, i, f, k, Written);
    assert MarkerAt(code, i, f, Written, ElseifMarker);
    assert !MarkerAt(code, i, i, Written, ElseifMarker);
    forall j | i < j < f
      ensures !MarkerAt(code, i, j, Written, ElseifMarker)
    {
      PlainIsNoMarker(code, i, j, Written);
    }
    var m := FirstMarker(code, i, k + 1, Written, ElseifMarker);
    assert m.Some? && m.value <= f;
  }

  /** findBlockEnd from the elseif line: the if's `end` takes the counter to -1, so no end is found before the end of the program. */
  lemma ElseifInnerEnd(code: seq<string>, i: nat, f: nat, k: nat)
    requires ElseifLayout(code, i, f, k)
    ensures BlockEnd(code, f, |code|, Written) == |code|
  {
    ElseifCounts(code[f]);
    KeywordCounts(code[k]);
    assert Depth(code, f, f + 1, Written) == 0;
    PlainRun(code, f, f + 1, k);
    assert Depth(code, f, k + 1, Written) == -1;
  }

  /**
   * As written, an if whose condition is false hands its elseif line to
   * handleIfBlock with the range of the whole program. Unless reading the
   * elseif's condition fails first, the scan then reads the line after the
   * last one: the statement always fails, whatever the elseif's condition.
   */
  lemma ElseifReadsPastEnd(p: Patterns, rd: Readers, s: State, code: seq<string>, i: nat, f: nat, k: nat, fuel: nat)
    requires ElseifLayout(code, i, f, k) && |s.frames| > 0
    requires |code[i]| >= 3 && rd.cond(IfCondition(code[i]), s.Scope()) == Ok(false)
    ensures |code[f]| >= 3
    ensures IfBlock(p, rd, s, code, i, |code|, fuel).outcome.error ==
      Some(match rd.cond(IfCondition(code[f]), s.Scope()) case Err(x) => x case Ok(_) => IndexOutOfBounds)
  {
    TrimSpec(code[f]);
    ElseifOuterEnd(code, i, f, k, Written);
    ElseifFound(code, i, f, k);
    ElseifInnerEnd(code, i, f, k);
  }

  /** The first line in [from, hi) that is a marker of the if block opened at `start`, with the fixed counter. */
  function MarkerFrom(code: seq<string>, start: nat, from: nat, hi: nat, m: Marker): (r: Option<nat>)
    requires start <= from <= hi <= |code|
    ensures r.Some? ==> from <= r.value < hi && MarkerAt(code, start, r.value, Fixed, m)
    ensures r.Some? ==> forall j :: from <= j < r.value ==> !MarkerAt(code, start, j, Fixed, m)
    ensures r.None? ==> forall j :: from <= j < hi ==> !MarkerAt(code, start, j, Fixed, m)
    decreases hi - from
  {
    if from == hi then None
    else if MarkerAt(code, start, from, Fixed, m) then Some(from)
    else MarkerFrom(code, start, from + 1, hi, m)
  }

  /** Where the arm starting at line `arm` stops: the next elseif, else the else, else the block end. */
  function ArmEnd(code: seq<string>, start: nat, arm: nat, blockEnd: nat): (r: nat)
    requires start <= arm < blockEnd <= |code|
    ensures arm < r <= blockEnd
  {
    var next := MarkerFrom(code, start, arm + 1, blockEnd, ElseifMarker);
    var other := MarkerFrom(code, start, arm + 1, blockEnd, ElseMarker);
    if next.Some? then next.value else if other.Some? then other.value else blockEnd
  }

  /**
   * Corrected: the arms of the if block opened at `start` and ended at
   * `blockEnd`, from the arm at line `arm` on. Each arm's condition is what
   * follows its keyword; the first that holds runs up to the next marker,
   * and a false one passes on to the next elseif of the same block, else to
   * the else.
   */
  function IfArmsFixed(p: Patterns, rd: Readers, s: State, code: seq<string>, start: nat, arm: nat, blockEnd: nat, fuel: nat): (r: Outcome)
    requires start <= arm < blockEnd <= |code| && |s.frames| > 0
    ensures |r.state.frames| == |s.frames|
    decreases blockEnd - arm
  {
    match rd.cond(HeaderCondition(code[arm]), s.Scope())
    case Err(x) => Outcome(s, Some(x))
    case Ok(met) =>
      var next := MarkerFrom(code, start, arm + 1, blockEnd, ElseifMarker);
      var other := MarkerFrom(code, start, arm + 1, blockEnd, ElseMarker);
      if met then Block(p, rd, s, code, arm + 1, ArmEnd(code, start, arm, blockEnd), fuel)
      else if next.Some? then IfArmsFixed(p, rd, s, code, start, next.value, blockEnd, fuel)
      else if other.Some? then Block(p, rd, s, code, other.value + 1, blockEnd, fuel)
      else Outcome(s, None)
  }

  /**
   * Corrected handleIfBlock: the block end found with the fixed counter, the
   * arms run within it, and execution goes on after it whichever arm ran.
   */
  function IfFixed(p: Patterns, rd: Readers, s: State, code: seq<string>, i: nat, end: nat, fuel: nat): (j: Jump)
    requires i < end <= |code| && |s.frames| > 0 && IsIfStatement(code[i])
    ensures j.next > i && |j.outcome.state.frames| == |s.frames|
  {
    HeaderBlockNotEmpty(code, i, end, Fixed);
    var blockEnd := BlockEnd(code, i, end, Fixed);
    Jump(IfArmsFixed(p, rd, s, code, i, i, blockEnd, fuel), blockEnd + 1)
  }

  /** With the fixed counter the arm after the elseif has no further marker before the `end`. */
  lemma ElseifArmAlone(code: seq<string>, i: nat, f: nat, k: nat)
    requires ElseifLayout(code, i, f, k)
    ensures MarkerFrom(code, i, i + 1, k, ElseifMarker) == Some(f)
    ensures MarkerFrom(code, i, f + 1, k, ElseifMarker) == None
    ensures MarkerFrom(code, i, f + 1, k, ElseMarker) == None
  {
    ElseifDepths(code, i, f, k, Fixed);
    assert MarkerAt(code, i, f, Fixed, ElseifMarker);
    forall j | i < j < k && j != f
      ensures !MarkerAt(code, i, j, Fixed, ElseifMarker) && !MarkerAt(code, i, j, Fixed, ElseMarker)
    {
      PlainIsNoMarker(code, i, j, Fixed);
    }
  }

  /** Corrected: a false condition passes on to the next elseif arm of the same block. */
  lemma ArmPassesOn(p: Patterns, rd: Readers, s: State, code: seq<string>, start: nat, arm: nat, blockEnd: nat, fuel: nat)
    requires start <= arm < blockEnd <= |code| && |s.frames| > 0
    requires rd.cond(HeaderCondition(code[arm]), s.Scope()) == Ok(false)
    requires MarkerFrom(code, start, arm + 1, blockEnd, ElseifMarker).Some?
    ensures IfArmsFixed(p, rd, s, code, start, arm, blockEnd, fuel) ==
      IfArmsFixed(p, rd, s, code, start, MarkerFrom(code, start, arm + 1, blockEnd, ElseifMarker).value, blockEnd, fuel)
  {
  }

  /** Corrected: an arm with no marker after it is the last one and runs up to the block end. */
  lemma LastArmRuns(p: Patterns, rd: Readers, s: State, code: seq<string>, start: nat, arm: nat, blockEnd: nat, fuel: nat)
    requires start <= arm < blockEnd <= |code| && |s.frames| > 0
    requires MarkerFrom(code, start, arm + 1, blockEnd, ElseifMarker).None?
    requires MarkerFrom(code, start, arm + 1, blockEnd, ElseMarker).None?
    ensures IfArmsFixed(p, rd, s, code, start, arm, blockEnd, fuel) ==
      match rd.cond(HeaderCondition(code[arm]), s.Scope())
      case Err(x) => Outcome(s, Some(x))
      case Ok(true) => Block(p, rd, s, code, arm + 1, blockEnd, fuel)
      case Ok(false) => Outcome(s, None)
  {
  }

  /**
   * Corrected: when the if's condition is false, the elseif's condition
   * decides; when it holds the elseif's lines run, and either way execution
   * goes on after the `end`.
   */
  lemma ElseifRunsWhenFixed(p: Patterns, rd: Readers, s: State, code: seq<string>, i: nat, f: nat, k: nat, fuel: nat)
    requires ElseifLayout(code, i, f, k) && |s.frames| > 0 && IsIfStatement(code[i])
    requires rd.cond(HeaderCondition(code[i]), s.Scope()) == Ok(false)
    ensures IfFixed(p, rd, s, code, i, |code|, fuel) ==
      match rd.cond(HeaderCondition(code[f]), s.Scope())
      case Err(x) => Jump(Outcome(s, Some(x)), k + 1)
      case Ok(true) => Jump(Block(p, rd, s, code, f + 1, k, fuel), k + 1)
      case Ok(false) => Jump(Outcome(s, None), k + 1)
  {
    ElseifOuterEnd(code, i, f, k, Fixed);
    assert IfFixed(p, rd, s, code, i, |code|, fuel) == Jump(IfArmsFixed(p, rd, s, code, i, i, k, fuel), k + 1);
    ElseifArmAlone(code, i, f, k);
    ArmPassesOn(p, rd, s, code, i, i, k, fuel);
    LastArmRuns(p, rd, s, code, i, f, k, fuel);
  }
}
