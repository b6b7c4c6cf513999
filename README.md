# Lexi execution engine in Dafny

Lexi is a small interpreted language whose programs are English-like lines:

- `create a number called x with value 5`, `set x to x + 1`;
- `increase x by 2`, `display "Hi " + name`, `ask for age`;
- `create list xs`, `add 3 to xs`;
- `if … / elseif … / else / end`, `while … / repeat …`, `for i from 1 to 10 / loop …`;
- `function f a b … end`, `call f with 1, 2`, `return …`.

This project models the interpreter's execution engine, as `src/Lexi.java` implements it, and proves properties of that model:

- the scoped variable store (`ExecutionContext`);
- `runProgram`, `executeBlock` and `executeStatement` with its nine statement forms;
- the block handlers for if, while and for, and `findBlockEnd`;
- function definitions, calls and call expressions, with the save and restore of the global return flag and return slot;
- `evaluateExpression` with string concatenation;
- the recursive-descent `Parser` with Java `int` arithmetic;
- `evaluateCondition`, `toInt` and `formatValue`.

Modules:

| file | module | what it holds |
|---|---|---|
| wrappers.dfy | Wrappers | `Option`, a Java reference that may be null |
| java_text.dfy | JavaText | `String.trim`, `toLowerCase`, `indexOf`, `split` and whitespace, on ASCII |
| java_int.dfy | JavaInt | 32-bit `int`: wrap-around, truncating `/` and `%`, `(int) Math.pow`, `Integer.parseInt`, `Integer.toString` |
| values.dfy | Values | runtime values (Integer, String, ArrayList), the interpreter's errors, `toInt` and `formatValue` |
| scopes.dfy | Scopes | the chain of `ExecutionContext` maps and the global map |
| parser.dfy | NumericParser | the `Parser`: specification functions over a cursor, and a class with a `pos` field whose methods are proved against them |
| numeric_grammar.dfy | NumericGrammar | a grammar of arithmetic trees: rendering a tree and parsing it back gives the tree's value |
| expressions.dfy | Expressions | `evaluateExpression`, `hasStringVariable` and the concatenation scanner |
| conditions.dfy | Conditions | `evaluateCondition` |
| lines.dfy | Lines | kinds of lines (plain lines, block headers, `else`, `elseif`, `end`) and how each moves the block counters |
| blocks.dfy | Blocks | the line classifiers, `findBlockEnd`, the elseif/else scan and the header conditions |
| execution.dfy | Execution | the executor as functions over an explicit machine state |
| interpreter.dfy | Runtime | the interpreter as a class whose fields the methods update, each method proved equal to its Execution function |
| properties.dfy | ExecutionProperties | properties of blocks, if statements, calls, parameters, counting loops and increase/decrease |
| findings.dfy | Findings | defects of the code as written, each exhibited on an input, next to a corrected definition |

The executor in `Execution` and `Runtime` reproduces the code as written, defects included. This lets the lemmas of `Findings` exhibit each defect on the executor itself. The corrected definitions stand beside the executor in `Findings`, and in `Blocks` (the `Fixed` counting and `HeaderCondition`). Each one carries the property the code evidently intends, and is related to the as-written executor by a lemma.

## Model

| member | source | states |
|---|---|---|
| JavaInt.Wrap | src/Lexi.java:919-922 | the result of an int `+`/`-` is in int range, and equals the exact result whenever that fits |
| JavaInt.WrapCongruent | src/Lexi.java:919-922 | the wrapped result is congruent to the exact one modulo 2^32 |
| JavaInt.Mul | src/Lexi.java:941 | `*=` gives an int, the exact product whenever it fits |
| JavaInt.Div | src/Lexi.java:948 | `/=` gives an int; `IntMin / -1` is `IntMin` |
| JavaInt.TruncQuotientSpec | src/Lexi.java:948 | the quotient truncates toward zero: the remainder is smaller than the divisor in magnitude and has the dividend's sign |
| JavaInt.Rem | src/Lexi.java:951 | `%=` gives an int smaller in magnitude than the divisor, with the dividend's sign or zero |
| JavaInt.Saturate | src/Lexi.java:974 | the `(int)` cast of a double saturates at `IntMin` and `IntMax` and keeps in-range values |
| JavaInt.Pow | src/Lexi.java:974 | `(int) Math.pow` always gives an int |
| JavaInt.PowSpec | src/Lexi.java:974 | an exact power that fits is returned as is; a negative exponent gives 0 for every base of magnitude 2 or more |
| JavaInt.ParseInt | src/Lexi.java:1010 | `Integer.parseInt` accepts only an optional sign and digits, and only values in int range |
| JavaInt.NatToString | src/Lexi.java:1238 | decimal digits without a leading zero |
| JavaInt.IntToString | src/Lexi.java:1238 | `Integer.toString` gives a non-empty text |
| JavaInt.NatToStringValue | src/Lexi.java:1238 | the digits denote the number |
| JavaInt.IntToStringRoundTrip | src/Lexi.java:1209-1221 | `parseInt(toString(i)) == i` for every int |
| JavaText.TrimStartSpec | src/Lexi.java:332 | trimming the front removes exactly the leading characters at most U+0020 |
| JavaText.TrimEndSpec | src/Lexi.java:332 | trimming the back removes exactly the trailing characters at most U+0020 |
| JavaText.TrimSpec | src/Lexi.java:332 | a trimmed text has no character at most U+0020 at either end |
| JavaText.TrimPadded | src/Lexi.java:332 | trim strips blank padding from both sides of a text whose ends are not blank |
| JavaText.Lower | src/Lexi.java:1034 | `toLowerCase` keeps the length and lowers each character |
| JavaText.IndexOfFrom | src/Lexi.java:1163-1164 | the first occurrence at or after a position, or none at all |
| JavaText.Pieces | src/Lexi.java:806 | the pieces between separators hold no separator |
| JavaText.DropTrailingEmpty | src/Lexi.java:806 | `split` drops exactly the trailing empty pieces |
| JavaText.SplitOn | src/Lexi.java:806 | `split` of a text without a separator is the text itself; no piece holds a separator |
| JavaText.Words | src/Lexi.java:683 | `split("\\s+")` gives non-empty words without whitespace |
| JavaText.WordLength | src/Lexi.java:1110 | the first word is the maximal run of non-whitespace characters |
| JavaText.ContainsChar | src/Lexi.java:797 | `contains` of a one-character text is membership of the character |
| Values.ToInt | src/Lexi.java:1209-1221 | an Integer converts as is, a String through `parseInt` (failing when that fails), a list never |
| Values.FormatThenToInt | src/Lexi.java:1209-1239 | displaying an int and converting the text back gives the int |
| Values.FormatList | src/Lexi.java:1223-1239 | a list displays as its elements in brackets separated by ", ", the empty list as `[]` |
| Values.FormatItemsAppend | src/Lexi.java:629-631 | appending to a list leaves the display of the old elements unchanged |
| Scopes.HasVariableSpec | src/Lexi.java:87-91 | `hasVariable` holds exactly when some context of the chain or the globals binds the name, exactly when `getVariable` is not null |
| Scopes.GetVariableSpec | src/Lexi.java:73-81 | `getVariable` returns the binding of the innermost context that has one |
| Scopes.GetVariableGlobal | src/Lexi.java:73-81 | the globals answer only when no context of the chain binds the name |
| Scopes.SetLocal | src/Lexi.java:83-85 | `setVariable` writes the current context only; the outer ones are unchanged |
| Scopes.SetLocalSpec | src/Lexi.java:83-85 | after `setVariable(n, v)`, `n` reads as `v` and every other name as before |
| Scopes.SetLocalKeeps | src/Lexi.java:83-85 | after `setVariable(n, v)`, `n` reads as `v` and every other name reads as before, for all names at once |
| Scopes.PushSpec | src/Lexi.java:727 | a new context answers from its own map first, then from its parent's chain |
| Scopes.RebindReads | src/Lexi.java:629-631 | after `add`, the list variable reads as the extended list |
| Scopes.RebindOthers | src/Lexi.java:629-631 | `add` changes no other variable |
| Scopes.RebindKeeps | src/Lexi.java:629-631 | after `add`, the list variable reads as the new list and every other name as before, for all names at once |
| Scopes.RebindGrows | src/Lexi.java:629-631 | `add` only extends a list at its end; every other binding stays |
| NumericParser.SkipWs | src/Lexi.java:1019-1023 | the cursor moves forward onto the first non-whitespace character |
| NumericParser.TokenEnd | src/Lexi.java:993-1002 | a token stops at the first character that is not a letter, digit or underscore |
| NumericParser.TokenValue | src/Lexi.java:1004-1016 | an int literal reads as its value; an unbound name fails with "not defined" |
| NumericParser.Primary | src/Lexi.java:980-1017 | a successful primary consumes at least one character |
| NumericParser.Factor | src/Lexi.java:960-978 | a successful factor consumes at least one character |
| NumericParser.Term | src/Lexi.java:931-958 | a successful term consumes at least one character |
| NumericParser.Expr | src/Lexi.java:909-929 | a successful expression consumes at least one character |
| NumericParser.LeadingCharUnexpected | src/Lexi.java:1004-1007 | a text whose first character starts no number, name, sign or bracket fails with "Unexpected character" at position 0 |
| NumericParser.ExprLoopAdvance | src/Lexi.java:912-926 | each `+` or `-` adds or subtracts the next term with wrap-around |
| NumericParser.TermLoopAdvance | src/Lexi.java:934-955 | each `*`, `/`, `%` applies the Java operator; a zero divisor fails ("Division by zero" for `/`) |
| NumericParser.Parser.constructor | src/Lexi.java:903-907 | the parser starts at position 0 over the text and scope |
| NumericParser.Parser.SkipWhitespace | src/Lexi.java:1019-1023 | the loop leaves the cursor where `SkipWs` says |
| NumericParser.Parser.ParseExpression | src/Lexi.java:909-929 | the method's result and cursor are those of the expression rule |
| NumericParser.Parser.ParseSums | src/Lexi.java:912-926 | the `+`/`-` loop agrees with its rule |
| NumericParser.Parser.ParseTerm | src/Lexi.java:931-958 | the method's result and cursor are those of the term rule |
| NumericParser.Parser.ParseProducts | src/Lexi.java:934-955 | the `*`/`/`/`%` loop agrees with its rule |
| NumericParser.Parser.ParseFactor | src/Lexi.java:960-978 | the method's result and cursor are those of the factor rule |
| NumericParser.Parser.ParsePrimary | src/Lexi.java:980-1017 | the method's result and cursor are those of the primary rule |
| NumericParser.EvaluateNumericExpression | src/Lexi.java:884-892 | running the Parser over the trimmed text gives `NumericValue` |
| NumericGrammar.ShowRoundTrip | src/Lexi.java:884-1024 | the rendering of every arithmetic tree parses back to the tree's value, or to the first failure its evaluation meets |
| NumericGrammar.TrailingTextIgnored | src/Lexi.java:909-929 | text after a complete expression that cannot continue it is ignored |
| NumericGrammar.MissingParenthesisAccepted | src/Lexi.java:983-991 | a `(` whose `)` never comes is closed by the end of the text |
| NumericGrammar.BlankIsZero | src/Lexi.java:887-888 | a blank expression is 0 |
| NumericGrammar.NameReads | src/Lexi.java:1009-1016 | a lone identifier reads as its variable converted by `toInt` |
| NumericGrammar.UndefinedName | src/Lexi.java:1012-1013 | an unbound identifier fails with "not defined" |
| NumericGrammar.IntVariableReads | src/Lexi.java:1015 | an identifier bound to an int reads as that int |
| NumericGrammar.NegatedPowerDropsExponent | src/Lexi.java:963-966 | a unary minus takes a primary only, so `-a ^ b` reads as `-a` |
| NumericGrammar.LiteralReads | src/Lexi.java:1010 | a decimal literal reads as its value |
| Expressions.FindStringVariable | src/Lexi.java:805-817 | the loop finds a String variable among the pieces exactly when `HasStringVariable` holds |
| Expressions.StringVariableAlone | src/Lexi.java:805-817 | without operator characters, the test is whether the trimmed text names a String variable |
| Expressions.LeadingStringVariable | src/Lexi.java:805-817 | a String variable written first, before an operator, is found |
| Expressions.FlushSegment | src/Lexi.java:836-870 | the flush of an unquoted segment agrees with `FlushText` |
| Expressions.EvaluateStringConcatenation | src/Lexi.java:819-882 | the character-by-character scanner computes `Concatenation` |
| Expressions.EvaluateExpression | src/Lexi.java:786-803 | never yields a list; yields text only when the text holds a quote or a String variable |
| Expressions.NumericReading | src/Lexi.java:797-802 | a trimmed text that is no quoted literal and holds no `+` is read as a numeric expression |
| Expressions.Evaluate | src/Lexi.java:786-803 | the short-circuiting evaluation agrees with `EvaluateExpression` |
| Expressions.IsConcatenation | src/Lexi.java:797 | the concatenation test is `+` and (a quote or a String variable) |
| Expressions.QuotedLiteral | src/Lexi.java:792-794 | a quoted text evaluates to its inner text, whatever it holds |
| Expressions.BareTextVariableFails | src/Lexi.java:797-802 | a text variable that is not an int literal cannot be evaluated alone |
| Expressions.ConcatenationMeaning | src/Lexi.java:819-882 | operands joined by ` + ` concatenate to their texts in order |
| Expressions.ConcatenationExpression | src/Lexi.java:786-882 | with a quoted operand, the joined text evaluates to the operands' texts in order |
| Expressions.ScoreExample | src/Lexi.java:819-882 | `"Score: " + 10 + 5` is the text `Score: 105` |
| Conditions.Decide | src/Lexi.java:1171-1193 | an operator decides exactly when both sides are ints or it is `==`/`!=` |
| Conditions.EvaluateCondition | src/Lexi.java:1155-1198 | the method computes `ConditionValue` |
| Conditions.TryEachOperator | src/Lexi.java:1162-1195 | the operator loop returns as soon as one operator decides |
| Conditions.NoOperatorIsFalse | src/Lexi.java:1197 | a condition without a comparison character is false |
| Conditions.SymbolFound | src/Lexi.java:1160-1164 | in `l op r` the operator is found right after `l`, and no other operator of no shorter spelling occurs |
| Conditions.DecidedAt | src/Lexi.java:1162-1169 | `l op r` is split at `op` into `l` and `r`, and no operator tried earlier occurs in it |
| Conditions.ErrorsPropagate | src/Lexi.java:1168-1169 | a side that fails makes the condition fail, the left side first |
| Conditions.IntComparison | src/Lexi.java:1171-1182 | two int sides compare as ints, for every operator |
| Conditions.TextEquality | src/Lexi.java:1185-1192 | with a text side, `==` and `!=` compare the displayed texts |
| Conditions.NotEqualNegates | src/Lexi.java:1176-1191 | `!=` holds exactly when `==` does not |
| Conditions.TextOrderingIsFalse | src/Lexi.java:1185-1197 | `<` and `>` with a text side are false: no operator tried later occurs |
| Conditions.OrderingSplitsAgain | src/Lexi.java:1162-1165 | in `l >= r` (`l <= r`) the later operator `>` (`<`) is found at the same place, so its right side is `= r` |
| Conditions.TextOrderingReadsEquals | src/Lexi.java:1162-1195 | `>=` and `<=` with a text side are not false: the outcome is decided by reading `l` and `= r` under `>` or `<` |
| Conditions.EqualsSignUnexpected | src/Lexi.java:786-803 | `= r` without a `+` is read as a numeric expression and fails with "Unexpected character" at position 0 |
| Conditions.TextOrderingWithEqualsFails | src/Lexi.java:1155-1198 | with the interpreter's evaluator, `l >= r` and `l <= r` with a text side and no `+` on the right fail with "Unexpected character" |
| Conditions.VariablesCompare | src/Lexi.java:1155-1182 | `x op y` on two int variables compares their values |
| Conditions.QuotedNumberEqualsNumber | src/Lexi.java:1185-1190 | `"5" == 5` holds |
| Blocks.FirstEnd | src/Lexi.java:1033-1048 | the first line where the block ends, with no earlier one |
| Blocks.BlockEnd | src/Lexi.java:1030-1051 | the block ends at the first terminator that brings the depth back to zero, or at `maxLine` when there is none |
| Blocks.OpenerDoesNotClose | src/Lexi.java:1036-1042 | no header that raises the depth also lowers it |
| Blocks.HeaderBlockNotEmpty | src/Lexi.java:1030-1051 | the block of a line that raises the depth ends after that line |
| Blocks.DefinitionBodyFollows | src/Lexi.java:688-694 | the block of a function header ends after the header, so the body is the lines in between |
| Blocks.FindBlockEnd | src/Lexi.java:1030-1051 | the counter loop returns `BlockEnd` |
| Blocks.FirstMarker | src/Lexi.java:1080-1087 | the first elseif or else line at depth one, or none |
| Blocks.OpenerFirstLetter | src/Lexi.java:1036-1038 | a block-opening header starts with a letter other than `e` |
| Blocks.MarkersFollowStart | src/Lexi.java:1068-1087 | an elseif or else the scan finds lies after the if line |
| Blocks.IfBranches | src/Lexi.java:1063-1088 | the scan fails exactly when it reads past the program; otherwise it finds the first elseif and the first else at depth one |
| Blocks.ScanBranches | src/Lexi.java:1064-1088 | the counter loop returns `IfBranches` |
| Lines.KeywordCounts | src/Lexi.java:1036-1073 | an `else` line moves neither counter; an `end` line lowers both by one |
| Lines.ElseifCounts | src/Lexi.java:1036-1073 | an `elseif` line moves neither counter, does not close a block and is not an `else` |
| Lines.PlainRun | src/Lexi.java:1033-1073 | a run of lines that neither open nor close a level leaves both counters as they were |
| Lines.PlainIsNoMarker | src/Lexi.java:1080-1087 | such a line is neither an elseif nor an else marker |
| Execution.Dispatch | src/Lexi.java:369-384 | a line is an unknown command exactly when none of the nine forms matches it |
| Execution.Assigned | src/Lexi.java:406-407 | a failed evaluation stops with its error and changes nothing; a value is stored in the current context: the name reads as the value, every other name as before, and the outer contexts and the rest of the state are unchanged |
| Execution.BindSpec | src/Lexi.java:83-85 | binding a name in the current context is such a store |
| Execution.Adjust | src/Lexi.java:448-512 | an undefined name fails with "not defined"; a failure changes nothing; success comes exactly when the name is defined, the amount casts to an int and the current value converts, and then the name holds the wrapped sum or difference in the current context and nothing else changes |
| Execution.AddToList | src/Lexi.java:606-637 | an undefined name fails with "not defined", one not bound to a list with "not a list"; a failure changes nothing; success comes exactly when the name holds a list and the value evaluates, and then the list reads as its old elements followed by the value and every other name as before |
| Execution.ReadInput | src/Lexi.java:536-559 | the prompt `? ` is always printed; with no line left the statement fails with NoSuchElement; otherwise the first line is consumed and stored in the current context, as an int when `parseInt` accepts it and as text otherwise |
| Execution.EvaluateAll | src/Lexi.java:714-719 | a successful evaluation gives one value per argument |
| Execution.Parameters | src/Lexi.java:727-732 | the new context binds every parameter name |
| Execution.DefineFunction | src/Lexi.java:663-699 | a header the pattern rejects fails with "Invalid function syntax"; otherwise only the function table changes: the name's entry is added or replaced and the others stay, the parameters are the header's words, the body is the lines strictly between the header and the block end, and execution goes on after that end |
| Execution.Block | src/Lexi.java:326-363 | a block leaves the chain of contexts as deep as it found it |
| Execution.Line | src/Lexi.java:330-361 | each iteration moves forward and keeps the depth of the scope chain |
| Execution.IfBlock | src/Lexi.java:1057-1100 | the if handler moves forward and keeps the depth of the scope chain |
| Execution.WhileBlock | src/Lexi.java:1107-1120 | the while handler moves forward and keeps the depth of the scope chain |
| Execution.WhileLoop | src/Lexi.java:1115-1117 | the loop keeps the depth of the scope chain |
| Execution.ForBlock | src/Lexi.java:1127-1153 | the for handler moves forward and keeps the depth of the scope chain |
| Execution.ForLoop | src/Lexi.java:1147-1150 | the loop keeps the depth of the scope chain |
| Execution.Statement | src/Lexi.java:369-384 | a statement keeps the depth of the scope chain |
| Execution.Invoke | src/Lexi.java:704-742 | an unknown function fails with "not defined" and changes nothing; success needs a defined function and as many arguments as parameters; the callee's context is dropped |
| Execution.CallFunction | src/Lexi.java:704-746 | a successful call puts the caller's return flag and slot back |
| Execution.CallExpression | src/Lexi.java:751-780 | a call expression keeps the depth of the scope chain |
| ExecutionProperties.BlockSkipsLine | src/Lexi.java:339-342 | a blank line or comment is passed over: the block goes on at the next line |
| ExecutionProperties.BlockStopsAtTerminator | src/Lexi.java:356-357 | a terminator line ends the block at once with the state unchanged |
| ExecutionProperties.BlockStopsAtReturn | src/Lexi.java:345-347 | a return line fills the return slot, raises the flag and ends the block; a failing expression is the block's failure and changes nothing |
| ExecutionProperties.BlockAfterReturn | src/Lexi.java:330 | once the return flag is up a block runs nothing |
| ExecutionProperties.IfLayout | src/Lexi.java:1030-1087 | an if whose lines up to its `end` are plain ends at that `end` and has neither elseif nor else |
| ExecutionProperties.IfElseEnd | src/Lexi.java:1030-1051 | an if with an else ends at its `end` |
| ExecutionProperties.IfElseMarkers | src/Lexi.java:1064-1087 | the scan of an if with an else finds that else and no elseif |
| ExecutionProperties.IfElseRunsOneBranch | src/Lexi.java:1057-1100 | with an else: a true condition runs the lines before the else, a false one the lines after it, then execution goes on after the `end`; a failing condition is the statement's failure |
| ExecutionProperties.IfRunsBodyWhenMet | src/Lexi.java:1057-1100 | without an else: a true condition runs the body, a false one nothing, then execution goes on after the `end` |
| ExecutionProperties.EvaluateAllSpec | src/Lexi.java:714-719 | the arguments evaluate left to right, each trimmed; the result is their values in order, or the failure of the first that fails |
| ExecutionProperties.ParametersKeys | src/Lexi.java:730-732 | the new context binds exactly the parameter names |
| ExecutionProperties.ParameterBound | src/Lexi.java:730-732 | each parameter is bound to its own argument unless a later parameter has the same name |
| ExecutionProperties.CalleeScope | src/Lexi.java:727-732 | the callee reads a parameter from its own context and any other name through the caller's chain and the globals |
| ExecutionProperties.BindTwice | src/Lexi.java:1148 | setting a variable twice in a context keeps the second value |
| ExecutionProperties.ForEmptyRange | src/Lexi.java:1142-1152 | when the first bound exceeds the second, the body never runs, the variable is not set and execution goes on after the block |
| ExecutionProperties.ForLeavesVariableAtLast | src/Lexi.java:1147-1150 | over an empty body the loop ends with the variable at the second bound, and the state is one store of that value |
| ExecutionProperties.ForEndsAtLast | src/Lexi.java:1142-1150 | over any body that succeeds and does not reassign the variable, the loop ends without error with the variable at the second bound |
| ExecutionProperties.ForToIntMaxNeverEnds | src/Lexi.java:1147 | a loop up to `IntMax` never finishes: `i <= IntMax` always holds and `i++` wraps |
| ExecutionProperties.IncreaseThenDecrease | src/Lexi.java:448-512 | `increase n` then `decrease n` restores n's value, wrap-around included, in the current context |
| Runtime.Interpreter.constructor | src/Lexi.java:30-41 | the interpreter starts with no variables, no functions, an empty return slot and the given input |
| Runtime.Interpreter.RunProgram | src/Lexi.java:314-320 | the new state and error are those of `Execution.RunProgram` |
| Runtime.Interpreter.ExecuteBlock | src/Lexi.java:326-363 | the new state and error are those of `Execution.Block` |
| Runtime.Interpreter.HandleReturn | src/Lexi.java:647-652 | a return fills the slot and raises the flag; a failing expression changes nothing |
| Runtime.Interpreter.HandleIfBlock | src/Lexi.java:1057-1100 | the new state, error and next line are those of `Execution.IfBlock` |
| Runtime.Interpreter.HandleWhileBlock | src/Lexi.java:1107-1120 | the new state, error and next line are those of `Execution.WhileBlock` |
| Runtime.Interpreter.RunWhileLoop | src/Lexi.java:1115-1117 | the loop's new state and error are those of `Execution.WhileLoop` |
| Runtime.Interpreter.HandleForBlock | src/Lexi.java:1127-1153 | the new state, error and next line are those of `Execution.ForBlock` |
| Runtime.Interpreter.RunForLoop | src/Lexi.java:1147-1150 | the loop's new state and error are those of `Execution.ForLoop` |
| Runtime.Interpreter.HandleFunctionDefinition | src/Lexi.java:663-699 | the new function table and next line are those of `Execution.DefineFunction` |
| Runtime.Interpreter.CopyLines | src/Lexi.java:691-694 | the body is the lines strictly between the header and the block end |
| Runtime.Interpreter.SplitParameters | src/Lexi.java:681-687 | the parameter names are the words of the trimmed header text |
| Runtime.Interpreter.ExecuteStatement | src/Lexi.java:369-384 | the new state and error are those of `Execution.Statement` |
| Runtime.Interpreter.Store | src/Lexi.java:406-407 | the value is stored in the current context, unless its evaluation failed |
| Runtime.Interpreter.AdjustVariable | src/Lexi.java:448-512 | the new state and error are those of `Execution.Adjust` |
| Runtime.Interpreter.ReadLine | src/Lexi.java:536-559 | the new state and error are those of `Execution.ReadInput` |
| Runtime.Interpreter.AddToListVariable | src/Lexi.java:606-637 | the new state and error are those of `Execution.AddToList` |
| Runtime.Interpreter.CallFunction | src/Lexi.java:704-746 | the new state and error are those of `Execution.CallFunction` |
| Runtime.Interpreter.EvaluateArguments | src/Lexi.java:714-719 | the loop computes `EvaluateAll` in the caller's scope |
| Runtime.Interpreter.BindParameters | src/Lexi.java:730-732 | the loop of `setVariable` calls builds `Parameters` |
| Runtime.Interpreter.EvaluateFunctionCallExpression | src/Lexi.java:751-780 | the new state and value are those of `Execution.CallExpression` |
| Findings.ElseifConditionKeepsEif | src/Lexi.java:1060 | as written, an elseif line handled as an if keeps `eif ` before its condition |
| Findings.IndentedIfConditionKeepsLetter | src/Lexi.java:1060 | as written, an if header indented by two blanks yields the condition `f …` |
| Findings.IndentedWhileConditionKeepsLetters | src/Lexi.java:1110-1111 | as written, a while header indented by two blanks yields the condition `le …` |
| Findings.HeaderConditionReads | src/Lexi.java:1110-1111 | corrected: the condition is what follows the first word of the trimmed line, for every keyword and indentation |
| Findings.RepeatAndLoopNotCounted | src/Lexi.java:1036-1038 | as written, `repeat` and `loop` headers are block headers but do not raise the depth |
| Findings.RepeatBlockOverruns | src/Lexi.java:1030-1051 | as written, the block of a `repeat` loop runs past its own `end` |
| Findings.RepeatBlockEndsWhenFixed | src/Lexi.java:1030-1051 | corrected: the same loop ends at its own `end` |
| Findings.FixedCountsEveryHeader | src/Lexi.java:1036-1038 | corrected: every block header raises the depth |
| Findings.IfWithDoneEnds | src/Lexi.java:1042 | `findBlockEnd` closes a level at `done` |
| Findings.ScanMissesElseAfterDone | src/Lexi.java:1076-1078 | as written, the scan misses the else after a `while … done` |
| Findings.ScanFindsElseWhenFixed | src/Lexi.java:1076-1078 | corrected: the same scan finds the else |
| Findings.FixedScanAgrees | src/Lexi.java:1067-1078 | corrected: the scan's depth equals `findBlockEnd`'s depth at every line |
| Findings.FiveReturns | src/Lexi.java:737-741 | the callee's body returns 5 into the slot |
| Findings.CallValueLost | src/Lexi.java:744-772 | as written, `set x to call five` fails with "did not return a value" |
| Findings.CallValue | src/Lexi.java:751-780 | corrected: a successful call expression leaves the caller's flag and slot as they were |
| Findings.CallValueMatchesCall | src/Lexi.java:751-780 | corrected: the call expression succeeds exactly when the call succeeds and returned a value; its value is that value and its state that of a call statement |
| Findings.CallValueOfFive | src/Lexi.java:751-780 | corrected: `set x to call five` gets 5 |
| Findings.ElseifFound | src/Lexi.java:1064-1087 | as written, the scan of an if followed by an elseif finds the elseif |
| Findings.ElseifInnerEnd | src/Lexi.java:1030-1051 | as written, `findBlockEnd` from the elseif line finds no end and returns `maxLine`, the number of lines of the program, one past its last line |
| Findings.ElseifReadsPastEnd | src/Lexi.java:1094 | as written, an if whose condition is false and whose elseif ends the program always fails: with the elseif's condition error, or by reading past the last line |
| Findings.IfFixed | src/Lexi.java:1057-1100 | corrected: the if handler goes on after its own block and keeps the depth of the scope chain |
| Findings.ArmPassesOn | src/Lexi.java:1093-1094 | corrected: a false arm passes on to the next elseif of the same block |
| Findings.LastArmRuns | src/Lexi.java:1090-1097 | corrected: an arm with no marker after it runs up to the block end when its condition holds, and nothing otherwise |
| Findings.ElseifRunsWhenFixed | src/Lexi.java:1094 | corrected: when the if's condition is false the elseif's condition decides, its lines run when it holds, and execution goes on after the `end` |
| Findings.ReturnedWhileSpins | src/Lexi.java:1115-1117 | as written, a while loop whose body has returned never ends while its condition holds |
| Findings.WhileLoopFixed | src/Lexi.java:1115-1117 | corrected: the loop ends only after a return or when the condition is false |
| Findings.WhileFixedStopsAtReturn | src/Lexi.java:1115-1117 | corrected: a return in the body ends the loop with the state the return left |
| Findings.WhileFixedAgrees | src/Lexi.java:1115-1117 | corrected: without a return the fixed loop is the loop as written |

## Left out

- The regular expressions of the statement forms, the for header, the function header and the call form are not modelled. The `Patterns` parameter gives what each one captures from a line. The dispatcher keeps the source's order of trying them.
- Input and output: `display` and the `? ` prompt append to an `output` text, and `ask for` reads the next element of an `input` sequence.
- The REPL, `loadFile`, `showHelp`, `showProgramState`, the debug trace, `currentLine` and `displayError` are not part of this model.
- Loops that may not end and nested calls consume a `fuel` bound. A run that exhausts it ends with an `OutOfFuel` error where the Java program would hang or overflow its stack.
- Characters are ASCII only: `Character.isWhitespace`, `isLetterOrDigit`, `toLowerCase` and the digits of `parseInt` have no Unicode cases.
- `globalVariables` is read by `getVariable` but never written by the executor, so `runProgram` starts with it empty.
- Exceptions carry a message kind and the offending name or text, not the exact message strings.
- `Runtime.Interpreter` evaluates expressions and conditions through its `rd` field, which the constructor sets to the evaluators of `Expressions` and `Conditions`.
- Lists are values stored in their binding. `add` rewrites the list where it is bound, which is the same as the source's in-place append because a list cannot be copied to a second variable (every copy path goes through `toInt`, which rejects lists).
- `"Score: " + 10 + 5` might be expected to give `Score: 15`; the code flushes each unquoted operand on its own and gives `Score: 105`. This model follows the code (`Expressions.ScoreExample`).
- Execution.Block, Execution.Line, Execution.IfBlock: their own contracts state only that the scope chain keeps its depth and execution moves forward. The lemmas `BlockSkipsLine`, `BlockStopsAtTerminator`, `BlockStopsAtReturn`, `BlockAfterReturn`, `IfElseRunsOneBranch` and `IfRunsBodyWhenMet` state what they do for each kind of line and for an if with plain lines inside. Nested blocks inside an if are not characterised.
- Execution.Statement, Execution.WhileBlock, Execution.WhileLoop, Execution.ForBlock, Execution.ForLoop, Execution.CallExpression: their own contracts state only that the scope chain keeps its depth and execution moves forward. For loops are characterised by `ForEmptyRange`, `ForLeavesVariableAtLast`, `ForEndsAtLast` and `ForToIntMaxNeverEnds`; while loops only through `Findings`; call expressions through `Findings.CallValueLost` and the corrected `Findings.CallValue`.
- Ordering on text: `<`, `>`, `<=` and `>=` with a text side might be expected to be false, as no text comparison is defined for them. The code makes this true only for `<` and `>`. For `>=` and `<=` it goes on to `>` or `<` and reads `= r` as an expression, which fails with "Unexpected character". This model follows the code (`Conditions.TextOrderingWithEqualsFails`).
- Findings.IfFixed: its own contract states only that execution moves forward and the scope chain keeps its depth. What it does on an elseif chain is stated by `Findings.ArmPassesOn`, `Findings.LastArmRuns` and `Findings.ElseifRunsWhenFixed`.
- JavaInt.PowSpec: covers exact powers that fit and negative exponents with a base of magnitude 2 or more, not every `Math.pow` case (the remaining cases are in the definition of `Pow`).

## Findings

| source | as written | input that shows it | evidently intended | confidence | as-written member | corrected member |
|---|---|---|---|---|---|---|
| src/Lexi.java:744-772 | `callFunction` restores the caller's return slot before `evaluateFunctionCallExpression` reads it | `function five` / `return 5` / `end` / `set x to call five` | x is 5 | high, not executed | Findings.CallValueLost | Findings.CallValueMatchesCall |
| src/Lexi.java:1060 | an elseif line is handled as an if, and `substring(3)` of `elseif c` is `eif c` | `if 1 > 2` / `elseif 1 < 2` / `end` | the condition of the elseif is `1 < 2` | high, not executed | Findings.ElseifConditionKeepsEif | Findings.HeaderConditionReads |
| src/Lexi.java:1060 | the three characters of `if ` are cut from the untrimmed line, so an indented header loses the wrong characters | `  if x > 5` gives the condition `f x > 5` | the condition `x > 5` | high, not executed | Findings.IndentedIfConditionKeepsLetter | Findings.HeaderConditionReads |
| src/Lexi.java:1110-1111 | the length of the first word is cut from the untrimmed line, so an indented header loses the wrong characters | `  while y < 3` gives the condition `le y < 3` | the condition `y < 3` | high, not executed | Findings.IndentedWhileConditionKeepsLetters | Findings.HeaderConditionReads |
| src/Lexi.java:1036-1038 | `findBlockEnd` does not count `repeat` and `loop` headers, which the executor treats as while and for | `repeat x < 3` / `increase x` / `end` / `display x` | the loop ends at its own `end` | high, not executed | Findings.RepeatBlockOverruns | Findings.RepeatBlockEndsWhenFixed |
| src/Lexi.java:1076-1078 | the elseif/else scan closes a level only at `end`, not at `done` or `finish` | `if x > 5` / `while y < 3` / `done` / `else` / `end` | the else branch is found | high, not executed | Findings.ScanMissesElseAfterDone | Findings.ScanFindsElseWhenFixed |
| src/Lexi.java:1094 | the elseif line is handed back to `handleIfBlock` with the whole program's `maxLine`, so `findBlockEnd` from it finds no end and the scan reads past the last line | `create a number called eif with value 0` / `if 1 > 2` / `elseif 1 < 2` / `display 1` / `end` as the whole program (the variable `eif` lets the elseif's condition, read as `eif 1 < 2`, evaluate to true, so the scan is reached) | the elseif arm runs within the if's block and execution goes on after its `end` | high, not executed | Findings.ElseifReadsPastEnd | Findings.ElseifRunsWhenFixed |
| src/Lexi.java:1115-1117 | `handleWhileBlock` ignores the return flag, so a `return` in the body does not end the loop | a function whose body is `while 1 < 2` / `return 1` / `end` | the return ends the loop and the call | high, not executed | Findings.ReturnedWhileSpins | Findings.WhileLoopFixed |
