/**
 * The values a Lexi variable can hold (Java Integer, String and
 * ArrayList<Object>), the engine's failures, and the two conversions every
 * statement uses: toInt and formatValue.
 */
module Values {
  import opened Wrappers
  import opened JavaText
  import opened JavaInt

  datatype Value =
    | IntVal(i: int)
    | TextVal(s: string)
    | ListVal(items: seq<Value>)

  /**
   * Every way a run can stop early. The first group are LexiExceptions; the
   * second are Java runtime exceptions the source lets escape; OutOfFuel stands
   * for a run the model's step bound cuts off (a loop that does not end).
   */
  datatype Error =
    | UnknownCommand(line: string)
    | NotDefined(name: string)
    | DivisionByZero
    | UnexpectedCharacter(pos: nat)
    | CannotConvert(text: string)
    | InvalidNumber
    | NotAList(name: string)
    | FunctionNotDefined(fname: string)
    | ArityMismatch(fname: string, expected: nat, got: nat)
    | NoReturnValue(fname: string)
    | InvalidForSyntax
    | InvalidFunctionSyntax
    | InvalidCallSyntax
    | ArithmeticException
    | ClassCastException
    | IndexOutOfBounds
    | NoSuchElement
    | OutOfFuel

  datatype Result<+T> = Ok(value: T) | Err(error: Error)

  /** toInt: an Integer as is, a String through Integer.parseInt, a list is refused. */
  function ToInt(v: Value): (r: Result<int>)
    ensures v.IntVal? ==> r == Ok(v.i)
    ensures v.TextVal? ==> (r.Ok? <==> ParseInt(v.s).Some?)
    ensures r.Ok? && v.TextVal? ==> r.value == ParseInt(v.s).value
    ensures v.ListVal? ==> r == Err(InvalidNumber)
  {
    match v
    case IntVal(i) => Ok(i)
    case TextVal(s) =>
      (match ParseInt(s)
       case Some(n) => Ok(n)
       case None => Err(CannotConvert(s)))
    case ListVal(_) => Err(InvalidNumber)
  }

  /**
   * formatValue: an Integer in decimal, a String as itself, a list as its
   * elements rendered recursively, separated by ", " inside brackets.
   */
  function FormatValue(v: Value): (r: string)
    decreases v, 1
  {
    match v
    case IntVal(i) => IntToString(i)
    case TextVal(s) => s
    case ListVal(items) => "[" + FormatItems(v, 0) + "]"
  }

  /** The rendering of the elements of list `v` from index `from` on, joined by ", ". */
  function FormatItems(v: Value, from: nat): string
    requires v.ListVal? && from <= |v.items|
    decreases v, 0, |v.items| - from
  {
    if from == |v.items| then ""
    else if from + 1 == |v.items| then FormatValue(v.items[from])
    else FormatValue(v.items[from]) + ", " + FormatItems(v, from + 1)
  }

  /** Rendering an int and converting the text back yields the int: the display and toInt agree. */
  lemma FormatThenToInt(i: int)
    requires InRange(i)
    ensures ToInt(TextVal(FormatValue(IntVal(i)))) == Ok(i)
  {
    IntToStringRoundTrip(i);
  }

  /** A list renders as "[" + its elements joined with ", " + "]"; the empty list as "[]". */
  lemma FormatList(items: seq<Value>)
    ensures FormatValue(ListVal([])) == "[]"
    ensures |items| == 1 ==> FormatValue(ListVal(items)) == "[" + FormatValue(items[0]) + "]"
    ensures |items| >= 2 ==>
      FormatValue(ListVal(items)) == "[" + FormatValue(items[0]) + ", " + FormatItems(ListVal(items), 1) + "]"
  {
  }

  /** Appending to a list extends its rendering: the old elements render as before. */
  lemma {:induction false} FormatItemsAppend(v: Value, x: Value, from: nat)
    requires v.ListVal? && from < |v.items|
    ensures FormatItems(ListVal(v.items + [x]), from) == FormatItems(v, from) + ", " + FormatValue(x)
    decreases |v.items| - from
  {
    var w := ListVal(v.items + [x]);
    assert w.items[from] == v.items[from];
    if from + 1 < |v.items| {
      FormatItemsAppend(v, x, from + 1);
    } else {
      assert w.items[from + 1] == x;
    }
  }
}
