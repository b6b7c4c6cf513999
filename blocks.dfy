/**
 * Block structure: the header tests executeBlock dispatches on, the depth
 * counter of findBlockEnd, the separate counter of the elseif/else scan in
 * handleIfBlock, and the way the if and while handlers cut the condition out
 * of a header line.
 *
 * Both counters come in two versions. `Written` is the source's: findBlockEnd
 * does not count the `repeat` and `loop` headers the executor accepts, and the
 * elseif/else scan counts only `end` among the terminators and not `define
 * function`. `Fixed` counts exactly the headers the executor treats as blocks.
 * The executor runs the `Written` versions.
 */
module Blocks {
  import opened Wrappers
  import opened JavaText
  import opened Values

  /** Every header test looks at the line trimmed and lower-cased. */
  function Header(line: string): string {
    Lower(Trim(line))
  }

  /** executeBlock passes over empty lines and comments (it tests the trimmed line, without lower-casing). */
  predicate IsSkippable(trimmed: string) {
    trimmed == [] || StartsWith(trimmed, "#") || StartsWith(trimmed, "//")
  }

  predicate IsReturnStatement(line: string) { StartsWith(Header(line), "return ") }

  predicate IsIfStatement(line: string) { StartsWith(Header(line), "if ") }

  /** `while` and `repeat` both introduce a while loop. */
  predicate IsWhileStatement(line: string) {
    StartsWith(Header(line), "while ") || StartsWith(Header(line), "repeat ")
  }

  /** `for` and `loop` both introduce a counting loop. */
  predicate IsForStatement(line: string) {
    StartsWith(Header(line), "for ") || StartsWith(Header(line), "loop ")
  }

  predicate IsFunctionDefinition(line: string) {
    StartsWith(Header(line), "function ") || StartsWith(Header(line), "define function ")
  }

  /** The three terminators: `end`, `done` and `finish`, on a line of their own. */
  predicate Closes(h: string) { h == "end" || h == "done" || h == "finish" }

  predicate IsBlockEnd(line: string) { Closes(Header(line)) }

  /** A line the executor hands to a block handler. */
  predicate IsBlockHeader(line: string) {
    IsIfStatement(line) || IsWhileStatement(line) || IsForStatement(line) || IsFunctionDefinition(line)
  }

  datatype Counting = Written | Fixed

  /**
   * The headers findBlockEnd counts as opening a block. As written these are
   * `if `, `while `, `for `, `function ` and `define function`; the fixed
   * version adds `repeat ` and `loop `.
   */
  predicate Opens(h: string, c: Counting) {
    StartsWith(h, "if ") || StartsWith(h, "while ") || StartsWith(h, "for ")
    || StartsWith(h, "function ") || StartsWith(h, "define function")
    || (c == Fixed && (StartsWith(h, "repeat ") || StartsWith(h, "loop ")))
  }

  /** What one line does to findBlockEnd's depth counter. */
  function Delta(line: string, c: Counting): int {
    var h := Header(line);
    (if Opens(h, c) then 1 else 0) - (if Closes(h) then 1 else 0)
  }

  /** The depth counter of findBlockEnd after the lines start..i-1. */
  function Depth(code: seq<string>, start: nat, i: nat, c: Counting): int
    requires start <= i <= |code|
    decreases i - start
  {
    if i == start then 0 else Depth(code, start, i - 1, c) + Delta(code[i - 1], c)
  }

  /** Line `i` is a terminator that brings the depth counted from `start` back to zero. */
  predicate EndsAt(code: seq<string>, start: nat, i: nat, c: Counting)
    requires start <= i < |code|
  {
    Closes(Header(code[i])) && Depth(code, start, i + 1, c) == 0
  }

  /** The first line in [i, max) at which the block opened at `start` ends, or max. */
  function FirstEnd(code: seq<string>, start: nat, i: nat, max: nat, c: Counting): (r: nat)
    requires start <= i <= max <= |code|
    ensures i <= r <= max
    ensures r < max ==> EndsAt(code, start, r, c)
    ensures forall j :: i <= j < r ==> !EndsAt(code, start, j, c)
    decreases max - i
  {
    if i == max then max
    else if EndsAt(code, start, i, c) then i
    else FirstEnd(code, start, i + 1, max, c)
  }

  /**
   * findBlockEnd: the first line from `start` on at which the depth counter
   * returns to zero on a terminator, or `max` when there is none.
   */
  function BlockEnd(code: seq<string>, start: nat, max: nat, c: Counting): (r: nat)
    requires start <= max <= |code|
    ensures start <= r <= max
    ensures r < max ==> Closes(Header(code[r])) && Depth(code, start, r + 1, c) == 0
    ensures forall j :: start <= j < r ==> !EndsAt(code, start, j, c)
  {
    FirstEnd(code, start, start, max, c)
  }

  /** No line both opens and closes a level. */
  lemma OpenerDoesNotClose(h: string, c: Counting)
    requires Opens(h, c)
    ensures !Closes(h)
  {
    OpenerFirstLetter(h, c);
    if StartsWith(h, "if ") || StartsWith(h, "while ") || StartsWith(h, "for ") {
      assert h[..3][1] == h[1];
    } else if StartsWith(h, "repeat ") || StartsWith(h, "loop ") {
      assert h[..5][0] == h[0];
    }
  }

  /** A header that opens a level does not end its own block: the block has a line after it. */
  lemma HeaderBlockNotEmpty(code: seq<string>, start: nat, max: nat, c: Counting)
    requires start < max <= |code| && Opens(Header(code[start]), c)
    ensures BlockEnd(code, start, max, c) > start
  {
    OpenerDoesNotClose(Header(code[start]), c);
  }

  /** A function header opens a level for findBlockEnd, so the body is the lines after it up to the block end. */
  lemma DefinitionBodyFollows(code: seq<string>, i: nat, max: nat)
    requires i < max <= |code|
    ensures IsFunctionDefinition(code[i]) ==> BlockEnd(code, i, max, Written) > i
  {
    var h := Header(code[i]);
    if StartsWith(h, "define function ") {
      assert h[..15] == h[..16][..15];
    }
    if IsFunctionDefinition(code[i]) {
      HeaderBlockNotEmpty(code, i, max, Written);
    }
  }

  /** findBlockEnd as the source writes it: a counter bumped line by line. */
  method FindBlockEnd(code: seq<string>, start: nat, max: nat) returns (r: nat)
    requires start <= max <= |code|
    ensures r == BlockEnd(code, start, max, Written)
  {
    var depth := 0;
    var i := start;
    while i < max
      invariant start <= i <= max
      invariant depth == Depth(code, start, i, Written)
      invariant FirstEnd(code, start, i, max, Written) == BlockEnd(code, start, max, Written)
    {
      var line := Header(code[i]);
      if Opens(line, Written) {
        depth := depth + 1;
      }
      if Closes(line) {
        depth := depth - 1;
        if depth == 0 {
          return i;
        }
      }
      i := i + 1;
    }
    return max;
  }

  /** The headers the elseif/else scan counts: `define function` is not among them. */
  predicate ScanOpens(h: string) {
    StartsWith(h, "if ") || StartsWith(h, "while ") || StartsWith(h, "for ") || StartsWith(h, "function ")
  }

  /**
   * What one line does to the depth counter of the elseif/else scan. As
   * written only `end` closes; the fixed scan counts like findBlockEnd.
   */
  function ScanDelta(line: string, c: Counting): int {
    var h := Header(line);
    if c == Fixed then Delta(line, Fixed)
    else (if ScanOpens(h) then 1 else 0) - (if h == "end" then 1 else 0)
  }

  /** The scan's depth counter after the lines start..i-1. */
  function ScanDepth(code: seq<string>, start: nat, i: nat, c: Counting): int
    requires start <= i <= |code|
    decreases i - start
  {
    if i == start then 0 else ScanDepth(code, start, i - 1, c) + ScanDelta(code[i - 1], c)
  }

  datatype Marker = ElseifMarker | ElseMarker

  /** Line `i` is an `elseif ` (or `else`) line seen while the scan's depth is one. */
  predicate MarkerAt(code: seq<string>, start: nat, i: nat, c: Counting, m: Marker)
    requires start <= i < |code|
  {
    var h := Header(code[i]);
    (if m == ElseifMarker then StartsWith(h, "elseif ") else h == "else")
    && ScanDepth(code, start, i + 1, c) == 1
  }

  /** The first marker line in [start, hi). */
  function FirstMarker(code: seq<string>, start: nat, hi: nat, c: Counting, m: Marker): (r: Option<nat>)
    requires start <= hi <= |code|
    ensures r.Some? ==> start <= r.value < hi && MarkerAt(code, start, r.value, c, m)
    ensures r.Some? ==> forall j :: start <= j < r.value ==> !MarkerAt(code, start, j, c, m)
    ensures r.None? ==> forall j :: start <= j < hi ==> !MarkerAt(code, start, j, c, m)
    decreases hi - start
  {
    if hi == start then None
    else
      var earlier := FirstMarker(code, start, hi - 1, c, m);
      if earlier.Some? then earlier
      else if MarkerAt(code, start, hi - 1, c, m) then Some(hi - 1)
      else None
  }

  /** Every header that opens a block starts with a letter other than `e`. */
  lemma OpenerFirstLetter(h: string, c: Counting)
    requires ScanOpens(h) || Opens(h, c)
    ensures |h| > 0 && h[0] != 'e'
  {
    if StartsWith(h, "if ") { assert h[0] == h[..3][0]; }
    else if StartsWith(h, "while ") { assert h[0] == h[..6][0]; }
    else if StartsWith(h, "for ") { assert h[0] == h[..4][0]; }
    else if StartsWith(h, "function ") { assert h[0] == h[..9][0]; }
    else if StartsWith(h, "define function") { assert h[0] == h[..15][0]; }
    else if StartsWith(h, "repeat ") { assert h[0] == h[..7][0]; }
    else { assert h[0] == h[..5][0]; }
  }

  /** No header that raises the scan's depth is itself a marker, so a marker lies after the line the scan starts from. */
  lemma MarkersFollowStart(code: seq<string>, start: nat, hi: nat, c: Counting)
    requires start <= hi <= |code|
    ensures var m := FirstMarker(code, start, hi, c, ElseifMarker); m.Some? ==> m.value > start
    ensures var m := FirstMarker(code, start, hi, c, ElseMarker); m.Some? ==> m.value > start
  {
    if start < hi {
      var h := Header(code[start]);
      assert ScanDepth(code, start, start + 1, c) == ScanDelta(code[start], c);
      if ScanDelta(code[start], c) == 1 {
        OpenerFirstLetter(h, c);
      }
      assert !MarkerAt(code, start, start, c, ElseifMarker) && !MarkerAt(code, start, start, c, ElseMarker);
    }
  }

  /** Where the scan found the first `elseif` and the first `else` of the if block. */
  datatype Branches = Branches(elseifLine: Option<nat>, elseLine: Option<nat>)

  /**
   * The elseif/else scan of handleIfBlock: it reads the lines start..blockEnd
   * inclusive, so a block without a terminator at the end of the program reads
   * past the last line.
   */
  function IfBranches(code: seq<string>, start: nat, blockEnd: nat, c: Counting): (r: Result<Branches>)
    requires start <= blockEnd
    ensures r.Err? <==> blockEnd >= |code|
    ensures r.Err? ==> r.error == IndexOutOfBounds
    ensures r.Ok? ==> r.value.elseifLine == FirstMarker(code, start, blockEnd + 1, c, ElseifMarker)
    ensures r.Ok? ==> r.value.elseLine == FirstMarker(code, start, blockEnd + 1, c, ElseMarker)
  {
    if blockEnd >= |code| then Err(IndexOutOfBounds)
    else Ok(Branches(FirstMarker(code, start, blockEnd + 1, c, ElseifMarker),
                     FirstMarker(code, start, blockEnd + 1, c, ElseMarker)))
  }

  /** The scan's counter and slots hold what the lines start..i-1 give. */
  predicate Scanned(code: seq<string>, start: nat, i: nat, depth: int, b: Branches)
    requires start <= i <= |code|
  {
    depth == ScanDepth(code, start, i, Written)
    && b.elseifLine == FirstMarker(code, start, i, Written, ElseifMarker)
    && b.elseLine == FirstMarker(code, start, i, Written, ElseMarker)
  }

  /** The scan as the source writes it: a counter and two "not yet seen" slots. */
  method ScanBranches(code: seq<string>, start: nat, blockEnd: nat) returns (r: Result<Branches>)
    requires start <= blockEnd
    ensures r == IfBranches(code, start, blockEnd, Written)
  {
    var elseifLine: Option<nat> := None;
    var elseLine: Option<nat> := None;
    if start >= |code| {
      return Err(IndexOutOfBounds);
    }
    var depth := 0;
    var i := start;
    while i <= blockEnd
      invariant start <= i <= blockEnd + 1
      invariant i <= |code|
      invariant Scanned(code, start, i, depth, Branches(elseifLine, elseLine))
    {
      if i >= |code| {
        return Err(IndexOutOfBounds);
      }
      var line := Header(code[i]);
      if ScanOpens(line) {
        depth := depth + 1;
      }
      if line == "end" {
        depth := depth - 1;
      }
      if depth == 1 {
        if StartsWith(line, "elseif ") && elseifLine == None {
          elseifLine := Some(i);
        }
        if line == "else" && elseLine == None {
          elseLine := Some(i);
        }
      }
      i := i + 1;
    }
    return Ok(Branches(elseifLine, elseLine));
  }

  /** Where the branch taken when the condition holds stops: the elseif, else the else, else the block end. */
  function IfEnd(b: Branches, blockEnd: nat): nat {
    if b.elseifLine.Some? then b.elseifLine.value
    else if b.elseLine.Some? then b.elseLine.value
    else blockEnd
  }

  /**
   * handleIfBlock's condition: the line as stored (not trimmed) from its
   * fourth character on, trimmed. The same is done for an elseif line.
   */
  function IfCondition(line: string): string
    requires |line| >= 3
  {
    Trim(line[3..])
  }

  /**
   * handleWhileBlock's condition: as many characters as the trimmed line's
   * first word has are dropped from the line as stored, and the rest trimmed.
   */
  function WhileCondition(line: string): string {
    TrimSpec(line);
    Trim(line[WordLength(Trim(line))..])
  }

  /** The condition of a header line: what follows its first word, trimmed. */
  function HeaderCondition(line: string): string {
    var t := Trim(line);
    Trim(t[WordLength(t)..])
  }
}
