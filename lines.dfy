/**
 * Facts about single program lines as the block handlers see them: their
 * header (trimmed, lower-cased) and what they do to the depth counters.
 */
module Lines {
  import opened JavaText
  import opened Blocks

  /** A text with no blank character in it. */
  predicate Solid(w: string) {
    forall i :: 0 <= i < |w| ==> !IsTrimmed(w[i])
  }

  /** The first word of a text is as long as the run of non-blank characters that starts it. */
  lemma {:induction false} WordLengthOfWord(w: string, rest: string)
    requires Solid(w) && rest != [] && IsSpace(rest[0])
    ensures WordLength(w + rest) == |w|
    decreases |w|
  {
    if |w| == 0 {
      assert w + rest == rest;
    } else {
      assert (w + rest)[1..] == w[1..] + rest;
      WordLengthOfWord(w[1..], rest);
    }
  }

  /** Lower-casing leaves a text without capital letters as it is. */
  lemma LowerOfLower(s: string)
    requires forall i :: 0 <= i < |s| ==> !('A' <= s[i] <= 'Z')
    ensures Lower(s) == s
  {
  }

  /** The header tests see a line without blank ends or capitals as it is. */
  lemma HeaderOfPlain(s: string)
    requires Tight(s) && forall i :: 0 <= i < |s| ==> !('A' <= s[i] <= 'Z')
    ensures Header(s) == s
  {
    TrimPadded("", s, "");
    assert "" + s + "" == s;
    LowerOfLower(s);
  }

  /** What a line does to findBlockEnd's counter and to the scan's, as written and fixed. */
  predicate Counts(line: string, written: int, scanWritten: int, fixed: int) {
    Delta(line, Written) == written && ScanDelta(line, Written) == scanWritten
    && Delta(line, Fixed) == fixed && ScanDelta(line, Fixed) == fixed
  }

  /** A line that neither opens nor closes a level for either counter and is no elseif or else. */
  predicate Plain(line: string) {
    var h := Header(line);
    !Opens(h, Fixed) && !ScanOpens(h) && !Closes(h) && !StartsWith(h, "elseif ") && h != "else"
  }

  /** A header that both counters, as written and fixed, count as opening a level, and no elseif or else. */
  predicate Opener(line: string) {
    var h := Header(line);
    Counts(line, 1, 1, 1) && !Closes(h) && !StartsWith(h, "elseif ") && h != "else"
  }

  /** The three keyword lines that close a block or start its else branch. */
  lemma KeywordLines()
    ensures Header("end") == "end" && Header("done") == "done" && Header("else") == "else"
    ensures Counts("end", -1, -1, -1) && Counts("done", -1, 0, -1) && Counts("else", 0, 0, 0)
  {
    HeaderOfPlain("end");
    HeaderOfPlain("done");
    HeaderOfPlain("else");
  }

  /** A text whose first character differs from a prefix's does not start with it. */
  lemma NotPrefix(h: string, prefix: string)
    requires prefix != [] && |h| > 0 && h[0] != prefix[0]
    ensures !StartsWith(h, prefix)
  {
    if |h| >= |prefix| {
      assert h[..|prefix|][0] == h[0];
    }
  }

  /** What an `else` or `end` line does to the counters depends on its header alone. */
  lemma KeywordCounts(line: string)
    ensures Header(line) == "else" ==> Counts(line, 0, 0, 0)
    ensures Header(line) == "end" ==> Counts(line, -1, -1, -1)
  {
    var h := Header(line);
    if h == "else" || h == "end" {
      if Opens(h, Fixed) || ScanOpens(h) {
        OpenerFirstLetter(h, Fixed);
      }
    }
  }

  /** An `else` or `end` header is no elseif. */
  lemma NotElseif(h: string)
    requires h == "else" || h == "end"
    ensures !StartsWith(h, "elseif ")
  {
  }

  /** An elseif line opens and closes no level for either counter. */
  lemma ElseifCounts(line: string)
    requires StartsWith(Header(line), "elseif ")
    ensures Counts(line, 0, 0, 0) && !Closes(Header(line)) && Header(line) != "else"
  {
    var h := Header(line);
    assert h[0] == h[..7][0] == 'e';
    if Opens(h, Fixed) || ScanOpens(h) {
      OpenerFirstLetter(h, Fixed);
    }
  }

  /** Every line in [lo, hi) is plain: it opens, closes and branches nothing. */
  predicate PlainBetween(code: seq<string>, lo: nat, hi: nat)
    requires lo <= hi <= |code|
  {
    forall j :: lo <= j < hi ==> Plain(code[j])
  }

  /** Plain lines leave findBlockEnd's and the scan's counters as they were, as written and fixed. */
  lemma {:induction false} PlainRun(code: seq<string>, start: nat, lo: nat, hi: nat)
    requires start <= lo <= hi <= |code| && PlainBetween(code, lo, hi)
    ensures forall c :: Depth(code, start, hi, c) == Depth(code, start, lo, c)
    ensures forall c :: ScanDepth(code, start, hi, c) == ScanDepth(code, start, lo, c)
    decreases hi - lo
  {
    if lo < hi {
      PlainRun(code, start, lo, hi - 1);
      assert Plain(code[hi - 1]);
    }
  }

  /** A plain line is no terminator and no marker of the scan. */
  lemma PlainIsNoMarker(code: seq<string>, start: nat, j: nat, c: Counting)
    requires start <= j < |code| && Plain(code[j])
    ensures !Closes(Header(code[j])) && !MarkerAt(code, start, j, c, ElseifMarker) && !MarkerAt(code, start, j, c, ElseMarker)
  {
  }
}
