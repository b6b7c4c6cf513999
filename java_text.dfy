/**
 * The java.lang.String operations the engine relies on: trim, toLowerCase,
 * startsWith, contains/indexOf and the two shapes of split it uses.
 * Characters outside ASCII are not case-folded (see README).
 */
module JavaText {
  import opened Wrappers

  /** String.trim removes every character whose code is at most U+0020 from both ends. */
  predicate IsTrimmed(c: char) { c <= ' ' }

  /** Non-empty, and neither end is a character String.trim removes: what trim leaves alone. */
  predicate Tight(s: string) {
    |s| > 0 && !IsTrimmed(s[0]) && !IsTrimmed(s[|s| - 1])
  }

  /** Character.isWhitespace restricted to ASCII: the `\s` class of java.util.regex. */
  predicate IsSpace(c: char) {
    c == ' ' || c == '\t' || c == '\n' || c == '\r' || c as int == 11 || c as int == 12
  }

  /** Character.isWhitespace restricted to ASCII: `\s` plus the four separators U+001C..U+001F. */
  predicate IsJavaWhitespace(c: char) {
    IsSpace(c) || 28 <= c as int <= 31
  }

  predicate IsDigit(c: char) { '0' <= c <= '9' }

  /** Character.isLetterOrDigit restricted to ASCII. */
  predicate IsLetterOrDigit(c: char) { IsDigit(c) || 'a' <= c <= 'z' || 'A' <= c <= 'Z' }

  function TrimStart(s: string): string {
    if |s| > 0 && IsTrimmed(s[0]) then TrimStart(s[1..]) else s
  }

  function TrimEnd(s: string): string {
    if |s| > 0 && IsTrimmed(s[|s| - 1]) then TrimEnd(s[..|s| - 1]) else s
  }

  /** String.trim. */
  function Trim(s: string): string {
    TrimEnd(TrimStart(s))
  }

  /*
   * What trim leaves is stated in lemmas rather than in the functions'
   * contracts, so that the many lines the executor trims do not each bring
   * these facts into every proof.
   */

  /** trimStart drops a prefix of characters at most U+0020 and stops at the first other character. */
  lemma {:induction false} TrimStartSpec(s: string)
    ensures var r := TrimStart(s);
      |r| <= |s| && r == s[|s| - |r|..] && (r == [] || !IsTrimmed(r[0]))
      && forall i :: 0 <= i < |s| - |r| ==> IsTrimmed(s[i])
    decreases |s|
  {
    if |s| > 0 && IsTrimmed(s[0]) {
      TrimStartSpec(s[1..]);
    }
  }

  /** trimEnd drops a suffix of characters at most U+0020 and stops at the last other character. */
  lemma {:induction false} TrimEndSpec(s: string)
    ensures var r := TrimEnd(s);
      |r| <= |s| && r == s[..|r|] && (r == [] || !IsTrimmed(r[|r| - 1]))
      && forall i :: |r| <= i < |s| ==> IsTrimmed(s[i])
    decreases |s|
  {
    if |s| > 0 && IsTrimmed(s[|s| - 1]) {
      TrimEndSpec(s[..|s| - 1]);
    }
  }

  /** A trimmed string is a slice of the original with neither end at most U+0020. */
  lemma TrimSpec(s: string)
    ensures var r := Trim(s);
      |r| <= |s| && (r == [] || (!IsTrimmed(r[0]) && !IsTrimmed(r[|r| - 1])))
  {
    TrimStartSpec(s);
    TrimEndSpec(TrimStart(s));
    var t := TrimStart(s);
    var r := TrimEnd(t);
    if r != [] {
      assert r[0] == t[0];
    }
  }

  function LowerChar(c: char): char {
    if 'A' <= c <= 'Z' then (c as int + 32) as char else c
  }

  /** String.toLowerCase on ASCII letters. */
  function Lower(s: string): (r: string)
    ensures |r| == |s|
    ensures forall i :: 0 <= i < |s| ==> r[i] == LowerChar(s[i])
  {
    seq(|s|, i requires 0 <= i < |s| => LowerChar(s[i]))
  }

  predicate StartsWith(s: string, prefix: string) {
    |prefix| <= |s| && s[..|prefix|] == prefix
  }

  predicate EndsWith(s: string, suffix: string) {
    |suffix| <= |s| && s[|s| - |suffix|..] == suffix
  }

  /** `pat` occurs in `s` starting at index `j`. */
  predicate OccursAt(s: string, pat: string, j: int) {
    0 <= j && j + |pat| <= |s| && s[j..j + |pat|] == pat
  }

  /** The first index at or after `from` where `pat` occurs in `s`. */
  function IndexOfFrom(s: string, pat: string, from: nat): (r: Option<nat>)
    requires from <= |s|
    ensures r.Some? ==> from <= r.value && OccursAt(s, pat, r.value)
    ensures r.Some? ==> forall j :: from <= j < r.value ==> !OccursAt(s, pat, j)
    ensures r.None? ==> forall j :: from <= j ==> !OccursAt(s, pat, j)
    decreases |s| - from
  {
    if from + |pat| > |s| then None
    else if OccursAt(s, pat, from) then Some(from)
    else IndexOfFrom(s, pat, from + 1)
  }

  /** String.indexOf. */
  function IndexOf(s: string, pat: string): Option<nat> {
    IndexOfFrom(s, pat, 0)
  }

  /** String.contains. */
  predicate Contains(s: string, pat: string) {
    IndexOf(s, pat).Some?
  }

  /** Every piece of `s` between separator characters, empty pieces included. */
  function Pieces(s: string, seps: set<char>): (r: seq<string>)
    ensures |r| >= 1
    ensures forall k :: 0 <= k < |r| ==> forall c :: c in r[k] ==> c !in seps
    decreases |s|
  {
    if |s| == 0 then [""]
    else
      var rest := Pieces(s[1..], seps);
      if s[0] in seps then [""] + rest
      else [[s[0]] + rest[0]] + rest[1..]
  }

  function DropTrailingEmpty(ps: seq<string>): (r: seq<string>)
    ensures |r| <= |ps| && r == ps[..|r|]
    ensures r == [] || r[|r| - 1] != ""
    ensures forall k :: |r| <= k < |ps| ==> ps[k] == ""
  {
    if |ps| > 0 && ps[|ps| - 1] == "" then DropTrailingEmpty(ps[..|ps| - 1]) else ps
  }

  /**
   * String.split with a one-character separator class and no limit: when no
   * separator occurs the string itself is the only element, otherwise the
   * pieces with trailing empty strings removed.
   */
  function SplitOn(s: string, seps: set<char>): (r: seq<string>)
    ensures (forall c :: c in s ==> c !in seps) ==> r == [s]
    ensures forall k :: 0 <= k < |r| ==> forall c :: c in r[k] ==> c !in seps
  {
    if exists i :: 0 <= i < |s| && s[i] in seps then
      var ps := Pieces(s, seps);
      var r := DropTrailingEmpty(ps);
      assert forall k :: 0 <= k < |r| ==> r[k] == ps[k];
      r
    else
      PiecesWithoutSeparator(s, seps);
      [s]
  }

  lemma {:induction false} PiecesWithoutSeparator(s: string, seps: set<char>)
    requires forall i :: 0 <= i < |s| ==> s[i] !in seps
    ensures Pieces(s, seps) == [s]
    decreases |s|
  {
    if |s| > 0 {
      PiecesWithoutSeparator(s[1..], seps);
      assert [s[0]] + s[1..] == s;
    }
  }

  /** The words of a string: the maximal runs of non-whitespace characters, in order. */
  function Words(s: string): (r: seq<string>)
    ensures forall k :: 0 <= k < |r| ==> r[k] != "" && forall c :: c in r[k] ==> !IsSpace(c)
    decreases |s|
  {
    if |s| == 0 then []
    else if IsSpace(s[0]) then Words(s[1..])
    else
      var n := WordLength(s);
      [s[..n]] + Words(s[n..])
  }

  /** Length of the run of non-whitespace characters that starts `s`. */
  function WordLength(s: string): (n: nat)
    ensures n <= |s|
    ensures forall i :: 0 <= i < n ==> !IsSpace(s[i])
    ensures n < |s| ==> IsSpace(s[n])
    ensures |s| > 0 && !IsSpace(s[0]) ==> n > 0
  {
    if |s| == 0 || IsSpace(s[0]) then 0 else 1 + WordLength(s[1..])
  }
  /** `w` consists of characters String.trim removes. */
  predicate AllTrimmed(w: string) {
    forall i :: 0 <= i < |w| ==> IsTrimmed(w[i])
  }

  lemma {:induction false} TrimStartBlank(w: string, x: string)
    requires AllTrimmed(w) && (x == [] || !IsTrimmed(x[0]))
    ensures TrimStart(w + x) == x
    decreases |w|
  {
    if |w| == 0 {
      assert w + x == x;
    } else {
      assert (w + x)[1..] == w[1..] + x;
      TrimStartBlank(w[1..], x);
    }
  }

  lemma {:induction false} TrimEndBlank(x: string, v: string)
    requires AllTrimmed(v) && (x == [] || !IsTrimmed(x[|x| - 1]))
    ensures TrimEnd(x + v) == x
    decreases |v|
  {
    if |v| == 0 {
      assert x + v == x;
    } else {
      assert (x + v)[..|x + v| - 1] == x + v[..|v| - 1];
      TrimEndBlank(x, v[..|v| - 1]);
    }
  }

  /** String.trim strips blank padding from both sides of a text whose ends are not blank. */
  lemma TrimPadded(w: string, x: string, v: string)
    requires AllTrimmed(w) && AllTrimmed(v)
    requires x == [] || (!IsTrimmed(x[0]) && !IsTrimmed(x[|x| - 1]))
    ensures Trim(w + x + v) == x
  {
    if x == [] {
      assert w + x + v == (w + v) + x;
      TrimStartBlank(w + v, x);
    } else {
      assert w + x + v == w + (x + v);
      TrimStartBlank(w, x + v);
      TrimEndBlank(x, v);
    }
  }

  /** contains of a one-character string is membership of the character. */
  lemma ContainsChar(s: string, c: char)
    ensures Contains(s, [c]) <==> c in s
  {
    if c in s {
      var i :| 0 <= i < |s| && s[i] == c;
      assert s[i..i + 1] == [c];
      assert OccursAt(s, [c], i);
    }
    if Contains(s, [c]) {
      var j := IndexOf(s, [c]).value;
      assert s[j..j + 1][0] == s[j];
    }
  }
}
