/**
 * The string operations the update formatter relies on: `splitlines`,
 * `strip`, `lower`, `split(sep, 1)` and `sep.join`.
 *
 * The texts handled here are the raw bytes of a request body (Python 2 `str`),
 * so these are the byte-string versions of the operations: lines end at
 * "\n", "\r" or "\r\n", whitespace is ASCII whitespace, and lower-casing
 * touches only the letters A-Z.
 *
 * The functions carry only the bounds their callers need to be well formed;
 * what each one computes is stated by the lemma that follows it, so that a
 * proof about the formatter sees these definitions only when it asks for them.
 */
module Text {
  import opened Wrappers

  /** The characters `splitlines` ends a line at ("\r\n" counts as one break). */
  predicate IsLineBreak(c: char) {
    c == '\n' || c == '\r'
  }

  /** The characters `strip` removes: space, tab, "\n", "\r", vertical tab, form feed. */
  predicate IsSpace(c: char) {
    c == ' ' || c == '\t' || c == '\n' || c == '\r' || c == '\U{000B}' || c == '\U{000C}'
  }

  predicate NoBreak(s: string) {
    forall k :: 0 <= k < |s| ==> !IsLineBreak(s[k])
  }

  /** Gluing two texts without line breaks gives a text without line breaks. */
  lemma NoBreakConcat(a: string, b: string)
    requires NoBreak(a) && NoBreak(b)
    ensures NoBreak(a + b)
  {
    var s := a + b;
    forall k | |a| <= k < |s|
      ensures !IsLineBreak(s[k])
    {
      assert s[k] == b[k - |a|];
    }
  }

  predicate AllSpace(s: string) {
    forall k :: 0 <= k < |s| ==> IsSpace(s[k])
  }

  /** Index of the first line break of `s`, or `|s|` when it has none. */
  function BreakIndex(s: string): (i: nat)
    ensures i <= |s|
  {
    if s == [] || IsLineBreak(s[0]) then 0 else 1 + BreakIndex(s[1..])
  }

  lemma {:induction false} BreakIndexIsFirst(s: string)
    ensures forall k :: 0 <= k < BreakIndex(s) ==> !IsLineBreak(s[k])
    ensures BreakIndex(s) < |s| ==> IsLineBreak(s[BreakIndex(s)])
  {
    if s != [] && !IsLineBreak(s[0]) {
      BreakIndexIsFirst(s[1..]);
    }
  }

  /**
   * `s.splitlines()`: the lines of `s` without their line breaks; an empty
   * text has no lines and a final line break does not start a new line.
   */
  function SplitLines(s: string): seq<string>
    decreases |s|
  {
    if s == [] then []
    else
      var i := BreakIndex(s);
      if i == |s| then [s]
      else
        var next := if s[i] == '\r' && i + 1 < |s| && s[i + 1] == '\n' then i + 2 else i + 1;
        [s[..i]] + SplitLines(s[next..])
  }

  /** No line `splitlines` returns holds a line break. */
  lemma {:induction false} SplitLinesNoBreak(s: string)
    ensures forall i :: 0 <= i < |SplitLines(s)| ==> NoBreak(SplitLines(s)[i])
    decreases |s|
  {
    if s != [] {
      var i := BreakIndex(s);
      BreakIndexIsFirst(s);
      if i < |s| {
        var next := if s[i] == '\r' && i + 1 < |s| && s[i + 1] == '\n' then i + 2 else i + 1;
        SplitLinesNoBreak(s[next..]);
      }
    }
  }

  /** Index of the first `c` in `s`, or `|s|` when `c` does not occur. */
  function IndexOf(s: string, c: char): (i: nat)
    ensures i <= |s|
  {
    if s == [] || s[0] == c then 0 else 1 + IndexOf(s[1..], c)
  }

  lemma {:induction false} IndexOfIsFirst(s: string, c: char)
    ensures forall k :: 0 <= k < IndexOf(s, c) ==> s[k] != c
    ensures IndexOf(s, c) < |s| ==> s[IndexOf(s, c)] == c
  {
    if s != [] && s[0] != c {
      IndexOfIsFirst(s[1..], c);
    }
  }

  /**
   * `s.split(sep, 1)`: `None` when `sep` does not occur (the one-element
   * list), otherwise the text before the first `sep` and everything after it.
   */
  function SplitOnce(s: string, sep: char): Option<(string, string)> {
    var i := IndexOf(s, sep);
    if i == |s| then None else Some((s[..i], s[i + 1..]))
  }

  /**
   * `split(sep, 1)` fails to split exactly when `sep` does not occur; otherwise
   * its two parts glue back, with `sep`, into the text, and the first part
   * holds no `sep`.
   */
  lemma SplitOnceParts(s: string, sep: char)
    ensures SplitOnce(s, sep).None? <==> sep !in s
    ensures SplitOnce(s, sep).Some? ==>
      var (before, after) := SplitOnce(s, sep).value;
      s == before + [sep] + after && sep !in before
  {
    var i := IndexOf(s, sep);
    IndexOfIsFirst(s, sep);
    if i < |s| {
      assert s == s[..i] + [sep] + s[i + 1..];
    }
  }

  /** `split(sep, 1)` undoes gluing two texts with `sep` when the first has no `sep`. */
  lemma SplitOnceOfJoin(before: string, sep: char, after: string)
    requires sep !in before
    ensures SplitOnce(before + [sep] + after, sep) == Some((before, after))
  {
    var s := before + [sep] + after;
    assert s[|before|] == sep;
    IndexOfIsFirst(s, sep);
    var i := IndexOf(s, sep);
    assert s[..i] == before;
    assert s[i + 1..] == after;
  }

  /** How many whitespace characters `s` starts with. */
  function LeadingSpace(s: string): (n: nat)
    ensures n <= |s|
  {
    if s == [] || !IsSpace(s[0]) then 0 else 1 + LeadingSpace(s[1..])
  }

  lemma {:induction false} LeadingSpaceIsMaximal(s: string)
    ensures forall k :: 0 <= k < LeadingSpace(s) ==> IsSpace(s[k])
    ensures LeadingSpace(s) < |s| ==> !IsSpace(s[LeadingSpace(s)])
  {
    if s != [] && IsSpace(s[0]) {
      LeadingSpaceIsMaximal(s[1..]);
    }
  }

  /** How many whitespace characters `s` ends with. */
  function TrailingSpace(s: string): (n: nat)
    ensures n <= |s|
  {
    if s == [] || !IsSpace(s[|s| - 1]) then 0 else 1 + TrailingSpace(s[..|s| - 1])
  }

  lemma {:induction false} TrailingSpaceIsMaximal(s: string)
    ensures forall k :: |s| - TrailingSpace(s) <= k < |s| ==> IsSpace(s[k])
    ensures TrailingSpace(s) < |s| ==> !IsSpace(s[|s| - 1 - TrailingSpace(s)])
  {
    if s != [] && IsSpace(s[|s| - 1]) {
      TrailingSpaceIsMaximal(s[..|s| - 1]);
    }
  }

  /** `s.strip()`: `s` without its leading and trailing whitespace. */
  function Trim(s: string): string {
    var rest := s[LeadingSpace(s)..];
    rest[..|rest| - TrailingSpace(rest)]
  }

  /**
   * A stripped text neither starts nor ends with whitespace, is empty exactly
   * when the text was all whitespace, and is a piece of the text (so it has
   * no line break when the text has none).
   */
  lemma TrimSpec(s: string)
    ensures var r := Trim(s);
      && (r == [] || (!IsSpace(r[0]) && !IsSpace(r[|r| - 1])))
      && (r == [] <==> AllSpace(s))
      && (NoBreak(s) ==> NoBreak(r))
  {
    var a := LeadingSpace(s);
    var rest := s[a..];
    var b := TrailingSpace(rest);
    LeadingSpaceIsMaximal(s);
    TrailingSpaceIsMaximal(rest);
    var r := Trim(s);
    if r != [] {
      assert r[0] == s[a];
      assert r[|r| - 1] == rest[|rest| - 1 - b];
    }
    if a < |s| {
      assert rest[0] == s[a];
    }
  }

  /** Stripping removes exactly the whitespace padding around a text. */
  lemma TrimPadded(left: string, core: string, right: string)
    requires AllSpace(left) && AllSpace(right)
    requires core == [] || (!IsSpace(core[0]) && !IsSpace(core[|core| - 1]))
    ensures Trim(left + core + right) == core
  {
    var s := left + core + right;
    if core == [] {
      TrimSpec(s);
      assert AllSpace(s);
    } else {
      assert s[|left|] == core[0];
      LeadingSpaceIsMaximal(s);
      assert LeadingSpace(s) == |left|;
      var rest := s[|left|..];
      assert rest == core + right;
      assert rest[|core| - 1] == core[|core| - 1];
      TrailingSpaceIsMaximal(rest);
      assert TrailingSpace(rest) == |right|;
      assert rest[..|core|] == core;
    }
  }

  function LowerChar(c: char): char {
    if 'A' <= c <= 'Z' then (c as int + 32) as char else c
  }

  /** `s.lower()` on a byte string: only A-Z change. */
  function Lower(s: string): (r: string)
    ensures |r| == |s|
  {
    if s == [] then [] else [LowerChar(s[0])] + Lower(s[1..])
  }

  /** `sep.join(items)`. */
  function Join(items: seq<string>, sep: string): string {
    if |items| == 0 then ""
    else if |items| == 1 then items[0]
    else items[0] + sep + Join(items[1..], sep)
  }

  /** Index of the first break of a text that starts with a break-free line. */
  lemma BreakIndexAfter(line: string, rest: string)
    requires NoBreak(line)
    requires rest == [] || IsLineBreak(rest[0])
    ensures BreakIndex(line + rest) == |line|
  {
    var s := line + rest;
    BreakIndexIsFirst(s);
    if rest != [] {
      assert s[|line|] == rest[0];
    }
  }

  /**
   * Joining break-free lines with "\n" and splitting the result gives the lines
   * back, provided the last one is not empty (`"a\n".splitlines()` is `["a"]`).
   */
  lemma {:induction false} SplitLinesOfJoin(lines: seq<string>)
    requires lines != [] && lines[|lines| - 1] != []
    requires forall i :: 0 <= i < |lines| ==> NoBreak(lines[i])
    ensures SplitLines(Join(lines, "\n")) == lines
  {
    if |lines| == 1 {
      BreakIndexAfter(lines[0], []);
      assert lines[0] + [] == lines[0];
    } else {
      var tail := lines[1..];
      assert forall i :: 0 <= i < |tail| ==> tail[i] == lines[i + 1];
      SplitLinesOfJoin(tail);
      assert Join(lines, "\n") == lines[0] + "\n" + Join(tail, "\n");
      SplitLinesAfterBreak(lines[0], Join(tail, "\n"));
      assert [lines[0]] + tail == lines;
    }
  }

  /** A break-free line followed by "\n" splits off as the first line. */
  lemma SplitLinesAfterBreak(line: string, rest: string)
    requires NoBreak(line)
    ensures SplitLines(line + "\n" + rest) == [line] + SplitLines(rest)
  {
    var s := line + "\n" + rest;
    assert s == line + ("\n" + rest);
    BreakIndexAfter(line, "\n" + rest);
    assert s[|line|] == '\n';
    assert s[..|line|] == line;
    assert s[|line| + 1..] == rest;
  }
}
