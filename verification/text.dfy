/** The Option type shared by the classifier: a line either yields a value or nothing. */
module Wrappers {

  datatype Option<+T> = None | Some(value: T)
}

/**
 String primitives with the exact meaning of the Python built-ins the markup
 converter relies on: `str.strip`, `str.splitlines`, `str.replace(tag, '')`,
 `str.startswith`, `str.endswith` and slicing with negative bounds.
 */
module Text {

  import opened Wrappers

  /** Python's `str.isspace`, which is also the class `\s` of a `str` regular expression. */
  predicate IsWhitespace(c: char) {
    || c == ' '
    || ('\t' <= c <= '\r')
    || ('\U{1C}' <= c <= '\U{1F}')
    || c == '\U{85}' || c == '\U{A0}' || c == '\U{1680}'
    || ('\U{2000}' <= c <= '\U{200A}')
    || c == '\U{2028}' || c == '\U{2029}' || c == '\U{202F}'
    || c == '\U{205F}' || c == '\U{3000}'
  }

  predicate AllWhitespace(s: string) {
    forall k :: 0 <= k < |s| ==> IsWhitespace(s[k])
  }

  /**
   `s[i..j]` is what is left of `s` once its leading and trailing whitespace is
   cut: only whitespace before `i` and from `j` on, and no whitespace at either
   edge of what remains.
   */
  predicate TrimmedAt(s: string, i: nat, j: nat) {
    && i <= j <= |s|
    && (forall k :: 0 <= k < i ==> IsWhitespace(s[k]))
    && (forall k :: j <= k < |s| ==> IsWhitespace(s[k]))
    && (i < j ==> !IsWhitespace(s[i]) && !IsWhitespace(s[j - 1]))
  }

  /** The number of whitespace characters that open `s`: where `str.lstrip` starts. */
  function LeadingWhitespace(s: string): (n: nat)
    ensures n <= |s| && forall k :: 0 <= k < n ==> IsWhitespace(s[k])
    ensures n < |s| ==> !IsWhitespace(s[n])
  {
    if |s| > 0 && IsWhitespace(s[0]) then 1 + LeadingWhitespace(s[1..]) else 0
  }

  /** The length of `s` without its trailing whitespace: where `str.rstrip` ends. */
  function TextEnd(s: string): (e: nat)
    ensures e <= |s| && forall k :: e <= k < |s| ==> IsWhitespace(s[k])
    ensures e > 0 ==> !IsWhitespace(s[e - 1])
  {
    if |s| > 0 && IsWhitespace(s[|s| - 1]) then TextEnd(s[..|s| - 1]) else |s|
  }

  /**
   Python's `str.strip()`: the result is the part of `s` after its leading
   whitespace, ending where only whitespace remains, and it neither begins nor
   ends with whitespace.
   */
  function Strip(s: string): (r: string)
    ensures |r| <= |s|
  {
    var i := LeadingWhitespace(s);
    var e := TextEnd(s);
    if e <= i then [] else s[i..e]
  }

  /** The bounds of the part of `s` that `Strip` keeps: `Strip` cuts exactly the whitespace at both ends. */
  lemma StripWitness(s: string) returns (i: nat, j: nat)
    ensures TrimmedAt(s, i, j) && Strip(s) == s[i..j]
  {
    i := LeadingWhitespace(s);
    var e := TextEnd(s);
    j := if e <= i then i else e;
  }

  /** A trimming witness starts at or before the first non-whitespace character. */
  lemma TrimmedAtStart(s: string, i: nat, j: nat, k: nat)
    requires TrimmedAt(s, i, j) && k < |s| && !IsWhitespace(s[k])
    ensures i <= k
  {
  }

  /** A trimming witness ends just after the last non-whitespace character, or later. */
  lemma TrimmedAtEnd(s: string, i: nat, j: nat, k: nat)
    requires TrimmedAt(s, i, j) && k < |s| && !IsWhitespace(s[k])
    ensures k < j
  {
  }

  /** The trimmed part of a string is unique. */
  lemma TrimmedAtUnique(s: string, i: nat, j: nat, i2: nat, j2: nat)
    requires TrimmedAt(s, i, j) && TrimmedAt(s, i2, j2)
    ensures s[i..j] == s[i2..j2]
  {
    if i < j {
      TrimmedAtStart(s, i2, j2, i);
      TrimmedAtEnd(s, i2, j2, j - 1);
    }
    if i2 < j2 {
      TrimmedAtStart(s, i, j, i2);
      TrimmedAtEnd(s, i, j, j2 - 1);
    }
  }

  /** Any trimming witness pins down the result of `Strip`. */
  lemma StripAt(s: string, i: nat, j: nat)
    requires TrimmedAt(s, i, j)
    ensures Strip(s) == s[i..j]
  {
    var i2: nat, j2: nat := StripWitness(s);
    TrimmedAtUnique(s, i, j, i2, j2);
  }

  /** Stripping twice is stripping once (the bullet emitter strips its text a second time). */
  lemma StripIdempotent(s: string)
    ensures Strip(Strip(s)) == Strip(s)
  {
    var r := Strip(s);
    var i: nat, j: nat := StripWitness(s);
    assert TrimmedAt(r, 0, |r|);
    StripAt(r, 0, |r|);
  }

  /** Padding a string with whitespace moves its trimming witness along. */
  lemma TrimmedAtPadded(a: string, x: string, b: string, i: nat, j: nat)
    requires AllWhitespace(a) && AllWhitespace(b) && TrimmedAt(x, i, j)
    ensures TrimmedAt(a + x + b, |a| + i, |a| + j)
    ensures (a + x + b)[|a| + i..|a| + j] == x[i..j]
  {
    var s := a + x + b;
    forall k | 0 <= k < |s|
      ensures s[k] == if k < |a| then a[k] else if k < |a| + |x| then x[k - |a|] else b[k - |a| - |x|]
    {
    }
  }

  /** Two strings whose trimmed parts coincide strip to the same result. */
  lemma StripSame(s: string, i: nat, j: nat, x: string, i2: nat, j2: nat)
    requires TrimmedAt(s, i, j) && TrimmedAt(x, i2, j2) && s[i..j] == x[i2..j2]
    ensures Strip(s) == Strip(x)
  {
    StripAt(s, i, j);
    StripAt(x, i2, j2);
  }

  /** Whitespace around a string is invisible to `Strip`. */
  lemma StripPadded(a: string, x: string, b: string)
    requires AllWhitespace(a) && AllWhitespace(b)
    ensures Strip(a + x + b) == Strip(x)
  {
    var i: nat, j: nat := StripWitness(x);
    TrimmedAtPadded(a, x, b, i, j);
    StripSame(a + x + b, |a| + i, |a| + j, x, i, j);
  }

  /** A string that neither begins nor ends with whitespace strips to itself. */
  lemma StripTrimmed(s: string)
    requires s == [] || (!IsWhitespace(s[0]) && !IsWhitespace(s[|s| - 1]))
    ensures Strip(s) == s
  {
    assert TrimmedAt(s, 0, |s|);
    StripAt(s, 0, |s|);
  }

  /**
   Behind a prefix without edge whitespace, `Strip` only trims the tail: it keeps
   the prefix and a part `x[..j]` of the rest, cutting only whitespace.
   */
  lemma StripAfterPrefix(p: string, x: string) returns (j: nat)
    requires p != [] && !IsWhitespace(p[0]) && !IsWhitespace(p[|p| - 1])
    ensures j <= |x| && Strip(p + x) == p + x[..j]
    ensures Strip(x[..j]) == Strip(x)
  {
    var s := p + x;
    var i: nat, e: nat := StripWitness(s);
    TrimmedAtStart(s, i, e, 0);
    TrimmedAtEnd(s, i, e, |p| - 1);
    j := e - |p|;
    assert s[..e] == p + x[..j];
    assert AllWhitespace(x[j..]) by {
      assert forall k :: 0 <= k < |x| - j ==> x[j..][k] == s[e + k];
    }
    assert x == [] + x[..j] + x[j..];
    StripPadded([], x[..j], x[j..]);
  }

  predicate StartsWith(s: string, p: string) {
    |p| <= |s| && s[..|p|] == p
  }

  predicate EndsWith(s: string, p: string) {
    |p| <= |s| && s[|s| - |p|..] == p
  }

  /** The position of the first `c` in `s`, if any. */
  function IndexOf(s: string, c: char): (r: Option<nat>)
    ensures r.None? <==> c !in s
    ensures r.Some? ==> r.value < |s| && s[r.value] == c && c !in s[..r.value]
  {
    if |s| == 0 then None
    else if s[0] == c then Some(0)
    else match IndexOf(s[1..], c)
      case None => None
      case Some(k) =>
        assert s[..k + 1] == [s[0]] + s[1..][..k];
        Some(k + 1)
  }

  /** The first `c` in `s` is the one `IndexOf` reports. */
  lemma IndexOfFirst(s: string, c: char, n: nat)
    requires n < |s| && s[n] == c && c !in s[..n]
    ensures IndexOf(s, c) == Some(n)
  {
  }

  /**
   Python's `s[front:-back]` for positive `front` and `back`: the middle of `s`,
   or the empty string when the two cut-off ends would overlap.
   */
  function DropEnds(s: string, front: nat, back: nat): (r: string)
    requires back > 0
    ensures front + back <= |s| ==> s == s[..front] + r + s[|s| - back..]
    ensures front + back > |s| ==> r == []
  {
    if front + back <= |s| then s[front..|s| - back] else []
  }

  /** `p` occurs in `s` starting at index `i`. */
  predicate OccursAt(s: string, p: string, i: nat) {
    i + |p| <= |s| && s[i..i + |p|] == p
  }

  predicate Occurs(s: string, p: string) {
    exists i: nat | i + |p| <= |s| :: OccursAt(s, p, i)
  }

  /**
   Python's `s.replace(p, '')`: every occurrence of `p`, found left to right
   without overlap, is deleted. The result is `s` itself exactly when `p` does
   not occur, and otherwise it is shorter by at least one copy of `p`.
   */
  function RemoveAll(s: string, p: string): (r: string)
    requires |p| > 0
    ensures r == s <==> !Occurs(s, p)
    ensures |r| <= |s| && (Occurs(s, p) ==> |r| <= |s| - |p|)
    decreases |s|
  {
    if |s| < |p| then
      s
    else if s[..|p|] == p then
      assert OccursAt(s, p, 0);
      RemoveAll(s[|p|..], p)
    else
      var rest := RemoveAll(s[1..], p);
      OccursShift(s, p);
      [s[0]] + rest
  }

  /** Past a first character that does not begin `p`, `p` occurs in `s` exactly when it occurs in the rest. */
  lemma OccursShift(s: string, p: string)
    requires |s| > 0 && !OccursAt(s, p, 0)
    ensures Occurs(s, p) <==> Occurs(s[1..], p)
  {
    if Occurs(s[1..], p) {
      var i: nat :| i + |p| <= |s| - 1 && OccursAt(s[1..], p, i);
      assert s[1..][i..i + |p|] == s[i + 1..i + 1 + |p|];
      assert OccursAt(s, p, i + 1);
    }
    if Occurs(s, p) {
      var i: nat :| i + |p| <= |s| && OccursAt(s, p, i);
      assert s[1..][i - 1..i - 1 + |p|] == s[i..i + |p|];
      assert OccursAt(s[1..], p, i - 1);
    }
  }

  /** An occurrence in a prefix is an occurrence in the whole. */
  lemma OccursInPrefix(s: string, p: string, j: nat)
    requires j <= |s| && Occurs(s[..j], p)
    ensures Occurs(s, p)
  {
    var i: nat :| i + |p| <= j && OccursAt(s[..j], p, i);
    assert s[..j][i..i + |p|] == s[i..i + |p|];
    assert OccursAt(s, p, i);
  }

  /** A leading copy of the pattern disappears without a trace. */
  lemma RemoveAllLeading(p: string, s: string)
    requires |p| > 0
    ensures RemoveAll(p + s, p) == RemoveAll(s, p)
  {
    assert (p + s)[..|p|] == p;
    assert (p + s)[|p|..] == s;
  }

  /** A leading character that does not begin a copy of the pattern is kept. */
  lemma RemoveAllKeep(c: char, s: string, p: string)
    requires |p| > 0 && !StartsWith([c] + s, p)
    ensures RemoveAll([c] + s, p) == [c] + RemoveAll(s, p)
  {
    assert ([c] + s)[1..] == s;
  }

  /**
   The first copy of `p` is deleted and everything before it kept: when no copy
   starts inside `x`, removal in `x + p + y` keeps `x`, drops this `p` and goes
   on in `y`. With `RemoveAll(s, p) == s` for an `s` without copies, this pins
   down `RemoveAll` as left-to-right deletion of non-overlapping copies.
   */
  lemma {:induction false} RemoveAllFirst(x: string, p: string, y: string)
    requires |p| > 0 && forall i: nat :: i < |x| ==> !OccursAt(x + p + y, p, i)
    ensures RemoveAll(x + p + y, p) == x + RemoveAll(y, p)
    decreases |x|
  {
    if x == [] {
      assert x + p + y == p + y;
      RemoveAllLeading(p, y);
    } else {
      var t := x[1..] + p + y;
      var rest := RemoveAll(y, p);
      NoCopyBehind(x, p, y);
      calc {
        RemoveAll(x + p + y, p);
        RemoveAll([x[0]] + t, p);
        { RemoveAllKeep(x[0], t, p); }
        [x[0]] + RemoveAll(t, p);
        { RemoveAllFirst(x[1..], p, y); }
        [x[0]] + (x[1..] + rest);
        { assert [x[0]] + x[1..] == x; }
        x + rest;
      }
    }
  }

  /** No copy starting in `x` means: `x + p + y` does not start with `p`, and no copy starts in `x[1..]` either. */
  lemma NoCopyBehind(x: string, p: string, y: string)
    requires |p| > 0 && |x| > 0 && forall i: nat :: i < |x| ==> !OccursAt(x + p + y, p, i)
    ensures x + p + y == [x[0]] + (x[1..] + p + y)
    ensures !StartsWith([x[0]] + (x[1..] + p + y), p)
    ensures forall i: nat :: i < |x[1..]| ==> !OccursAt(x[1..] + p + y, p, i)
  {
    var s := x + p + y;
    var t := x[1..] + p + y;
    assert s == [x[0]] + t;
    assert !OccursAt(s, p, 0);
    forall i: nat | i < |x[1..]|
      ensures !OccursAt(t, p, i)
    {
      assert !OccursAt(s, p, i + 1);
      assert s[i + 1..i + 1 + |p|] == t[i..i + |p|];
    }
  }

  /** The line boundaries recognised by Python's `str.splitlines`. */
  predicate IsLineBreak(c: char) {
    c == '\n' || c == '\r' || c == '\U{B}' || c == '\U{C}'
    || ('\U{1C}' <= c <= '\U{1E}')
    || c == '\U{85}' || c == '\U{2028}' || c == '\U{2029}'
  }

  predicate NoLineBreak(s: string) {
    forall k :: 0 <= k < |s| ==> !IsLineBreak(s[k])
  }

  /** The length of the first line of `s`: the index of its first line boundary, or `|s|`. */
  function LineEnd(s: string): (i: nat)
    ensures i <= |s| && NoLineBreak(s[..i])
    ensures i < |s| ==> IsLineBreak(s[i])
  {
    if |s| == 0 || IsLineBreak(s[0]) then 0
    else
      var i := LineEnd(s[1..]);
      assert s[..i + 1] == [s[0]] + s[1..][..i];
      i + 1
  }

  /**
   Python's `str.splitlines()`: the lines of `s` without their boundaries, a
   `"\r\n"` pair counting as one boundary and a final boundary opening no new line.
   */
  function SplitLines(s: string): (r: seq<string>)
    ensures forall k :: 0 <= k < |r| ==> NoLineBreak(r[k])
    ensures r == [] <==> s == []
    decreases |s|
  {
    if |s| == 0 then []
    else
      var i := LineEnd(s);
      var next := if i + 1 < |s| && s[i] == '\r' && s[i + 1] == '\n' then i + 2 else i + 1;
      [s[..i]] + SplitLines(if next <= |s| then s[next..] else [])
  }

  /** `LineEnd` is the first line boundary, whichever way it is found. */
  lemma {:induction false} LineEndAt(s: string, n: nat)
    requires n <= |s| && NoLineBreak(s[..n]) && (n < |s| ==> IsLineBreak(s[n]))
    ensures LineEnd(s) == n
  {
    if n > 0 {
      assert s[..n][0] == s[0];
      assert s[1..][..n - 1] == s[..n][1..];
      LineEndAt(s[1..], n - 1);
    }
  }

  /** A line ended by `'\n'` is split off the front of the text. */
  lemma SplitLinesCons(line: string, rest: string)
    requires NoLineBreak(line)
    ensures SplitLines(line + "\n" + rest) == [line] + SplitLines(rest)
  {
    var s := line + "\n" + rest;
    assert s[..|line|] == line;
    LineEndAt(s, |line|);
    var i := |line|;
    assert s[..i] == line;
    assert s[i + 1..] == rest;
  }

  /** Text without a line boundary is a single line. */
  lemma SplitLinesSingle(line: string)
    requires NoLineBreak(line) && line != []
    ensures SplitLines(line) == [line]
  {
    assert line[..|line|] == line;
    LineEndAt(line, |line|);
    assert SplitLines(line) == [line[..|line|]] + SplitLines([]);
  }

  /** Lines joined by `'\n'`, as in `"\n".join(lines)`. */
  function JoinLines(lines: seq<string>): string {
    if |lines| == 0 then []
    else if |lines| == 1 then lines[0]
    else lines[0] + "\n" + JoinLines(lines[1..])
  }

  /**
   Splitting undoes joining, provided no line holds a boundary of its own and
   the last line is not empty (an empty last line leaves no trace in the text).
   */
  lemma {:induction false} SplitJoinLines(lines: seq<string>)
    requires forall k :: 0 <= k < |lines| ==> NoLineBreak(lines[k])
    requires lines == [] || lines[|lines| - 1] != []
    ensures SplitLines(JoinLines(lines)) == lines
  {
    if |lines| == 1 {
      SplitLinesSingle(lines[0]);
    } else if |lines| > 1 {
      SplitJoinLines(lines[1..]);
      SplitLinesCons(lines[0], JoinLines(lines[1..]));
    }
  }
}
