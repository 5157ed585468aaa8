/**
 * The Python `str` operations the parser relies on, written out over `seq<char>`:
 * `isspace`, `strip`, `lower`, `splitlines`, `find`, `in`, `startswith` and `join`.
 */
module PyText {

  /** `str.isspace()` for one character: the characters Python classes as whitespace. */
  predicate IsSpace(c: char) {
    || ('\t' <= c <= '\r')
    || ('\U{1C}' <= c <= ' ')
    || c == '\U{85}' || c == '\U{A0}' || c == '\U{1680}'
    || ('\U{2000}' <= c <= '\U{200A}')
    || c == '\U{2028}' || c == '\U{2029}' || c == '\U{202F}' || c == '\U{205F}' || c == '\U{3000}'
  }

  predicate AllSpace(s: string) {
    forall i | 0 <= i < |s| :: IsSpace(s[i])
  }

  /** The line boundaries of `str.splitlines()`; `"\r\n"` is one boundary made of two of them. */
  predicate IsLineBreak(c: char) {
    || ('\n' <= c <= '\r')
    || ('\U{1C}' <= c <= '\U{1E}')
    || c == '\U{85}' || c == '\U{2028}' || c == '\U{2029}'
  }

  predicate NoLineBreak(s: string) {
    forall i | 0 <= i < |s| :: !IsLineBreak(s[i])
  }

  lemma NoLineBreakAppend(a: string, b: string)
    requires NoLineBreak(a) && NoLineBreak(b)
    ensures NoLineBreak(a + b)
  {
    forall i | 0 <= i < |a + b|
      ensures !IsLineBreak((a + b)[i])
    {
      if i >= |a| {
        assert (a + b)[i] == b[i - |a|];
      }
    }
  }

  /** Number of whitespace characters at the front of `s` (see `LeadingSpaceSpec`). */
  function LeadingSpace(s: string): (n: nat)
    ensures n <= |s|
  {
    if s != [] && IsSpace(s[0]) then 1 + LeadingSpace(s[1..]) else 0
  }

  /** The counted characters are whitespace and the next one, if any, is not. */
  lemma {:induction false} LeadingSpaceSpec(s: string)
    ensures AllSpace(s[..LeadingSpace(s)])
    ensures LeadingSpace(s) < |s| ==> !IsSpace(s[LeadingSpace(s)])
  {
    if s != [] && IsSpace(s[0]) {
      LeadingSpaceSpec(s[1..]);
      assert s[..LeadingSpace(s)] == [s[0]] + s[1..][..LeadingSpace(s[1..])];
    }
  }

  /** Number of whitespace characters at the back of `s` (see `TrailingSpaceSpec`). */
  function TrailingSpace(s: string): (n: nat)
    ensures n <= |s|
  {
    if s != [] && IsSpace(s[|s| - 1]) then 1 + TrailingSpace(s[..|s| - 1]) else 0
  }

  /** The counted characters are whitespace and the one before them, if any, is not. */
  lemma {:induction false} TrailingSpaceSpec(s: string)
    ensures AllSpace(s[|s| - TrailingSpace(s)..])
    ensures TrailingSpace(s) < |s| ==> !IsSpace(s[|s| - 1 - TrailingSpace(s)])
  {
    if s != [] && IsSpace(s[|s| - 1]) {
      TrailingSpaceSpec(s[..|s| - 1]);
      SuffixSnoc(s, |s| - TrailingSpace(s));
    }
  }

  lemma SuffixSnoc(s: string, i: nat)
    requires i < |s|
    ensures s[i..] == s[..|s| - 1][i..] + [s[|s| - 1]]
  {
  }

  /**
   * `str.strip()`: the part of `s` that follows its leading whitespace and is
   * followed only by whitespace, and that neither starts nor ends with whitespace.
   */
  function Strip(s: string): (r: string)
    ensures |r| <= |s|
  {
    StripEnd(s[LeadingSpace(s)..])
  }

  /** `str.rstrip()`: `t` without its trailing whitespace. */
  function StripEnd(t: string): (r: string)
    ensures |r| <= |t|
  {
    t[..|t| - TrailingSpace(t)]
  }

  /** What `Strip` keeps: a slice of `s` right after its leading whitespace, followed only by whitespace. */
  lemma StripSpec(s: string)
    ensures LeadingSpace(s) + |Strip(s)| <= |s|
    ensures Strip(s) == s[LeadingSpace(s)..LeadingSpace(s) + |Strip(s)|]
    ensures AllSpace(s[LeadingSpace(s) + |Strip(s)|..])
    ensures Strip(s) != [] ==> !IsSpace(Strip(s)[0]) && !IsSpace(Strip(s)[|Strip(s)| - 1])
  {
    LeadingSpaceSpec(s);
    StripEndSpec(s[LeadingSpace(s)..]);
    DropSlices(s, LeadingSpace(s), |Strip(s)|);
  }

  lemma DropSlices(s: string, n: nat, m: nat)
    requires n + m <= |s|
    ensures s[n..][..m] == s[n..n + m]
    ensures s[n..][m..] == s[n + m..]
  {
  }

  /** What `StripEnd` keeps: a prefix of `t` followed only by whitespace, not ending in whitespace. */
  lemma StripEndSpec(t: string)
    ensures StripEnd(t) == t[..|StripEnd(t)|]
    ensures AllSpace(t[|StripEnd(t)|..])
    ensures StripEnd(t) != [] ==> !IsSpace(StripEnd(t)[|StripEnd(t)| - 1])
  {
    TrailingSpaceSpec(t);
  }

  lemma {:induction false} LeadingSpaceOf(a: string, t: string)
    requires AllSpace(a)
    requires t != [] && !IsSpace(t[0])
    ensures LeadingSpace(a + t) == |a|
  {
    if a != [] {
      assert (a + t)[1..] == a[1..] + t;
      LeadingSpaceOf(a[1..], t);
    } else {
      assert a + t == t;
    }
  }

  lemma {:induction false} TrailingSpaceOf(t: string, b: string)
    requires AllSpace(b)
    requires t != [] && !IsSpace(t[|t| - 1])
    ensures TrailingSpace(t + b) == |b|
  {
    if b != [] {
      assert (t + b)[..|t + b| - 1] == t + b[..|b| - 1];
      TrailingSpaceOf(t, b[..|b| - 1]);
    } else {
      assert t + b == t;
    }
  }

  lemma {:induction false} LeadingSpaceAll(s: string)
    requires AllSpace(s)
    ensures LeadingSpace(s) == |s|
  {
    if s != [] {
      LeadingSpaceAll(s[1..]);
    }
  }

  /** A string strips to `t` exactly when it is `t` wrapped in whitespace and `t` has no whitespace at its ends. */
  lemma StripUnique(a: string, t: string, b: string)
    requires AllSpace(a) && AllSpace(b)
    requires t != [] ==> !IsSpace(t[0]) && !IsSpace(t[|t| - 1])
    ensures Strip(a + t + b) == t
  {
    var s := a + t + b;
    if t == [] {
      assert s == a + b;
      LeadingSpaceAll(s);
    } else {
      assert s == a + (t + b);
      LeadingSpaceOf(a, t + b);
      assert s[|a|..] == t + b;
      TrailingSpaceOf(t, b);
      assert (t + b)[..|t|] == t;
    }
  }

  /** Whitespace in front of a string does not change what it strips to. */
  lemma StripSkipsLeadingSpace(a: string, s: string)
    requires AllSpace(a)
    ensures Strip(a + s) == Strip(s)
  {
    LeadingSpaceSkip(a, s);
    DropPastPrefix(a, s, LeadingSpace(s));
  }

  /** Dropping leading whitespace does not change what `strip` gives. */
  lemma StripDropSpace(s: string, w: nat)
    requires w <= |s| && AllSpace(s[..w])
    ensures Strip(s[w..]) == Strip(s)
  {
    TakeDrop(s, w);
    StripSkipsLeadingSpace(s[..w], s[w..]);
  }

  lemma DropPastPrefix(a: string, s: string, i: nat)
    requires i <= |s|
    ensures (a + s)[|a| + i..] == s[i..]
  {
  }

  lemma {:induction false} LeadingSpaceSkip(a: string, s: string)
    requires AllSpace(a)
    ensures LeadingSpace(a + s) == |a| + LeadingSpace(s)
  {
    if a != [] {
      assert (a + s)[1..] == a[1..] + s;
      LeadingSpaceSkip(a[1..], s);
    } else {
      assert a + s == s;
    }
  }

  lemma AllSpaceAppend(a: string, b: string)
    requires AllSpace(a) && AllSpace(b)
    ensures AllSpace(a + b)
  {
    forall i | 0 <= i < |a + b|
      ensures IsSpace((a + b)[i])
    {
      if i >= |a| {
        assert (a + b)[i] == b[i - |a|];
      }
    }
  }

  /** A string made only of whitespace strips to the empty string. */
  lemma StripAllSpace(s: string)
    requires AllSpace(s)
    ensures Strip(s) == []
  {
    assert s == s + [] + [];
    StripUnique(s, [], []);
  }

  /** A string strips to nothing exactly when it is all whitespace. */
  lemma StripEmpty(s: string)
    ensures Strip(s) == [] <==> AllSpace(s)
  {
    if AllSpace(s) {
      StripAllSpace(s);
    }
    if Strip(s) == [] {
      StripSpec(s);
      LeadingSpaceSpec(s);
      AllSpaceAppend(s[..LeadingSpace(s)], s[LeadingSpace(s)..]);
      TakeDrop(s, LeadingSpace(s));
    }
  }

  lemma TakeDrop(s: string, n: nat)
    requires n <= |s|
    ensures s[..n] + s[n..] == s
  {
  }

  /** `str.lower()` on the characters A–Z; every other character is kept. */
  function LowerChar(c: char): char {
    if 'A' <= c <= 'Z' then (c as int + 32) as char else c
  }

  function Lower(s: string): (r: string)
    ensures |r| == |s|
  {
    seq(|s|, i requires 0 <= i < |s| => LowerChar(s[i]))
  }

  /** `sub` occurs in `s` starting at index `i`. */
  predicate OccursAt(s: string, sub: string, i: nat) {
    i + |sub| <= |s| && s[i..i + |sub|] == sub
  }

  /** Python's `sub in s`. */
  predicate Contains(s: string, sub: string) {
    exists i | 0 <= i <= |s| - |sub| :: OccursAt(s, sub, i)
  }

  /** `s.startswith(prefix)`. */
  predicate StartsWith(s: string, prefix: string) {
    |prefix| <= |s| && s[..|prefix|] == prefix
  }

  /** One differing character rules out a prefix. */
  lemma NotStartsWith(s: string, prefix: string, k: nat)
    requires k < |prefix| && k < |s| && s[k] != prefix[k]
    ensures !StartsWith(s, prefix)
  {
    if |prefix| <= |s| {
      assert s[..|prefix|][k] == s[k];
    }
  }

  /**
   * A letter that occurs in neither case in `s` is absent from `Lower(s)`,
   * so a string holding it is not contained in `Lower(s)`.
   */
  lemma NotContainedInLower(s: string, sub: string, k: nat)
    requires k < |sub| && 'a' <= sub[k] <= 'z'
    requires sub[k] !in s && (sub[k] as int - 32) as char !in s
    ensures !Contains(Lower(s), sub)
  {
    forall i | 0 <= i <= |s| - |sub| ensures !OccursAt(Lower(s), sub, i) {
      assert s[i + k] in s;
      assert Lower(s)[i..i + |sub|][k] == Lower(s)[i + k] != sub[k];
    }
  }

  /** Likewise for a character that is not a letter: it is absent from `Lower(s)` when absent from `s`. */
  lemma NotContainedInLowerPunct(s: string, sub: string, k: nat)
    requires k < |sub| && !('a' <= sub[k] <= 'z') && !('A' <= sub[k] <= 'Z')
    requires sub[k] !in s
    ensures !Contains(Lower(s), sub)
  {
    forall i | 0 <= i <= |s| - |sub| ensures !OccursAt(Lower(s), sub, i) {
      assert s[i + k] in s;
      assert Lower(s)[i..i + |sub|][k] == Lower(s)[i + k] != sub[k];
    }
  }

  /** `Lower` works character by character, so it distributes over concatenation. */
  lemma LowerAppend(a: string, b: string)
    ensures Lower(a + b) == Lower(a) + Lower(b)
  {
    assert forall i | 0 <= i < |a + b| :: Lower(a + b)[i] == (Lower(a) + Lower(b))[i];
  }

  lemma ContainsMiddle(a: string, sub: string, b: string)
    ensures Contains(a + sub + b, sub)
  {
    assert (a + sub + b)[|a|..|a| + |sub|] == sub;
    assert OccursAt(a + sub + b, sub, |a|);
  }

  /** `s.find(c)`: the index of the first `c` in `s`, or -1 when there is none. */
  function Find(s: string, c: char): (r: int)
    ensures -1 <= r < |s|
    ensures r == -1 <==> c !in s
    ensures r >= 0 ==> s[r] == c && c !in s[..r]
  {
    if s == [] then -1
    else if s[0] == c then 0
    else
      var k := Find(s[1..], c);
      if k < 0 then -1
      else
        assert s[..k + 1] == [s[0]] + s[1..][..k];
        k + 1
  }

  /** The first occurrence is unique: any index holding `c` with no `c` before it is the one `Find` returns. */
  lemma FindFirst(s: string, c: char, k: nat)
    requires k < |s| && s[k] == c && c !in s[..k]
    ensures Find(s, c) == k
  {
    assert c in s;
    var f := Find(s, c);
    forall i | 0 <= i < f
      ensures s[i] != c
    {
      assert s[..f][i] == s[i];
    }
    forall i | 0 <= i < k
      ensures s[i] != c
    {
      assert s[..k][i] == s[i];
    }
  }

  /** Length of the first line of `s`: the index of the first line boundary, or `|s|`. */
  function LineLength(s: string): (n: nat)
    ensures n <= |s|
    ensures NoLineBreak(s[..n])
    ensures n < |s| ==> IsLineBreak(s[n])
  {
    if s == [] || IsLineBreak(s[0]) then 0 else 1 + LineLength(s[1..])
  }

  /** Index just past the line boundary at `n` (two characters for `"\r\n"`), or `|s|` at the end. */
  function NextLineStart(s: string, n: nat): (m: nat)
    requires n <= |s|
    ensures n < m <= |s| || m == n == |s|
  {
    if n == |s| then n
    else if s[n] == '\r' && n + 1 < |s| && s[n + 1] == '\n' then n + 2
    else n + 1
  }

  /**
   * `s.splitlines()`: the lines of `s` without their boundaries; a boundary at
   * the very end does not open an empty last line.
   */
  function SplitLines(s: string): (lines: seq<string>)
    ensures lines == [] <==> s == []
    ensures forall k | 0 <= k < |lines| :: NoLineBreak(lines[k])
    decreases |s|
  {
    if s == [] then []
    else
      var n := LineLength(s);
      [s[..n]] + SplitLines(s[NextLineStart(s, n)..])
  }

  /** A line without boundaries followed by `"\n"` is split off as exactly that line. */
  lemma SplitLinesCons(line: string, rest: string)
    requires NoLineBreak(line)
    ensures SplitLines(line + "\n" + rest) == [line] + SplitLines(rest)
  {
    var s := line + "\n" + rest;
    var n := LineLength(s);
    assert s[|line|] == '\n';
    assert forall i | 0 <= i < |line| :: s[i] == line[i];
    assert n <= |line| by {
      assert forall i | 0 <= i < n :: s[..n][i] == s[i];
    }
    assert s[..n] == line;
    assert NextLineStart(s, n) == |line| + 1;
    assert s[|line| + 1..] == rest;
  }

  /** A non-empty line without boundaries is its own single line. */
  lemma SplitLinesSingle(line: string)
    requires line != [] && NoLineBreak(line)
    ensures SplitLines(line) == [line]
  {
    var n := LineLength(line);
    assert n == |line|;
    assert line[..n] == line;
    assert line[NextLineStart(line, n)..] == [];
  }

  /** `"\n".join(parts)` and in general `sep.join(parts)`. */
  function Join(parts: seq<string>, sep: string): (r: string)
  {
    if parts == [] then ""
    else if |parts| == 1 then parts[0]
    else parts[0] + sep + Join(parts[1..], sep)
  }

  /** Each line followed by `"\n"`: how a tool prints the lines of its diagnostic output. */
  function Terminated(lines: seq<string>): string
  {
    if lines == [] then "" else lines[0] + "\n" + Terminated(lines[1..])
  }

  /** Round trip: splitting newline-terminated lines gives the lines back. */
  lemma {:induction false} SplitTerminated(lines: seq<string>)
    requires forall k | 0 <= k < |lines| :: NoLineBreak(lines[k])
    ensures SplitLines(Terminated(lines)) == lines
  {
    if lines != [] {
      SplitLinesCons(lines[0], Terminated(lines[1..]));
      SplitTerminated(lines[1..]);
    }
  }

  /**
   * Round trip: splitting `"\n".join(parts)` gives the parts back, provided no part
   * holds a line boundary and the last part is not empty.
   */
  lemma {:induction false} SplitJoined(parts: seq<string>)
    requires parts != [] && parts[|parts| - 1] != []
    requires forall k | 0 <= k < |parts| :: NoLineBreak(parts[k])
    ensures SplitLines(Join(parts, "\n")) == parts
  {
    if |parts| == 1 {
      SplitLinesSingle(parts[0]);
    } else {
      var rest := parts[1..];
      assert rest[|rest| - 1] == parts[|parts| - 1];
      SplitJoined(rest);
      SplitLinesCons(parts[0], Join(rest, "\n"));
      assert parts == [parts[0]] + rest;
    }
  }

  /** The characters of `s` other than line boundaries, in order. */
  function DropLineBreaks(s: string): string
  {
    if s == [] then [] else (if IsLineBreak(s[0]) then [] else [s[0]]) + DropLineBreaks(s[1..])
  }

  function Concat(lines: seq<string>): string
  {
    if lines == [] then [] else lines[0] + Concat(lines[1..])
  }

  lemma {:induction false} DropLineBreaksAppend(a: string, b: string)
    ensures DropLineBreaks(a + b) == DropLineBreaks(a) + DropLineBreaks(b)
  {
    if a != [] {
      assert (a + b)[1..] == a[1..] + b;
      DropLineBreaksAppend(a[1..], b);
    } else {
      assert a + b == b;
    }
  }

  lemma {:induction false} DropLineBreaksNone(s: string)
    requires NoLineBreak(s)
    ensures DropLineBreaks(s) == s
  {
    if s != [] {
      DropLineBreaksNone(s[1..]);
    }
  }

  lemma {:induction false} DropLineBreaksAll(s: string)
    requires forall i | 0 <= i < |s| :: IsLineBreak(s[i])
    ensures DropLineBreaks(s) == []
  {
    if s != [] {
      DropLineBreaksAll(s[1..]);
    }
  }

  /** `splitlines` loses only the line boundaries: every other character survives, in order. */
  lemma {:induction false} SplitLinesKeepsText(s: string)
    ensures Concat(SplitLines(s)) == DropLineBreaks(s)
    decreases |s|
  {
    if s != [] {
      var n := LineLength(s);
      var m := NextLineStart(s, n);
      ThreeParts(s, n, m);
      BoundaryIsBreaks(s, n, m);
      DropBoundary(s[..n], s[n..m], s[m..]);
      SplitLinesKeepsText(s[m..]);
    }
  }

  /** A line, then a boundary, then more text: the line is kept and the boundary dropped. */
  lemma DropBoundary(line: string, boundary: string, rest: string)
    requires NoLineBreak(line)
    requires forall i | 0 <= i < |boundary| :: IsLineBreak(boundary[i])
    ensures DropLineBreaks(line + boundary + rest) == line + DropLineBreaks(rest)
  {
    DropLineBreaksAppend(line + boundary, rest);
    LineThenBoundary(line, boundary);
  }

  lemma LineThenBoundary(line: string, boundary: string)
    requires NoLineBreak(line)
    requires forall i | 0 <= i < |boundary| :: IsLineBreak(boundary[i])
    ensures DropLineBreaks(line + boundary) == line
  {
    DropLineBreaksAppend(line, boundary);
    DropLineBreaksNone(line);
    DropLineBreaksAll(boundary);
  }

  lemma ThreeParts(s: string, n: nat, m: nat)
    requires n <= m <= |s|
    ensures s[..n] + s[n..m] + s[m..] == s
  {
  }

  /** What lies between the end of the first line and the start of the next is one line boundary. */
  lemma BoundaryIsBreaks(s: string, n: nat, m: nat)
    requires n == LineLength(s) && m == NextLineStart(s, n)
    ensures forall i | 0 <= i < |s[n..m]| :: IsLineBreak(s[n..m][i])
  {
    assert m == n || m == n + 1 || (m == n + 2 && s[n] == '\r' && s[n + 1] == '\n');
  }
}
