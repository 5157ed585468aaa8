/**
 * The two diagnostic patterns of the parser, `\berror:\s*(.+)` and
 * `\bwarning:\s*(.+)`, compiled case-insensitively and applied with `search`
 * to one output line at a time: the leftmost match wins and its group 1 is kept.
 */
module LeanMarkers {
  import opened Wrappers
  import opened PyText

  const ErrorKeyword := "error:"
  const WarningKeyword := "warning:"

  /** `\w`: letters, digits and the underscore (ASCII ones; see README). */
  predicate IsWordChar(c: char) {
    ('a' <= c <= 'z') || ('A' <= c <= 'Z') || ('0' <= c <= '9') || c == '_'
  }

  /**
   * Case-insensitive equality of a text character with a pattern character:
   * the character itself, its ASCII capital, and the two Turkish forms that
   * Python's `re` treats as equal to `i`.
   */
  predicate FoldsTo(c: char, k: char) {
    || c == k
    || ('a' <= k <= 'z' && c as int == k as int - 32)
    || (k == 'i' && (c == '\U{130}' || c == '\U{131}'))
  }

  /** The keyword matches, ignoring case, at index `p` of `line`. */
  predicate KeywordAt(line: string, kw: string, p: nat) {
    p + |kw| <= |line| && forall i | 0 <= i < |kw| :: FoldsTo(line[p + i], kw[i])
  }

  /** `\b` at index `p`: a word character on exactly one side. */
  predicate WordBoundary(line: string, p: nat) {
    (p > 0 && p <= |line| && IsWordChar(line[p - 1])) != (p < |line| && IsWordChar(line[p]))
  }

  /**
   * The whole pattern matches starting at `p`: a word boundary, the keyword,
   * then `\s*(.+)`, which needs at least one character after the keyword.
   */
  predicate MatchesAt(line: string, kw: string, p: nat) {
    WordBoundary(line, p) && KeywordAt(line, kw, p) && p + |kw| < |line|
  }

  /**
   * Group 1 of a match whose keyword ends at `q`: greedy `\s*` takes the
   * whitespace run, but gives back its last character when nothing else is
   * left for `(.+)`.
   */
  function Capture(line: string, q: nat): (g: string)
    requires q < |line|
    ensures g != []
    decreases |line| - q
  {
    if q + 1 < |line| && IsSpace(line[q]) then Capture(line, q + 1) else line[q..]
  }

  /**
   * The group is a suffix of the line, only whitespace lies between `q` and
   * its start, and it starts with a non-space character unless it is the
   * last character alone.
   */
  lemma {:induction false} CaptureSpec(line: string, q: nat)
    requires q < |line|
    ensures q <= |line| - |Capture(line, q)|
    ensures Capture(line, q) == line[|line| - |Capture(line, q)|..]
    ensures AllSpace(line[q..|line| - |Capture(line, q)|])
    ensures |Capture(line, q)| > 1 ==> !IsSpace(Capture(line, q)[0])
    decreases |line| - q
  {
    if q + 1 < |line| && IsSpace(line[q]) {
      CaptureSpec(line, q + 1);
      var c := |line| - |Capture(line, q)|;
      assert line[q..c] == [line[q]] + line[q + 1..c];
    }
  }

  /** The leftmost match at or after `p`, as `re.search` finds it (see `FirstMatchIsLeftmost`). */
  function FirstMatch(line: string, kw: string, p: nat): (m: Option<nat>)
    ensures m.Some? ==> p <= m.value && m.value + |kw| < |line|
    decreases |line| - p
  {
    if p >= |line| then None
    else if MatchesAt(line, kw, p) then Some(p)
    else FirstMatch(line, kw, p + 1)
  }

  /** `FirstMatch` finds a match, no match lies before it, and it finds none only when there is none. */
  lemma {:induction false} FirstMatchIsLeftmost(line: string, kw: string, p: nat)
    ensures FirstMatch(line, kw, p).Some? ==>
      && MatchesAt(line, kw, FirstMatch(line, kw, p).value)
      && forall q | p <= q < FirstMatch(line, kw, p).value :: !MatchesAt(line, kw, q)
    ensures FirstMatch(line, kw, p).None? ==> forall q | p <= q :: !MatchesAt(line, kw, q)
    decreases |line| - p
  {
    if p < |line| && !MatchesAt(line, kw, p) {
      FirstMatchIsLeftmost(line, kw, p + 1);
    }
  }

  /** `PATTERN.search(line)` followed by `match.group(1).strip()`, or `None` when there is no match. */
  function Message(line: string, kw: string): (r: Option<string>)
  {
    match FirstMatch(line, kw, 0)
    case None => None
    case Some(p) => Some(Strip(Capture(line, p + |kw|)))
  }

  /** Whatever `\s*` gives back to `(.+)`, the stripped group is the stripped rest of the line. */
  lemma {:induction false} CaptureStrip(line: string, q: nat)
    requires q < |line|
    ensures Strip(Capture(line, q)) == Strip(line[q..])
    decreases |line| - q
  {
    if q + 1 < |line| && IsSpace(line[q]) {
      CaptureStrip(line, q + 1);
      DropSlices(line, q, 1);
      StripDropSpace(line[q..], 1);
    }
  }

  /** A line yields a message exactly when the pattern matches somewhere in it. */
  lemma MessageIffMatch(line: string, kw: string)
    ensures Message(line, kw).Some? <==> exists p :: MatchesAt(line, kw, p)
  {
    FirstMatchIsLeftmost(line, kw, 0);
  }

  /** The message is the stripped rest of the line after the keyword of the leftmost match. */
  lemma MessageIsStrippedTail(line: string, kw: string, m: nat)
    requires FirstMatch(line, kw, 0) == Some(m)
    ensures Message(line, kw) == Some(Strip(line[m + |kw|..]))
  {
    var q := m + |kw|;
    CaptureStrip(line, q);
    MessageOfMatch(line, kw, m);
    assert Message(line, kw).value == Strip(line[q..]);
  }

  /**
   * A keyword followed only by whitespace still matches, since `\s*` gives one
   * character back to `(.+)`, and its message is the empty string.
   */
  lemma BlankAfterKeyword(line: string, kw: string, m: nat)
    requires FirstMatch(line, kw, 0) == Some(m)
    requires AllSpace(line[m + |kw|..])
    ensures Message(line, kw) == Some("")
  {
    MessageIsStrippedTail(line, kw, m);
    StripAllSpace(line[m + |kw|..]);
  }

  /** The message of a line is the stripped group of its leftmost match. */
  lemma MessageOfMatch(line: string, kw: string, m: nat)
    requires FirstMatch(line, kw, 0) == Some(m)
    ensures m + |kw| < |line|
    ensures Message(line, kw) == Some(Strip(Capture(line, m + |kw|)))
  {
    assert FirstMatch(line, kw, 0).value == m;
  }

  /** No character of `prefix` can start the keyword: the keyword's first two characters never match there. */
  predicate NoKeywordStart(prefix: string, kw: string)
    requires |kw| >= 2
  {
    forall q | 0 <= q < |prefix| :: !FoldsTo(prefix[q], kw[0]) || (q + 1 < |prefix| && !FoldsTo(prefix[q + 1], kw[1]))
  }

  /** A text without any character matching the keyword's first one cannot start it. */
  lemma NoKeywordStartWithout(text: string, kw: string)
    requires |kw| >= 2
    requires forall q | 0 <= q < |text| :: !FoldsTo(text[q], kw[0])
    ensures NoKeywordStart(text, kw)
  {
  }

  /** Two texts that cannot start the keyword cannot start it when joined either. */
  lemma NoKeywordStartAppend(a: string, b: string, kw: string)
    requires |kw| >= 2
    requires NoKeywordStart(a, kw) && NoKeywordStart(b, kw)
    ensures NoKeywordStart(a + b, kw)
  {
    forall q | 0 <= q < |a + b|
      ensures !FoldsTo((a + b)[q], kw[0]) || (q + 1 < |a + b| && !FoldsTo((a + b)[q + 1], kw[1]))
    {
      if q < |a| {
        assert (a + b)[q] == a[q];
        if q + 1 < |a| {
          assert (a + b)[q + 1] == a[q + 1];
        }
      } else {
        assert (a + b)[q] == b[q - |a|];
        if q + 1 < |a + b| {
          assert (a + b)[q + 1] == b[q + 1 - |a|];
        }
      }
    }
  }

  /**
   * A keyword written right after a prefix that ends in a non-word character
   * and cannot start the keyword itself yields the stripped rest of the line.
   */
  lemma MessageAfter(prefix: string, kw: string, rest: string)
    requires |kw| >= 2 && IsWordChar(kw[0])
    requires prefix == [] || !IsWordChar(prefix[|prefix| - 1])
    requires NoKeywordStart(prefix, kw)
    requires rest != []
    ensures Message(prefix + kw + rest, kw) == Some(Strip(rest))
  {
    FirstMatchAfter(prefix, kw, rest);
    MessageIsStrippedTail(prefix + kw + rest, kw, |prefix|);
    TailAfter(prefix, kw, rest);
  }

  /** Under the same conditions the leftmost match is the written keyword. */
  lemma FirstMatchAfter(prefix: string, kw: string, rest: string)
    requires |kw| >= 2 && IsWordChar(kw[0])
    requires prefix == [] || !IsWordChar(prefix[|prefix| - 1])
    requires NoKeywordStart(prefix, kw)
    requires rest != []
    ensures FirstMatch(prefix + kw + rest, kw, 0) == Some(|prefix|)
  {
    NoMatchInPrefix(prefix, kw, rest);
    MatchAfterPrefix(prefix, kw, rest);
    FirstMatchIsLeftmost(prefix + kw + rest, kw, 0);
  }

  /** No match starts inside a prefix that cannot start the keyword. */
  lemma NoMatchInPrefix(prefix: string, kw: string, rest: string)
    requires |kw| >= 2
    requires NoKeywordStart(prefix, kw)
    ensures forall q | 0 <= q < |prefix| :: !MatchesAt(prefix + kw + rest, kw, q)
  {
    var line := prefix + kw + rest;
    forall q | 0 <= q < |prefix|
      ensures !MatchesAt(line, kw, q)
    {
      assert line[q] == prefix[q];
      if q + 1 < |prefix| {
        assert line[q + 1] == prefix[q + 1];
      }
    }
  }

  /** The keyword written after a prefix ending in a non-word character, and followed by text, matches. */
  lemma MatchAfterPrefix(prefix: string, kw: string, rest: string)
    requires |kw| >= 2 && IsWordChar(kw[0])
    requires prefix == [] || !IsWordChar(prefix[|prefix| - 1])
    requires rest != []
    ensures MatchesAt(prefix + kw + rest, kw, |prefix|)
  {
    var line := prefix + kw + rest;
    var p := |prefix|;
    assert forall i | 0 <= i < |kw| :: line[p + i] == kw[i];
    assert p > 0 ==> line[p - 1] == prefix[p - 1];
  }

  lemma TailAfter(prefix: string, kw: string, rest: string)
    ensures (prefix + kw + rest)[|prefix| + |kw|..] == rest
  {
  }

  /** A line lacking any character that matches some character of the keyword has no message. */
  lemma NoMessageWithout(line: string, kw: string, k: nat)
    requires k < |kw|
    requires forall i | 0 <= i < |line| :: !FoldsTo(line[i], kw[k])
    ensures Message(line, kw) == None
  {
    forall p | 0 <= p
      ensures !MatchesAt(line, kw, p)
    {
      if p + |kw| <= |line| {
        assert !FoldsTo(line[p + k], kw[k]);
      }
    }
    FirstMatchIsLeftmost(line, kw, 0);
  }

  /** `PATTERN.search` applied to every line, with the message of each match. */
  function Searched(lines: seq<string>, kw: string): (found: seq<Option<string>>)
    ensures |found| == |lines|
  {
    if lines == [] then [] else [Message(lines[0], kw)] + Searched(lines[1..], kw)
  }

  /** The messages of all matching lines, one per line, in line order. */
  function Messages(lines: seq<string>, kw: string): (ms: seq<string>)
  {
    Present(Searched(lines, kw))
  }

  /** The values present in `found`, in order: the `if m` filter of a list comprehension. */
  function Present<T>(found: seq<Option<T>>): (vs: seq<T>)
    ensures |vs| <= |found|
  {
    if found == [] then []
    else (if found[0].Some? then [found[0].value] else []) + Present(found[1..])
  }

  /** Number of `Some` entries. */
  function CountPresent<T>(found: seq<Option<T>>): (n: nat)
  {
    if found == [] then 0
    else (if found[0].Some? then 1 else 0) + CountPresent(found[1..])
  }

  lemma {:induction false} PresentAppend<T>(a: seq<Option<T>>, b: seq<Option<T>>)
    ensures Present(a + b) == Present(a) + Present(b)
  {
    if a != [] {
      assert (a + b)[1..] == a[1..] + b;
      PresentAppend(a[1..], b);
    } else {
      assert a + b == b;
    }
  }

  lemma {:induction false} PresentNone<T>(found: seq<Option<T>>)
    requires forall k | 0 <= k < |found| :: found[k].None?
    ensures Present(found) == []
  {
    if found != [] {
      PresentNone(found[1..]);
    }
  }

  lemma {:induction false} PresentCount<T>(found: seq<Option<T>>)
    ensures |Present(found)| == CountPresent(found)
  {
    if found != [] {
      PresentCount(found[1..]);
    }
  }

  lemma {:induction false} PresentNonEmpty<T>(found: seq<Option<T>>, k: nat)
    requires k < |found| && found[k].Some?
    ensures Present(found) != []
  {
    if k > 0 {
      PresentNonEmpty(found[1..], k - 1);
    }
  }

  /** One search result per line, in line order. */
  lemma {:induction false} SearchedAt(lines: seq<string>, kw: string, k: nat)
    requires k < |lines|
    ensures Searched(lines, kw)[k] == Message(lines[k], kw)
  {
    if k > 0 {
      SearchedAt(lines[1..], kw, k - 1);
    }
  }

  /** The search results of two blocks of lines are the two result lists joined. */
  lemma {:induction false} SearchedAppend(a: seq<string>, b: seq<string>, kw: string)
    ensures Searched(a + b, kw) == Searched(a, kw) + Searched(b, kw)
  {
    if a != [] {
      assert (a + b)[0] == a[0];
      assert (a + b)[1..] == a[1..] + b;
      SearchedAppend(a[1..], b, kw);
    } else {
      assert a + b == b;
    }
  }

  /** Order is kept and nothing is merged: the messages of two blocks of lines are the two lists joined. */
  lemma MessagesAppend(a: seq<string>, b: seq<string>, kw: string)
    ensures Messages(a + b, kw) == Messages(a, kw) + Messages(b, kw)
  {
    SearchedAppend(a, b, kw);
    PresentAppend(Searched(a, kw), Searched(b, kw));
  }

  /** Lines without a match contribute nothing. */
  lemma MessagesNone(lines: seq<string>, kw: string)
    requires forall k | 0 <= k < |lines| :: Message(lines[k], kw).None?
    ensures Messages(lines, kw) == []
  {
    forall k | 0 <= k < |lines|
      ensures Searched(lines, kw)[k].None?
    {
      SearchedAt(lines, kw, k);
    }
    PresentNone(Searched(lines, kw));
  }

  /** Number of lines on which the pattern matches. */
  function MatchingLines(lines: seq<string>, kw: string): (n: nat)
  {
    CountPresent(Searched(lines, kw))
  }

  /** Exactly one message per matching line. */
  lemma MessagesCount(lines: seq<string>, kw: string)
    ensures |Messages(lines, kw)| == MatchingLines(lines, kw)
  {
    PresentCount(Searched(lines, kw));
  }

  /** A line carrying a match always produces a message, so some message is reported. */
  lemma MessagesNonEmpty(lines: seq<string>, kw: string, k: nat)
    requires k < |lines| && Message(lines[k], kw).Some?
    ensures Messages(lines, kw) != []
  {
    SearchedAt(lines, kw, k);
    PresentNonEmpty(Searched(lines, kw), k);
  }
}
