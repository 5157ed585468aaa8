/**
 * `parse_lean_output` and `_extract_goals`: from the text printed by `lean`
 * (or `lake env lean`) and its exit code to a structured verification result.
 */
module Parser {
  import opened Wrappers
  import opened PyText
  import opened LeanMarkers

  /** The goal marker U+22A2 that Lean prints in front of each open goal. */
  const Turnstile: char := '\U{22A2}'

  /** Goal text used when nothing follows the marker: "(meta vacía)". */
  const EmptyGoal: string := "(meta vac\U{ED}a)"

  const InfoPrefix := "info:"
  const SorryKeyword := "sorry"

  /** One open goal: the hypotheses printed above it, top to bottom, and the goal statement. */
  datatype LeanGoal = LeanGoal(context: seq<string>, goal: string)

  /** The structured result handed to the tools. */
  datatype ParsedLeanOutput = ParsedLeanOutput(
    success: bool,
    proofComplete: bool,
    hasSorry: bool,
    errors: seq<string>,
    warnings: seq<string>,
    goals: seq<LeanGoal>,
    rawOutput: string)

  /** `list.reverse()`, as a value. */
  function Reverse<T>(s: seq<T>): (r: seq<T>)
    ensures |r| == |s|
  {
    seq(|s|, i requires 0 <= i < |s| => s[|s| - 1 - i])
  }

  lemma ReverseReverse<T>(s: seq<T>)
    ensures Reverse(Reverse(s)) == s
  {
  }

  /** Collecting line `j` extends the reversed context by one entry. */
  lemma PushContext(lines: seq<string>, j: nat, e: nat, context: seq<string>)
    requires j < e <= |lines|
    requires context == Reverse(StripAll(lines[j + 1..e]))
    ensures context + [Strip(lines[j])] == Reverse(StripAll(lines[j..e]))
  {
  }

  /** Each line stripped. */
  function StripAll(lines: seq<string>): (r: seq<string>)
    ensures |r| == |lines|
  {
    seq(|lines|, k requires 0 <= k < |lines| => Strip(lines[k]))
  }

  // ----- Goal lines and goal text -----

  predicate HasGoalMarker(line: string) {
    Turnstile in line
  }

  /** The stripped text after the first marker on the line, or the placeholder when that is empty. */
  function GoalText(line: string): (g: string)
    requires HasGoalMarker(line)
    ensures g != []
  {
    var t := Strip(line[Find(line, Turnstile) + 1..]);
    if t != [] then t else EmptyGoal
  }

  /** The goal text is what follows the FIRST marker on its line, stripped, and the placeholder only when that is empty. */
  lemma GoalTextAfterFirstMarker(line: string, k: nat)
    requires k < |line| && line[k] == Turnstile && Turnstile !in line[..k]
    ensures Strip(line[k + 1..]) != [] ==> GoalText(line) == Strip(line[k + 1..])
    ensures Strip(line[k + 1..]) == [] ==> GoalText(line) == EmptyGoal
  {
    FindFirst(line, Turnstile, k);
  }

  // ----- The context of a goal: the backward walk, stated declaratively -----

  /** `not line.strip()`: the line is whitespace only (`StripEmpty` relates the two). */
  predicate IsBlank(line: string) {
    AllSpace(line)
  }

  /** A stripped line at which the backward walk stops: an error or warning marker (any case), or an `info:` line. */
  predicate IsBoundary(candidate: string) {
    || Contains(Lower(candidate), ErrorKeyword)
    || Contains(Lower(candidate), WarningKeyword)
    || StartsWith(candidate, InfoPrefix)
  }

  /** A line that the walk collects into the context. */
  predicate IsContextLine(line: string) {
    !IsBlank(line) && !IsBoundary(Strip(line))
  }

  /** Start of the run of blank lines that ends just before index `i` (see `BlankRunStartSpec`). */
  function BlankRunStart(lines: seq<string>, i: nat): (e: nat)
    requires i <= |lines|
    ensures e <= i
  {
    if i > 0 && IsBlank(lines[i - 1]) then BlankRunStart(lines, i - 1) else i
  }

  /** Every line of the run is blank and the line above it is not. */
  lemma {:induction false} BlankRunStartSpec(lines: seq<string>, i: nat)
    requires i <= |lines|
    ensures forall k | BlankRunStart(lines, i) <= k < i :: IsBlank(lines[k])
    ensures BlankRunStart(lines, i) > 0 ==> !IsBlank(lines[BlankRunStart(lines, i) - 1])
  {
    if i > 0 && IsBlank(lines[i - 1]) {
      BlankRunStartSpec(lines, i - 1);
    }
  }

  /** Start of the run of context lines that ends just before index `e` (see `ContextRunStartSpec`). */
  function ContextRunStart(lines: seq<string>, e: nat): (s: nat)
    requires e <= |lines|
    ensures s <= e
  {
    if e > 0 && IsContextLine(lines[e - 1]) then ContextRunStart(lines, e - 1) else e
  }

  /** Every line of the run is a context line and the line above it is not. */
  lemma {:induction false} ContextRunStartSpec(lines: seq<string>, e: nat)
    requires e <= |lines|
    ensures forall k | ContextRunStart(lines, e) <= k < e :: IsContextLine(lines[k])
    ensures ContextRunStart(lines, e) > 0 ==> !IsContextLine(lines[ContextRunStart(lines, e) - 1])
  {
    if e > 0 && IsContextLine(lines[e - 1]) {
      ContextRunStartSpec(lines, e - 1);
    }
  }

  /** First line of the context of the goal on line `idx`. */
  function ContextStart(lines: seq<string>, idx: nat): nat
    requires idx <= |lines|
  {
    ContextRunStart(lines, BlankRunStart(lines, idx))
  }

  /**
   * The context of the goal on line `idx`: skip the blank lines right above
   * it, then take the run of non-blank lines that are not boundaries, stripped,
   * top to bottom.
   */
  function Context(lines: seq<string>, idx: nat): seq<string>
    requires idx <= |lines|
  {
    StripAll(lines[ContextStart(lines, idx)..BlankRunStart(lines, idx)])
  }

  function GoalAt(lines: seq<string>, idx: nat): LeanGoal
    requires idx < |lines| && HasGoalMarker(lines[idx])
  {
    LeanGoal(Context(lines, idx), GoalText(lines[idx]))
  }

  /** Indices, in increasing order, of the lines before `n` that carry a goal marker. */
  function GoalLines(lines: seq<string>, n: nat): (ix: seq<nat>)
    requires n <= |lines|
    ensures forall k | 0 <= k < |ix| :: ix[k] < n && HasGoalMarker(lines[ix[k]])
  {
    if n == 0 then [] else GoalLines(lines, n - 1) + (if HasGoalMarker(lines[n - 1]) then [n - 1] else [])
  }

  /** The marker lines are listed in increasing order, and every marker line below `n` is listed. */
  lemma {:induction false} GoalLinesSpec(lines: seq<string>, n: nat)
    requires n <= |lines|
    ensures forall k, k' | 0 <= k < k' < |GoalLines(lines, n)| :: GoalLines(lines, n)[k] < GoalLines(lines, n)[k']
    ensures forall i | 0 <= i < n && HasGoalMarker(lines[i]) :: i in GoalLines(lines, n)
  {
    if n > 0 {
      GoalLinesSpec(lines, n - 1);
    }
  }

  function GoalsAt(lines: seq<string>, ix: seq<nat>): (goals: seq<LeanGoal>)
    requires forall k | 0 <= k < |ix| :: ix[k] < |lines| && HasGoalMarker(lines[ix[k]])
    ensures |goals| == |ix|
  {
    seq(|ix|, k requires 0 <= k < |ix| => GoalAt(lines, ix[k]))
  }

  /** One goal per marker line, in line order. */
  function Goals(lines: seq<string>): seq<LeanGoal>
  {
    GoalsAt(lines, GoalLines(lines, |lines|))
  }

  /** Scanning one more line adds its goal, when it has one, at the end. */
  lemma GoalsStep(lines: seq<string>, idx: nat)
    requires idx < |lines| && HasGoalMarker(lines[idx])
    ensures GoalsAt(lines, GoalLines(lines, idx + 1)) == GoalsAt(lines, GoalLines(lines, idx)) + [GoalAt(lines, idx)]
  {
    var ix := GoalLines(lines, idx);
    assert GoalLines(lines, idx + 1) == ix + [idx];
  }

  // ----- `_extract_goals` -----

  /**
   * The backward walk from the line above `idx`: blank lines before the first
   * collected entry are skipped, a blank line after it ends the walk, and so
   * does a boundary; the entries are collected bottom-up and then reversed.
   */
  method CollectContext(lines: seq<string>, idx: nat) returns (context: seq<string>)
    requires idx < |lines|
    ensures context == Context(lines, idx)
  {
    ghost var e := BlankRunStart(lines, idx);
    ghost var s := ContextRunStart(lines, e);
    context := [];
    var j := idx - 1;
    while j >= 0
      invariant -1 <= j < idx
      invariant context == [] ==> e <= j + 1 && BlankRunStart(lines, j + 1) == e
      invariant context != [] ==>
                  s <= j + 1 < e && ContextRunStart(lines, j + 1) == s
                  && context == Reverse(StripAll(lines[j + 1..e]))
      decreases j
    {
      var candidate := Strip(lines[j]);
      StripEmpty(lines[j]);
      if candidate == [] {
        if context != [] {
          break;
        }
        j := j - 1;
        continue;
      }
      if Contains(Lower(candidate), ErrorKeyword) || Contains(Lower(candidate), WarningKeyword) {
        break;
      }
      if StartsWith(candidate, InfoPrefix) {
        break;
      }
      PushContext(lines, j, e, context);
      context := context + [candidate];
      j := j - 1;
    }
    assert context == Reverse(StripAll(lines[s..e]));
    ReverseReverse(StripAll(lines[s..e]));
    context := Reverse(context);
  }

  /**
   * For each line holding the marker, the goal text after it and the context
   * collected by walking backwards from the line above.
   */
  method ExtractGoals(lines: seq<string>) returns (goals: seq<LeanGoal>)
    ensures goals == Goals(lines)
  {
    goals := [];
    for idx := 0 to |lines|
      invariant goals == GoalsAt(lines, GoalLines(lines, idx))
    {
      var marker := Find(lines[idx], Turnstile);
      if marker < 0 {
        assert GoalLines(lines, idx + 1) == GoalLines(lines, idx);
        continue;
      }
      var goal := GoalOfLine(lines, idx, marker);
      GoalsStep(lines, idx);
      goals := goals + [goal];
    }
  }

  /** The goal of a marker line: the text after the marker and the context above it. */
  method GoalOfLine(lines: seq<string>, idx: nat, marker: int) returns (goal: LeanGoal)
    requires idx < |lines| && marker == Find(lines[idx], Turnstile) && marker >= 0
    ensures HasGoalMarker(lines[idx]) && goal == GoalAt(lines, idx)
  {
    var goalText := GoalTextAt(lines[idx], marker);
    var context := CollectContext(lines, idx);
    goal := LeanGoal(context, goalText);
  }

  /** The stripped text after the marker at `marker`, or the placeholder when that is empty. */
  method GoalTextAt(line: string, marker: int) returns (text: string)
    requires marker == Find(line, Turnstile) && marker >= 0
    ensures HasGoalMarker(line) && text == GoalText(line)
  {
    text := Strip(line[marker + 1..]);
    if text == [] {
      text := EmptyGoal;
    }
  }

  // ----- Facts about the goal specification -----

  /** Number of marker lines among the first `n`. */
  function MarkedLines(lines: seq<string>, n: nat): nat
    requires n <= |lines|
  {
    if n == 0 then 0 else MarkedLines(lines, n - 1) + (if HasGoalMarker(lines[n - 1]) then 1 else 0)
  }

  /** There are exactly as many goals as lines holding the marker. */
  lemma {:induction false} GoalCount(lines: seq<string>, n: nat)
    requires n <= |lines|
    ensures |GoalLines(lines, n)| == MarkedLines(lines, n)
  {
    if n > 0 {
      GoalCount(lines, n - 1);
    }
  }

  /**
   * Entry `k` of a context is line `ContextStart + k` stripped: it is not blank
   * and not a boundary, the entries are consecutive lines in their original
   * order, and only blank lines separate the last entry from the goal line.
   */
  lemma ContextEntries(lines: seq<string>, idx: nat, k: nat)
    requires idx <= |lines| && k < |Context(lines, idx)|
    ensures ContextStart(lines, idx) + |Context(lines, idx)| <= idx
    ensures Context(lines, idx)[k] == Strip(lines[ContextStart(lines, idx) + k])
    ensures Context(lines, idx)[k] != [] && !IsBoundary(Context(lines, idx)[k])
    ensures forall i | ContextStart(lines, idx) + |Context(lines, idx)| <= i < idx :: IsBlank(lines[i])
  {
    BlankRunStartSpec(lines, idx);
    ContextLength(lines, idx);
    ContextEntryAt(lines, idx, k);
    ContextRunLine(lines, idx, k);
    StripEmpty(lines[ContextStart(lines, idx) + k]);
  }

  lemma ContextLength(lines: seq<string>, idx: nat)
    requires idx <= |lines|
    ensures |Context(lines, idx)| == BlankRunStart(lines, idx) - ContextStart(lines, idx)
  {
  }

  lemma ContextEntryAt(lines: seq<string>, idx: nat, k: nat)
    requires idx <= |lines| && k < |Context(lines, idx)|
    ensures Context(lines, idx)[k] == Strip(lines[ContextStart(lines, idx) + k])
  {
    var run := lines[ContextStart(lines, idx)..BlankRunStart(lines, idx)];
    assert run[k] == lines[ContextStart(lines, idx) + k];
  }

  lemma ContextRunLine(lines: seq<string>, idx: nat, k: nat)
    requires idx <= |lines| && k < BlankRunStart(lines, idx) - ContextStart(lines, idx)
    ensures IsContextLine(lines[ContextStart(lines, idx) + k])
  {
    ContextRunStartSpec(lines, BlankRunStart(lines, idx));
  }

  /** The walk never passes a line that contains an error or warning marker or starts with `info:`. */
  lemma ContextFencedByBoundary(lines: seq<string>, idx: nat, b: nat)
    requires b < idx <= |lines|
    requires !IsBlank(lines[b]) && IsBoundary(Strip(lines[b]))
    ensures b < ContextStart(lines, idx)
  {
    var e := BlankRunStart(lines, idx);
    BlankRunStartSpec(lines, idx);
    ContextRunStartSpec(lines, e);
    assert b < e;
  }

  /** Once a context entry has been collected, a blank line above it ends the walk. */
  lemma ContextFencedByBlank(lines: seq<string>, idx: nat, b: nat, k: nat)
    requires b < k < idx <= |lines|
    requires IsBlank(lines[b]) && !IsBlank(lines[k])
    ensures b < ContextStart(lines, idx)
  {
    var e := BlankRunStart(lines, idx);
    BlankRunStartSpec(lines, idx);
    ContextRunStartSpec(lines, e);
    assert k < e;
    assert !IsContextLine(lines[b]);
  }

  // ----- `parse_lean_output` -----

  /** `raw_output or ""`. */
  function TextOf(rawOutput: Option<string>): string {
    match rawOutput
    case Some(text) => text
    case None => ""
  }

  /**
   * Errors and warnings are the messages of the matching lines; a failing exit
   * code with no error line reports the whole stripped output as the one
   * error, unless that is empty.
   */
  function ParseLeanOutput(rawOutput: Option<string>, exitCode: int): (r: ParsedLeanOutput)
    ensures r.rawOutput == TextOf(rawOutput)
    ensures r.success <==> exitCode == 0 && Messages(SplitLines(r.rawOutput), ErrorKeyword) == []
    ensures r.success ==> r.errors == []
    ensures !r.success ==> r.errors != [] || (exitCode != 0 && AllSpace(r.rawOutput))
    ensures r.proofComplete <==> r.success && r.goals == [] && !r.hasSorry
    ensures Messages(SplitLines(r.rawOutput), ErrorKeyword) != [] ==> r.errors == Messages(SplitLines(r.rawOutput), ErrorKeyword)
    ensures r.warnings == Messages(SplitLines(r.rawOutput), WarningKeyword)
    ensures r.goals == Goals(SplitLines(r.rawOutput))
    ensures r.hasSorry <==> Contains(Lower(r.rawOutput), SorryKeyword)
  {
    var text := TextOf(rawOutput);
    var lines := SplitLines(text);
    var markerErrors := Messages(lines, ErrorKeyword);
    var goals := Goals(lines);
    var hasSorry := Contains(Lower(text), SorryKeyword);
    var fallback := Strip(text);
    var errors := if exitCode != 0 && markerErrors == [] && fallback != [] then [fallback] else markerErrors;
    StripEmpty(text);
    var success := exitCode == 0 && errors == [];
    ParsedLeanOutput(success, success && goals == [] && !hasSorry, hasSorry, errors,
                     Messages(lines, WarningKeyword), goals, text)
  }

  /**
   * With a failing exit code and no error line, the errors are the whole
   * output stripped, or nothing when the output is only whitespace.
   */
  lemma FallbackError(rawOutput: Option<string>, exitCode: int)
    requires exitCode != 0
    requires Messages(SplitLines(TextOf(rawOutput)), ErrorKeyword) == []
    ensures !ParseLeanOutput(rawOutput, exitCode).success
    ensures AllSpace(TextOf(rawOutput)) ==> ParseLeanOutput(rawOutput, exitCode).errors == []
    ensures !AllSpace(TextOf(rawOutput)) ==>
              ParseLeanOutput(rawOutput, exitCode).errors == [Strip(TextOf(rawOutput))]
              && Strip(TextOf(rawOutput)) != []
  {
    StripEmpty(TextOf(rawOutput));
  }

  /** A missing output and an empty one parse alike. */
  lemma MissingOutputIsEmpty(exitCode: int)
    ensures ParseLeanOutput(None, exitCode) == ParseLeanOutput(Some(""), exitCode)
  {
  }
}
