/**
 * `LeanREPLTool._run`: turns the JSON reply of the run tool into the
 * REPL-style text shown to an agent.
 */
module ReplTool {
  import opened Wrappers
  import opened PyText

  /** One entry of the reply's `goals` list; `None` stands for a key that is missing or null. */
  datatype GoalEntry = GoalEntry(goal: Option<string>, context: Option<seq<string>>)

  /** The fields of the run tool's reply that the formatter reads; `None` for a missing or null key. */
  datatype RunResult = RunResult(
    success: Option<bool>,
    proofComplete: Option<bool>,
    errors: Option<seq<string>>,
    goals: Option<seq<GoalEntry>>)

  /** The run tool's reply: text that `json.loads` rejects, or the decoded object. */
  datatype RunReply = NotJson(raw: string) | Decoded(result: RunResult)

  const ErrorHeader := "ERROR LEAN:"
  const UnknownError := "Error desconocido"
  /** "EXITO: demostración completa (sin metas pendientes)." */
  const CompleteMessage := "EXITO: demostraci\U{F3}n completa (sin metas pendientes)."
  const IncompleteHeader := "DEMOSTRACION INCOMPLETA:"
  /** "Demostración compilada, pero Lean reportó estado no final." */
  const NotFinalMessage := "Demostraci\U{F3}n compilada, pero Lean report\U{F3} estado no final."
  const ContextIndent := "  "

  /** `result.get(key, False)` used as a condition: only a present `true` counts. */
  predicate IsSet(flag: Option<bool>) {
    flag == Some(true)
  }

  /** `value or []` for an optional list. */
  function OrEmpty<T>(xs: Option<seq<T>>): (r: seq<T>)
    ensures xs.Some? && xs.value != [] ==> r == xs.value
    ensures xs.None? ==> r == []
  {
    match xs
    case Some(v) => v
    case None => []
  }

  /** `result.get("errors") or ["Error desconocido"]`. */
  function ErrorList(errors: Option<seq<string>>): (es: seq<string>)
    ensures es != []
    ensures OrEmpty(errors) != [] ==> es == OrEmpty(errors)
    ensures OrEmpty(errors) == [] ==> es == [UnknownError]
  {
    var given := OrEmpty(errors);
    if given != [] then given else [UnknownError]
  }

  // ----- Decimal rendering of the goal number -----

  function DigitChar(d: nat): (c: char)
    requires d < 10
    ensures '0' <= c <= '9'
  {
    ('0' as int + d) as char
  }

  /** `str(n)` for a natural number. */
  function NatToString(n: nat): (s: string)
    ensures s != []
    ensures forall i | 0 <= i < |s| :: '0' <= s[i] <= '9'
    ensures s[0] == '0' ==> n == 0
  {
    if n < 10 then [DigitChar(n)] else NatToString(n / 10) + [DigitChar(n % 10)]
  }

  /** The value of a string of decimal digits: the reference reading of `NatToString`. */
  function DecimalValue(s: string): nat
    requires forall i | 0 <= i < |s| :: '0' <= s[i] <= '9'
  {
    if s == [] then 0 else 10 * DecimalValue(s[..|s| - 1]) + (s[|s| - 1] as int - '0' as int)
  }

  /** Reading the rendered number back gives the number. */
  lemma {:induction false} NatToStringRoundTrip(n: nat)
    ensures DecimalValue(NatToString(n)) == n
  {
    var s := NatToString(n);
    if n >= 10 {
      NatToStringRoundTrip(n / 10);
      assert s[..|s| - 1] == NatToString(n / 10);
    }
  }

  // ----- The listing of open goals -----

  /** `f"{goal.get('goal')}"`: a missing goal prints as `None`. */
  function GoalRepr(goal: Option<string>): string {
    match goal
    case Some(g) => g
    case None => "None"
  }

  /** `f"Goal {idx}: {goal.get('goal')}"`. */
  function GoalHeading(number: nat, entry: GoalEntry): string {
    "Goal " + NatToString(number) + ": " + GoalRepr(entry.goal)
  }

  function Indented(context: seq<string>): (r: seq<string>)
    ensures |r| == |context|
  {
    seq(|context|, i requires 0 <= i < |context| => ContextIndent + context[i])
  }

  /** Lines for the goal numbered `number`: its heading, then each context line indented. */
  function GoalBlock(number: nat, entry: GoalEntry): (block: seq<string>)
    ensures |block| == 1 + |OrEmpty(entry.context)|
  {
    [GoalHeading(number, entry)] + Indented(OrEmpty(entry.context))
  }

  /** Blocks of the first `n` goals, numbered from 1. */
  function Blocks(goals: seq<GoalEntry>, n: nat): seq<string>
    requires n <= |goals|
  {
    if n == 0 then [] else Blocks(goals, n - 1) + GoalBlock(n, goals[n - 1])
  }

  /** All the lines of the incomplete-proof reply. */
  function IncompleteLines(goals: seq<GoalEntry>): seq<string> {
    [IncompleteHeader] + Blocks(goals, |goals|)
  }

  /** Number of lines the first `n` goals take. */
  function LinesBefore(goals: seq<GoalEntry>, n: nat): nat
    requires n <= |goals|
  {
    if n == 0 then 0 else LinesBefore(goals, n - 1) + 1 + |OrEmpty(goals[n - 1].context)|
  }

  /**
   * Where each goal sits: the heading of goal `k` (counting from 0), numbered
   * `k + 1`, comes right after the lines of the goals before it, and its whole
   * block fits in the listing.
   */
  lemma HeadingAt(goals: seq<GoalEntry>, n: nat, k: nat)
    requires k < n <= |goals|
    ensures LinesBefore(goals, k) + 1 + |OrEmpty(goals[k].context)| <= |Blocks(goals, n)|
    ensures Blocks(goals, n)[LinesBefore(goals, k)] == GoalHeading(k + 1, goals[k])
  {
    GoalBlockLines(k + 1, goals[k]);
    BlockAt(goals, n, k, 0);
  }

  /** Context line `j` of goal `k` sits right below its heading and the `j` context lines before it. */
  lemma ContextLineAt(goals: seq<GoalEntry>, n: nat, k: nat, j: nat)
    requires k < n <= |goals| && j < |OrEmpty(goals[k].context)|
    ensures LinesBefore(goals, k) + 1 + j < |Blocks(goals, n)|
    ensures Blocks(goals, n)[LinesBefore(goals, k) + 1 + j] == ContextIndent + OrEmpty(goals[k].context)[j]
  {
    var i := 1 + j;
    GoalBlockLines(k + 1, goals[k]);
    BlockAt(goals, n, k, i);
    assert LinesBefore(goals, k) + 1 + j == LinesBefore(goals, k) + i;
  }

  /** A block is its heading followed by the indented context lines. */
  lemma GoalBlockLines(number: nat, entry: GoalEntry)
    ensures GoalBlock(number, entry)[0] == GoalHeading(number, entry)
    ensures forall j | 0 <= j < |OrEmpty(entry.context)| ::
              GoalBlock(number, entry)[1 + j] == ContextIndent + OrEmpty(entry.context)[j]
  {
  }

  /** Line `i` of goal `k`'s block is line `LinesBefore(goals, k) + i` of the listing. */
  lemma BlockAt(goals: seq<GoalEntry>, n: nat, k: nat, i: nat)
    requires k < n <= |goals| && i < |GoalBlock(k + 1, goals[k])|
    ensures LinesBefore(goals, k) + i < |Blocks(goals, n)|
    ensures LinesBefore(goals, k) + |GoalBlock(k + 1, goals[k])| <= |Blocks(goals, n)|
    ensures Blocks(goals, n)[LinesBefore(goals, k) + i] == GoalBlock(k + 1, goals[k])[i]
  {
    BlocksLength(goals, k);
    BlocksPrefix(goals, k + 1, n);
    var block := GoalBlock(k + 1, goals[k]);
    assert Blocks(goals, k + 1) == Blocks(goals, k) + block;
    assert Blocks(goals, k + 1)[LinesBefore(goals, k) + i] == block[i];
  }

  /** The listing of the first `m` goals is the start of the listing of the first `n`. */
  lemma {:induction false} BlocksPrefix(goals: seq<GoalEntry>, m: nat, n: nat)
    requires m <= n <= |goals|
    ensures Blocks(goals, m) <= Blocks(goals, n)
    decreases n
  {
    if m < n {
      BlocksPrefix(goals, m, n - 1);
    }
  }

  lemma {:induction false} BlocksLength(goals: seq<GoalEntry>, n: nat)
    requires n <= |goals|
    ensures |Blocks(goals, n)| == LinesBefore(goals, n)
  {
    if n > 0 {
      BlocksLength(goals, n - 1);
    }
  }

  /** The listing has its header, one heading per goal and one line per context entry. */
  lemma IncompleteLineCount(goals: seq<GoalEntry>)
    ensures |IncompleteLines(goals)| == 1 + LinesBefore(goals, |goals|)
    ensures |IncompleteLines(goals)| >= 1 + |goals|
  {
    BlocksLength(goals, |goals|);
    LinesBeforeAtLeast(goals, |goals|);
  }

  lemma {:induction false} LinesBeforeAtLeast(goals: seq<GoalEntry>, n: nat)
    requires n <= |goals|
    ensures LinesBefore(goals, n) >= n
  {
    if n > 0 {
      LinesBeforeAtLeast(goals, n - 1);
    }
  }

  /** No goal text and no context entry contains a line boundary. */
  predicate SingleLineEntry(entry: GoalEntry) {
    && NoLineBreak(GoalRepr(entry.goal))
    && forall j | 0 <= j < |OrEmpty(entry.context)| :: NoLineBreak(OrEmpty(entry.context)[j])
  }

  lemma DigitsHaveNoLineBreak(s: string)
    requires forall i | 0 <= i < |s| :: '0' <= s[i] <= '9'
    ensures NoLineBreak(s)
  {
  }

  /** Lines that are not empty and hold no line boundary. */
  predicate PlainLines(lines: seq<string>) {
    forall i | 0 <= i < |lines| :: lines[i] != [] && NoLineBreak(lines[i])
  }

  lemma PlainLinesAppend(a: seq<string>, b: seq<string>)
    requires PlainLines(a) && PlainLines(b)
    ensures PlainLines(a + b)
  {
    assert forall i | |a| <= i < |a + b| :: (a + b)[i] == b[i - |a|];
  }

  lemma IncompleteHeaderIsPlain()
    ensures PlainLines([IncompleteHeader])
  {
  }

  /** Plain lines joined with `"\n"` split back into themselves. */
  lemma PlainLinesSplit(lines: seq<string>)
    requires lines != [] && PlainLines(lines)
    ensures SplitLines(Join(lines, "\n")) == lines
  {
    SplitJoined(lines);
  }

  /** The heading and the indented context lines of a single-line entry are plain lines. */
  lemma GoalBlockIsPlain(number: nat, entry: GoalEntry)
    requires SingleLineEntry(entry)
    ensures PlainLines(GoalBlock(number, entry))
  {
    DigitsHaveNoLineBreak(NatToString(number));
    NoLineBreakAppend("Goal ", NatToString(number));
    NoLineBreakAppend("Goal " + NatToString(number), ": ");
    NoLineBreakAppend("Goal " + NatToString(number) + ": ", GoalRepr(entry.goal));
    var context := OrEmpty(entry.context);
    forall j | 0 <= j < |context|
      ensures NoLineBreak(ContextIndent + context[j])
    {
      NoLineBreakAppend(ContextIndent, context[j]);
    }
  }

  lemma {:induction false} BlockLinesArePlain(goals: seq<GoalEntry>, n: nat)
    requires n <= |goals|
    requires forall k | 0 <= k < |goals| :: SingleLineEntry(goals[k])
    ensures PlainLines(Blocks(goals, n))
  {
    if n > 0 {
      BlockLinesArePlain(goals, n - 1);
      GoalBlockIsPlain(n, goals[n - 1]);
      PlainLinesAppend(Blocks(goals, n - 1), GoalBlock(n, goals[n - 1]));
    }
  }

  /**
   * When goal texts and context entries are single lines, splitting the reply
   * into lines gives back exactly the header, the headings and the indented
   * context lines.
   */
  lemma IncompleteReplySplits(goals: seq<GoalEntry>)
    requires forall k | 0 <= k < |goals| :: SingleLineEntry(goals[k])
    ensures SplitLines(Join(IncompleteLines(goals), "\n")) == IncompleteLines(goals)
  {
    BlockLinesArePlain(goals, |goals|);
    IncompleteHeaderIsPlain();
    PlainLinesAppend([IncompleteHeader], Blocks(goals, |goals|));
    PlainLinesSplit(IncompleteLines(goals));
  }

  lemma HeaderIsOneLine()
    ensures NoLineBreak(ErrorHeader)
  {
  }

  /**
   * When the error texts are single lines and the last is not empty, the
   * lines of the error reply are the header followed by the errors in order.
   */
  lemma ErrorReplySplits(errors: Option<seq<string>>)
    requires forall k | 0 <= k < |OrEmpty(errors)| :: NoLineBreak(OrEmpty(errors)[k])
    requires OrEmpty(errors) != [] ==> OrEmpty(errors)[|OrEmpty(errors)| - 1] != []
    ensures SplitLines(ErrorHeader + "\n" + Join(ErrorList(errors), "\n")) == [ErrorHeader] + ErrorList(errors)
  {
    var es := ErrorList(errors);
    SplitJoined(es);
    HeaderIsOneLine();
    SplitLinesCons(ErrorHeader, Join(es, "\n"));
  }

  // ----- `_run` -----

  lemma IndentedSnoc(context: seq<string>, c: nat)
    requires c < |context|
    ensures Indented(context[..c + 1]) == Indented(context[..c]) + [ContextIndent + context[c]]
  {
  }

  /** Appends the heading of goal `number` and its indented context lines. */
  method AppendGoal(lines: seq<string>, number: nat, entry: GoalEntry) returns (out: seq<string>)
    ensures out == lines + GoalBlock(number, entry)
  {
    var heading := "Goal " + NatToString(number) + ": " + GoalRepr(entry.goal);
    var context := OrEmpty(entry.context);
    out := lines + [heading];
    for c := 0 to |context|
      invariant out == lines + [heading] + Indented(context[..c])
    {
      IndentedSnoc(context, c);
      out := out + [ContextIndent + context[c]];
    }
    assert context[..|context|] == context;
  }

  /** The goal listing: a header line, then each goal's heading and indented context, numbered from 1. */
  method FormatGoals(goals: seq<GoalEntry>) returns (text: string)
    ensures text == Join(IncompleteLines(goals), "\n")
  {
    var lines := [IncompleteHeader];
    for idx := 0 to |goals|
      invariant lines == [IncompleteHeader] + Blocks(goals, idx)
    {
      lines := AppendGoal(lines, idx + 1, goals[idx]);
    }
    return Join(lines, "\n");
  }

  /**
   * The reply text: the raw reply when it is not JSON; the errors (or a
   * placeholder) when the run failed; a success line when the proof is
   * complete; the goal listing when goals remain; otherwise a note that the
   * proof compiled without reaching a final state.
   */
  method FormatReply(reply: RunReply) returns (text: string)
    ensures reply.NotJson? ==> text == reply.raw
    ensures reply.Decoded? && !IsSet(reply.result.success) ==>
              text == ErrorHeader + "\n" + Join(ErrorList(reply.result.errors), "\n")
    ensures reply.Decoded? && IsSet(reply.result.success) && IsSet(reply.result.proofComplete) ==>
              text == CompleteMessage
    ensures reply.Decoded? && IsSet(reply.result.success) && !IsSet(reply.result.proofComplete) ==>
              if OrEmpty(reply.result.goals) != [] then text == Join(IncompleteLines(OrEmpty(reply.result.goals)), "\n")
              else text == NotFinalMessage
  {
    if reply.NotJson? {
      return reply.raw;
    }
    var result := reply.result;
    if !IsSet(result.success) {
      var errors := ErrorList(result.errors);
      return ErrorHeader + "\n" + Join(errors, "\n");
    }
    if IsSet(result.proofComplete) {
      return CompleteMessage;
    }
    var goals := OrEmpty(result.goals);
    if goals != [] {
      text := FormatGoals(goals);
      return;
    }
    return NotFinalMessage;
  }
}
