/**
 * The parser examples of the project's test suite, with their output texts
 * assembled from short pieces.
 */
module ParserExamples {
  import opened Wrappers
  import opened PyText
  import opened LeanMarkers
  import opened Parser

  /** Empty output with exit code 0: a complete proof with nothing to report. */
  lemma EmptyOutputIsComplete()
    ensures ParseLeanOutput(Some(""), 0).success
    ensures ParseLeanOutput(Some(""), 0).proofComplete
    ensures ParseLeanOutput(Some(""), 0).errors == []
    ensures ParseLeanOutput(Some(""), 0).goals == []
  {
  }

  // ----- Diagnostic lines `check.lean:<line>:<column>: error: <message>` -----

  const SourceFile := "check.lean"

  /** The file name never starts `error:`: its one `e` is not followed by `r`. */
  lemma SourceFileCannotMatch()
    ensures NoKeywordStart(SourceFile, ErrorKeyword)
    ensures NoLineBreak(SourceFile)
  {
  }

  /** `" " + message` strips to `message` when `message` has no whitespace at its ends. */
  lemma StripAfterSpace(message: string)
    requires message != [] && !IsSpace(message[0]) && !IsSpace(message[|message| - 1])
    ensures Strip(" " + message) == message
  {
    assert " " + message + "" == " " + message;
    StripUnique(" ", message, "");
  }

  /** The message of a diagnostic line is the text after `error: `. */
  lemma DiagnosticLineMessage(position: string, message: string)
    requires position != [] && !IsWordChar(position[|position| - 1])
    requires forall q | 0 <= q < |position| :: !FoldsTo(position[q], ErrorKeyword[0])
    requires message != [] && !IsSpace(message[0]) && !IsSpace(message[|message| - 1])
    ensures Message(SourceFile + position + ErrorKeyword + (" " + message), ErrorKeyword) == Some(message)
  {
    var prefix := SourceFile + position;
    SourceFileCannotMatch();
    NoKeywordStartWithout(position, ErrorKeyword);
    NoKeywordStartAppend(SourceFile, position, ErrorKeyword);
    assert prefix[|prefix| - 1] == position[|position| - 1];
    StripAfterSpace(message);
    MessageAfter(prefix, ErrorKeyword, " " + message);
  }

  /** A diagnostic line is a single line when its position and message are. */
  lemma DiagnosticLineIsOneLine(position: string, message: string)
    requires NoLineBreak(position) && NoLineBreak(message)
    ensures NoLineBreak(SourceFile + position + ErrorKeyword + (" " + message))
  {
    SourceFileCannotMatch();
    assert NoLineBreak(ErrorKeyword) && NoLineBreak(" ");
    NoLineBreakAppend(SourceFile, position);
    NoLineBreakAppend(SourceFile + position, ErrorKeyword);
    NoLineBreakAppend(" ", message);
    NoLineBreakAppend(SourceFile + position + ErrorKeyword, " " + message);
  }

  // ----- A syntax error: `check.lean:1:10: error: expected token` -----

  const SyntaxPosition := ":1:10: "
  const SyntaxMessage := "expected token"

  function SyntaxLine(): string {
    SourceFile + SyntaxPosition + ErrorKeyword + (" " + SyntaxMessage)
  }

  lemma SyntaxLineMessage()
    ensures Message(SyntaxLine(), ErrorKeyword) == Some(SyntaxMessage)
  {
    DiagnosticLineMessage(SyntaxPosition, SyntaxMessage);
  }

  lemma SyntaxLineIsOneLine()
    ensures NoLineBreak(SyntaxLine())
  {
    DiagnosticLineIsOneLine(SyntaxPosition, SyntaxMessage);
  }

  /** The output is that one line: the run fails and its one error is the text after `error:`. */
  lemma SyntaxErrorIsReported()
    ensures !ParseLeanOutput(Some(SyntaxLine() + "\n"), 1).success
    ensures !ParseLeanOutput(Some(SyntaxLine() + "\n"), 1).proofComplete
    ensures ParseLeanOutput(Some(SyntaxLine() + "\n"), 1).errors == [SyntaxMessage]
  {
    SyntaxLineIsOneLine();
    SplitLinesCons(SyntaxLine(), "");
    assert SyntaxLine() + "\n" + "" == SyntaxLine() + "\n";
    SyntaxLineMessage();
    assert Messages([SyntaxLine()], ErrorKeyword) == [SyntaxMessage];
  }

  // ----- Unsolved goals after an induction step -----

  const EndPosition := ":4:16: "
  const EndMessage := "unexpected end of input; " + "expected '?', '_' or '{'"
  const UnsolvedPosition := ":4:14: "
  const UnsolvedMessage := "unsolved goals"
  const CaseLine := "case succ"
  const NatLine := "n : Nat"
  const HypLine := "ih : n + 0 = n"
  const GoalStatement := "n + 1 + 0 = n + 1"

  function EndLine(): string {
    SourceFile + EndPosition + ErrorKeyword + (" " + EndMessage)
  }

  function UnsolvedLine(): string {
    SourceFile + UnsolvedPosition + ErrorKeyword + (" " + UnsolvedMessage)
  }

  function GoalLine(): string {
    [Turnstile] + (" " + GoalStatement)
  }

  function UnsolvedOutput(): seq<string> {
    [EndLine(), UnsolvedLine()] + [CaseLine, NatLine, HypLine, GoalLine()]
  }

  lemma EndLineIsOneLine()
    ensures NoLineBreak(EndLine())
  {
    DiagnosticLineIsOneLine(EndPosition, EndMessage);
  }

  lemma UnsolvedLineIsOneLine()
    ensures NoLineBreak(UnsolvedLine())
  {
    DiagnosticLineIsOneLine(UnsolvedPosition, UnsolvedMessage);
  }

  lemma GoalLineIsOneLine()
    ensures NoLineBreak(GoalLine())
  {
    assert NoLineBreak([Turnstile]) && NoLineBreak(" " + GoalStatement);
    NoLineBreakAppend([Turnstile], " " + GoalStatement);
  }

  lemma UnsolvedOutputLines()
    ensures SplitLines(Terminated(UnsolvedOutput())) == UnsolvedOutput()
  {
    EndLineIsOneLine();
    UnsolvedLineIsOneLine();
    GoalLineIsOneLine();
    assert NoLineBreak(CaseLine) && NoLineBreak(NatLine) && NoLineBreak(HypLine);
    SplitTerminated(UnsolvedOutput());
  }

  lemma EndLineMessage()
    ensures Message(EndLine(), ErrorKeyword) == Some(EndMessage)
  {
    DiagnosticLineMessage(EndPosition, EndMessage);
  }

  lemma UnsolvedLineMessage()
    ensures Message(UnsolvedLine(), ErrorKeyword) == Some(UnsolvedMessage)
  {
    DiagnosticLineMessage(UnsolvedPosition, UnsolvedMessage);
  }

  lemma CaseLineHasNoError()
    ensures Message(CaseLine, ErrorKeyword) == None
  {
    NoMessageWithout(CaseLine, ErrorKeyword, 5);
  }

  lemma NatLineHasNoError()
    ensures Message(NatLine, ErrorKeyword) == None
  {
    NoMessageWithout(NatLine, ErrorKeyword, 0);
  }

  lemma HypLineHasNoError()
    ensures Message(HypLine, ErrorKeyword) == None
  {
    NoMessageWithout(HypLine, ErrorKeyword, 0);
  }

  lemma GoalLineHasNoError()
    ensures Message(GoalLine(), ErrorKeyword) == None
  {
    assert ':' !in GoalStatement;
    assert ':' !in GoalLine();
    NoMessageWithout(GoalLine(), ErrorKeyword, 5);
  }

  lemma SearchedPair(l0: string, l1: string, kw: string)
    ensures Searched([l0, l1], kw) == [Message(l0, kw), Message(l1, kw)]
  {
    assert [l1][1..] == [];
    assert [l0, l1][1..] == [l1];
  }

  lemma PresentPair(m0: string, m1: string)
    ensures Present([Some(m0), Some(m1)]) == [m0, m1]
  {
    assert [Some(m0), Some(m1)][1..] == [Some(m1)];
    assert [Some(m1)][1..] == [];
  }

  lemma TwoMessages(l0: string, l1: string, kw: string, m0: string, m1: string)
    requires Message(l0, kw) == Some(m0) && Message(l1, kw) == Some(m1)
    ensures Messages([l0, l1], kw) == [m0, m1]
  {
    SearchedPair(l0, l1, kw);
    PresentPair(m0, m1);
  }

  lemma NoMessages(l2: string, l3: string, l4: string, l5: string, kw: string)
    requires Message(l2, kw).None? && Message(l3, kw).None? && Message(l4, kw).None? && Message(l5, kw).None?
    ensures Messages([l2, l3, l4, l5], kw) == []
  {
    MessagesNone([l2, l3, l4, l5], kw);
  }

  /** Six lines of which only the first two match. */
  lemma TwoMessagesOfSix(l0: string, l1: string, l2: string, l3: string, l4: string, l5: string,
                         kw: string, m0: string, m1: string)
    requires Message(l0, kw) == Some(m0) && Message(l1, kw) == Some(m1)
    requires Message(l2, kw).None? && Message(l3, kw).None? && Message(l4, kw).None? && Message(l5, kw).None?
    ensures Messages([l0, l1] + [l2, l3, l4, l5], kw) == [m0, m1]
  {
    TwoMessages(l0, l1, kw, m0, m1);
    NoMessages(l2, l3, l4, l5, kw);
    MessagesAppend([l0, l1], [l2, l3, l4, l5], kw);
  }

  lemma UnsolvedErrors()
    ensures Messages(UnsolvedOutput(), ErrorKeyword) == [EndMessage, UnsolvedMessage]
  {
    EndLineMessage();
    UnsolvedLineMessage();
    CaseLineHasNoError();
    NatLineHasNoError();
    HypLineHasNoError();
    GoalLineHasNoError();
    TwoMessagesOfSix(EndLine(), UnsolvedLine(), CaseLine, NatLine, HypLine, GoalLine(),
                     ErrorKeyword, EndMessage, UnsolvedMessage);
  }

  // Goals and context of the same output.

  lemma NoGoalLinesBefore(lines: seq<string>, n: nat)
    requires n <= |lines|
    requires forall k | 0 <= k < n :: !HasGoalMarker(lines[k])
    ensures GoalLines(lines, n) == []
  {
  }

  /** Only the last line carries the marker: one goal, read at that line. */
  lemma OnlyLastLineIsGoal(lines: seq<string>)
    requires lines != [] && HasGoalMarker(lines[|lines| - 1])
    requires forall k | 0 <= k < |lines| - 1 :: !HasGoalMarker(lines[k])
    ensures Goals(lines) == [GoalAt(lines, |lines| - 1)]
  {
    NoGoalLinesBefore(lines, |lines| - 1);
    assert GoalLines(lines, |lines|) == [|lines| - 1];
  }

  /** A context run `lines[s..idx]` bounded by a non-context line above and with no blank line before the goal. */
  lemma ContextIsRun(lines: seq<string>, s: nat, idx: nat)
    requires 0 < s < idx <= |lines|
    requires forall k | s <= k < idx :: IsContextLine(lines[k])
    requires !IsContextLine(lines[s - 1])
    ensures Context(lines, idx) == StripAll(lines[s..idx])
  {
    assert BlankRunStart(lines, idx) == idx;
    ContextRunFrom(lines, s, idx);
  }

  lemma {:induction false} ContextRunFrom(lines: seq<string>, s: nat, e: nat)
    requires 0 < s <= e <= |lines|
    requires forall k | s <= k < e :: IsContextLine(lines[k])
    requires !IsContextLine(lines[s - 1])
    ensures ContextRunStart(lines, e) == s
  {
    if s < e {
      ContextRunFrom(lines, s, e - 1);
    }
  }

  lemma Unchanged(line: string)
    requires line != [] && !IsSpace(line[0]) && !IsSpace(line[|line| - 1])
    ensures Strip(line) == line
  {
    assert [] + line + [] == line;
    StripUnique([], line, []);
  }

  lemma CaseLineIsContext()
    ensures IsContextLine(CaseLine) && Strip(CaseLine) == CaseLine
  {
    Unchanged(CaseLine);
    NotContainedInLowerPunct(CaseLine, ErrorKeyword, 5);
    NotContainedInLowerPunct(CaseLine, WarningKeyword, 7);
    NotStartsWith(CaseLine, InfoPrefix, 0);
  }

  lemma NatLineIsContext()
    ensures IsContextLine(NatLine) && Strip(NatLine) == NatLine
  {
    Unchanged(NatLine);
    NotContainedInLower(NatLine, ErrorKeyword, 0);
    NotContainedInLower(NatLine, WarningKeyword, 0);
    NotStartsWith(NatLine, InfoPrefix, 0);
  }

  lemma HypLineIsNotBoundary()
    ensures !Contains(Lower(HypLine), ErrorKeyword) && !Contains(Lower(HypLine), WarningKeyword)
  {
    NotContainedInLower(HypLine, ErrorKeyword, 0);
    NotContainedInLower(HypLine, WarningKeyword, 0);
  }

  lemma HypLineIsContext()
    ensures IsContextLine(HypLine) && Strip(HypLine) == HypLine
  {
    Unchanged(HypLine);
    HypLineIsNotBoundary();
    NotStartsWith(HypLine, InfoPrefix, 1);
  }

  lemma UnsolvedLineIsBoundary()
    ensures !IsContextLine(UnsolvedLine())
  {
    var prefix := SourceFile + UnsolvedPosition;
    var rest := " " + UnsolvedMessage;
    Unchanged(UnsolvedLine());
    LowerAppend(prefix, ErrorKeyword);
    LowerAppend(prefix + ErrorKeyword, rest);
    assert Lower(ErrorKeyword) == ErrorKeyword;
    ContainsMiddle(Lower(prefix), ErrorKeyword, Lower(rest));
  }

  lemma GoalLineText()
    ensures HasGoalMarker(GoalLine())
    ensures GoalText(GoalLine()) == GoalStatement
  {
    var line := GoalLine();
    assert line[0] == Turnstile && line[..0] == [];
    assert line[1..] == " " + GoalStatement;
    assert " " + GoalStatement + "" == " " + GoalStatement;
    StripUnique(" ", GoalStatement, "");
    GoalTextAfterFirstMarker(line, 0);
  }

  lemma NoMarkerAbove()
    ensures !HasGoalMarker(EndLine()) && !HasGoalMarker(UnsolvedLine())
    ensures !HasGoalMarker(CaseLine) && !HasGoalMarker(NatLine) && !HasGoalMarker(HypLine)
  {
  }

  lemma StripAllThree(a: string, b: string, c: string)
    ensures StripAll([a, b, c]) == [Strip(a), Strip(b), Strip(c)]
  {
  }

  /**
   * Six lines where only the last carries the marker, the three above it are
   * context lines and the one above those is not: one goal with those three
   * lines as its context.
   */
  lemma GoalAfterThreeContextLines(l0: string, l1: string, l2: string, l3: string, l4: string, l5: string)
    requires !HasGoalMarker(l0) && !HasGoalMarker(l1) && !HasGoalMarker(l2)
    requires !HasGoalMarker(l3) && !HasGoalMarker(l4) && HasGoalMarker(l5)
    requires !IsContextLine(l1) && IsContextLine(l2) && IsContextLine(l3) && IsContextLine(l4)
    ensures Goals([l0, l1] + [l2, l3, l4, l5]) == [LeanGoal([Strip(l2), Strip(l3), Strip(l4)], GoalText(l5))]
  {
    var lines := [l0, l1] + [l2, l3, l4, l5];
    OnlyLastLineIsGoal(lines);
    ThreeLineContext(l0, l1, l2, l3, l4, l5);
  }

  lemma ThreeLineContext(l0: string, l1: string, l2: string, l3: string, l4: string, l5: string)
    requires !IsContextLine(l1) && IsContextLine(l2) && IsContextLine(l3) && IsContextLine(l4)
    ensures Context([l0, l1] + [l2, l3, l4, l5], 5) == [Strip(l2), Strip(l3), Strip(l4)]
  {
    var lines := [l0, l1] + [l2, l3, l4, l5];
    ContextOfLinesTwoToFive(lines);
    assert lines[2..5] == [l2, l3, l4];
    StripAllThree(l2, l3, l4);
  }

  lemma ContextOfLinesTwoToFive(lines: seq<string>)
    requires |lines| == 6 && !IsContextLine(lines[1])
    requires IsContextLine(lines[2]) && IsContextLine(lines[3]) && IsContextLine(lines[4])
    ensures Context(lines, 5) == StripAll(lines[2..5])
  {
    forall k | 2 <= k < 5
      ensures IsContextLine(lines[k])
    {
      assert k == 2 || k == 3 || k == 4;
    }
    ContextIsRun(lines, 2, 5);
  }

  lemma UnsolvedGoals()
    ensures Goals(UnsolvedOutput()) == [LeanGoal([CaseLine, NatLine, HypLine], GoalStatement)]
  {
    NoMarkerAbove();
    GoalLineText();
    CaseLineIsContext();
    NatLineIsContext();
    HypLineIsContext();
    UnsolvedLineIsBoundary();
    GoalAfterThreeContextLines(EndLine(), UnsolvedLine(), CaseLine, NatLine, HypLine, GoalLine());
  }

  /**
   * The full output with exit code 1: the run fails, both error lines are
   * reported in order, and the one open goal carries the three lines above it
   * as its context.
   */
  lemma UnsolvedGoalIsReported()
    ensures !ParseLeanOutput(Some(Terminated(UnsolvedOutput())), 1).success
    ensures !ParseLeanOutput(Some(Terminated(UnsolvedOutput())), 1).proofComplete
    ensures ParseLeanOutput(Some(Terminated(UnsolvedOutput())), 1).errors == [EndMessage, UnsolvedMessage]
    ensures ParseLeanOutput(Some(Terminated(UnsolvedOutput())), 1).goals
            == [LeanGoal([CaseLine, NatLine, HypLine], GoalStatement)]
  {
    UnsolvedOutputLines();
    UnsolvedErrors();
    UnsolvedGoals();
  }
}
