# langchain_lean: the Lean output parser and the agent-facing tools, in Dafny

`langchain_lean` lets a language-model agent write Lean 4 proofs. The project
runs `lean` on the agent's code in a container. It turns the printed
diagnostics into a structured result: `success`, `proof_complete`, `has_sorry`,
the `errors`, the `warnings`, the open `goals` with their local context, and
the raw output. Two tools sit on top of that result:

- `LeanREPLTool` renders the result as REPL-style text for the agent.
- `LeanSearchTool` queries the Loogle search engine and returns a normalised
  list of hits.

This Dafny project models three parts:

- **The output parser** (`langchain_lean/core/parser.py`): `parse_lean_output`,
  `_extract_goals`, the two records, and the two diagnostic patterns
  `\berror:\s*(.+)` and `\bwarning:\s*(.+)`, which are case-insensitive.
- **The REPL formatter** (`langchain_lean/tools/repl_tool.py`, `_run`).
- **The Loogle reply builder** (`langchain_lean/tools/search_tool.py`, `_run`).

The Python built-ins that these rely on are written out in module `PyText`:

- `str.strip`, with Python's full whitespace set;
- `str.splitlines`, with all of its line boundaries;
- `str.lower`, `str.find`, `startswith` and `in`.

The `re` semantics that matter are written out in module `LeanMarkers`:

- `\b`;
- case folding, including the two Turkish `i` forms that `re.IGNORECASE` equates with `i`;
- leftmost `search`;
- the greedy `\s*` that hands one character back to `(.+)`.

The JSON values that the search tool reads are modelled in module `PyJson`,
with Python truthiness, `dict.get` and `or`.

Modules and files:

| file | module | models |
|---|---|---|
| `wrappers.dfy` | `Wrappers` | `Option` |
| `pytext.dfy` | `PyText` | the string built-ins above |
| `markers.dfy` | `LeanMarkers` | `_ERROR_RE` / `_WARNING_RE` and the two list comprehensions that apply them |
| `parser.dfy` | `Parser` | `LeanGoal`, `ParsedLeanOutput`, `_extract_goals` (as methods proved against a declarative goal specification), `parse_lean_output` |
| `json.dfy` | `PyJson` | decoded JSON values |
| `repl_tool.dfy` | `ReplTool` | `LeanREPLTool._run` after the run tool has answered |
| `search_tool.dfy` | `SearchTool` | `LeanSearchTool._run` after the fetch |
| `parser_examples.dfy` | `ParserExamples` | the three parser examples of `tests/test_parser.py`, proved about the model |
| `search_examples.dfy` | `SearchExamples` | the mocked Loogle example of `tests/test_search_tool.py`, proved about the model |

### How the parser is specified

`_extract_goals` walks backwards from each goal line. The model states the
walk's result declaratively:

- `BlankRunStart` skips the blank lines directly above the goal line.
- `ContextRunStart` then takes the maximal run of lines that are neither
  blank nor boundaries. A boundary is a line containing `error:` or
  `warning:` in any case, or starting with `info:` after stripping.
- The context is that run, stripped, top to bottom.

`Parser.CollectContext` is the imperative walk, proved to compute exactly
that. `Parser.ExtractGoals` is the loop over the lines, proved to compute
`Goals`, which is one goal per marker line, in line order.

### A failed run without an error

A non-zero exit code does not always come with an error. Take a run in
which no line matches the error pattern `\berror:\s*(.+)` (any case) and
whose output is empty or whitespace only. Then
`parse_lean_output` (parser.py:40-43) finds no fallback text and returns
`success=False` with `errors == []`. The model keeps this behaviour:
`Parser.ParseLeanOutput`'s fourth `ensures` and `Parser.FallbackError` state
it exactly.

## Model

| member | source | states |
|---|---|---|
| PyText.Strip | langchain_lean/core/parser.py:41 | `str.strip()`, never longer than its input; specified by `StripSpec`, `StripUnique` and `StripEmpty` |
| PyText.Lower | langchain_lean/core/parser.py:76 | `str.lower()`, of the same length as its input; specified by `LowerAppend` (see `PyText.LowerChar` under Left out) |
| PyText.StripSpec | langchain_lean/core/parser.py:41 | `strip()` returns a contiguous slice of its input. Only whitespace lies before and after that slice, and the result neither starts nor ends with whitespace |
| PyText.StripUnique | langchain_lean/core/parser.py:70 | Whitespace, then a text with no whitespace at either end, then whitespace, strips to exactly that text |
| PyText.StripEmpty | langchain_lean/core/parser.py:71 | `not line.strip()` holds exactly when the line is all whitespace |
| PyText.StripDropSpace | langchain_lean/core/parser.py:35 | Dropping leading whitespace does not change the stripped text |
| PyText.Find | langchain_lean/core/parser.py:61 | `find` returns -1 exactly when the character is absent; otherwise it returns an index holding the character, with no earlier occurrence |
| PyText.FindFirst | langchain_lean/core/parser.py:61 | The first occurrence of a character is the index `find` returns |
| PyText.SplitLines | langchain_lean/core/parser.py:33 | `splitlines()` yields no lines exactly for the empty text, and no line contains a line boundary |
| PyText.SplitLinesKeepsText | langchain_lean/core/parser.py:33 | The lines of `splitlines()`, concatenated, are the text with its line-boundary characters removed: no other character is lost, added or reordered |
| PyText.SplitJoined | langchain_lean/core/parser.py:33 | Lines without boundaries, the last one non-empty, joined with `"\n"`, split back into the same lines |
| PyText.SplitTerminated | langchain_lean/core/parser.py:33 | Lines without boundaries, each followed by `"\n"`, split back into the same lines |
| PyText.SplitLinesCons | langchain_lean/core/parser.py:33 | A line followed by `"\n"` splits off as the first line, and the rest splits as it would alone |
| PyText.LowerAppend | langchain_lean/core/parser.py:76 | `lower()` of a concatenation is the concatenation of the `lower()`s |
| PyText.ContainsMiddle | langchain_lean/core/parser.py:76 | A text contains any piece written into it |
| LeanMarkers.FirstMatch | langchain_lean/core/parser.py:26-27 | `re.search`'s scan for the start of a match; a match found leaves room for `(.+)` after the keyword; specified by `FirstMatchIsLeftmost` |
| LeanMarkers.Capture | langchain_lean/core/parser.py:26-27 | Group 1 of a match, never empty; specified by `CaptureSpec` and `CaptureStrip` |
| LeanMarkers.Message | langchain_lean/core/parser.py:35-36 | `search(line)` then `group(1).strip()`; specified by `MessageIffMatch`, `MessageIsStrippedTail` and `BlankAfterKeyword` |
| LeanMarkers.Messages | langchain_lean/core/parser.py:35-36 | The list comprehension over the lines; specified by `SearchedAt`, `MessagesAppend`, `MessagesNone`, `MessagesCount` and `MessagesNonEmpty` |
| LeanMarkers.FirstMatchIsLeftmost | langchain_lean/core/parser.py:26-27 | `search` finds a position where the pattern matches, and no earlier position matches; it finds nothing only when no position matches |
| LeanMarkers.CaptureSpec | langchain_lean/core/parser.py:26-27 | Group 1 is a suffix of the line, separated from the keyword only by whitespace. It is never empty, and it starts with a non-space unless it is the single last character |
| LeanMarkers.CaptureStrip | langchain_lean/core/parser.py:35-36 | However much whitespace `\s*` consumed, `group(1).strip()` equals the stripped rest of the line after the keyword |
| LeanMarkers.MessageIffMatch | langchain_lean/core/parser.py:35-36 | A line contributes a message exactly when the pattern matches somewhere in it |
| LeanMarkers.MessageIsStrippedTail | langchain_lean/core/parser.py:35-36 | The message is the stripped rest of the line after the keyword of the leftmost match |
| LeanMarkers.BlankAfterKeyword | langchain_lean/core/parser.py:26-27 | When the keyword of the leftmost match is followed only by whitespace, the message is the empty string rather than no message |
| LeanMarkers.MessageAfter | langchain_lean/core/parser.py:35-36 | The keyword written after a prefix that cannot start it and ends in a non-word character yields the stripped rest of the line as its message |
| LeanMarkers.NoMessageWithout | langchain_lean/core/parser.py:35-36 | A line lacking every case form of some keyword character yields no message |
| LeanMarkers.MessagesAppend | langchain_lean/core/parser.py:35-36 | The messages of two blocks of lines are the two lists joined: line order is kept and nothing is merged or lost |
| LeanMarkers.MessagesNone | langchain_lean/core/parser.py:35-36 | Lines without a match contribute no message |
| LeanMarkers.MessagesCount | langchain_lean/core/parser.py:35-36 | There is exactly one message per matching line |
| LeanMarkers.MessagesNonEmpty | langchain_lean/core/parser.py:35-36 | A single matching line is enough for the message list to be non-empty |
| LeanMarkers.SearchedAt | langchain_lean/core/parser.py:35-36 | Entry `k` of the search results is the search of line `k` |
| LeanMarkers.PresentAppend | langchain_lean/core/parser.py:35-36 | The `if match` filter distributes over concatenation |
| LeanMarkers.PresentCount | langchain_lean/core/parser.py:35-36 | The filter keeps exactly the present entries |
| Parser.GoalText | langchain_lean/core/parser.py:65 | The goal text is never empty |
| Parser.GoalTextAfterFirstMarker | langchain_lean/core/parser.py:61-65 | The goal text is the stripped text after the first marker on the line. The placeholder `(meta vacía)` appears exactly when that text is empty |
| Parser.BlankRunStartSpec | langchain_lean/core/parser.py:71-75 | The lines skipped above a goal are all blank, and the line above them is not |
| Parser.ContextRunStartSpec | langchain_lean/core/parser.py:70-81 | Every line of the collected run is non-blank and not a boundary, and the line above the run is neither |
| Parser.GoalLinesSpec | langchain_lean/core/parser.py:60-63 | The goal lines are listed in strictly increasing order, and every line holding the marker is listed |
| Parser.GoalCount | langchain_lean/core/parser.py:60-84 | There are exactly as many goals as lines holding the marker |
| Parser.GoalsStep | langchain_lean/core/parser.py:84 | Scanning one more marker line appends its goal at the end |
| Parser.ReverseReverse | langchain_lean/core/parser.py:83 | Reversing twice gives back the list, so the bottom-up collection read in reverse is top-to-bottom |
| Parser.PushContext | langchain_lean/core/parser.py:80 | Appending the stripped line `j` extends the reversed context by one more line upwards |
| Parser.CollectContext | langchain_lean/core/parser.py:66-83 | The backward walk returns exactly `Context`: blank lines above the goal skipped, then the maximal run of non-blank, non-boundary lines, stripped and top to bottom |
| Parser.GoalTextAt | langchain_lean/core/parser.py:61-65 | At the index `find` returned, the stripped rest (or the placeholder) is the goal text |
| Parser.GoalOfLine | langchain_lean/core/parser.py:61-84 | A marker line yields the goal of that line, with its text and context |
| Parser.ExtractGoals | langchain_lean/core/parser.py:58-86 | `_extract_goals` returns `Goals(lines)`: one goal per marker line, in line order |
| Parser.ContextEntries | langchain_lean/core/parser.py:66-83 | Entry `k` of a context is line `ContextStart + k`, stripped. It is non-empty and not a boundary, and only blank lines lie between the last entry and the goal line |
| Parser.IsBoundary | langchain_lean/core/parser.py:76-79 | The stop test of the walk on a stripped line; specified by `ContextFencedByBoundary` and `ContextEntries` |
| Parser.Context | langchain_lean/core/parser.py:66-83 | The declarative context of a goal; specified by `BlankRunStartSpec`, `ContextRunStartSpec`, `ContextEntries` and the two fencing lemmas, and computed by `CollectContext` |
| Parser.Goals | langchain_lean/core/parser.py:58-86 | One goal per marker line; specified by `GoalLinesSpec`, `GoalCount` and `GoalsStep`, and computed by `ExtractGoals` |
| Parser.ContextFencedByBoundary | langchain_lean/core/parser.py:76-79 | The context never reaches above a line containing `error:` or `warning:` in any case, or starting with `info:` |
| Parser.ContextFencedByBlank | langchain_lean/core/parser.py:71-73 | Once a non-blank line has been collected, a blank line above it ends the context |
| Parser.ParseLeanOutput | langchain_lean/core/parser.py:30-55 | `success` holds exactly when the exit code is 0 and no line matches the error pattern `\berror:\s*(.+)` (any case). A failure has errors unless the exit code is non-zero and the output is blank. `proof_complete` holds exactly for a success without goals and without `sorry`. Errors (when some line matches the error pattern), warnings and goals are the line-by-line messages and goals. All nine clauses are listed below the table |
| Parser.FallbackError | langchain_lean/core/parser.py:40-44 | With a failing exit code and no line matching the error pattern `\berror:\s*(.+)` (any case), the run fails. The errors are the whole stripped output, or nothing when the output is whitespace only |
| Parser.MissingOutputIsEmpty | langchain_lean/core/parser.py:32 | A missing output parses like the empty output |
| PyJson.OrTruthy | langchain_lean/tools/search_tool.py:36 | `a or b` is truthy exactly when one of them is; it is `a` when `a` is truthy and `b` otherwise |
| ReplTool.ErrorList | langchain_lean/tools/repl_tool.py:42 | The error list is never empty: it is the reply's errors when there are any, otherwise the one placeholder `Error desconocido` |
| ReplTool.NatToString | langchain_lean/tools/repl_tool.py:52 | The goal number prints as a non-empty string of decimal digits without a leading zero |
| ReplTool.NatToStringRoundTrip | langchain_lean/tools/repl_tool.py:52 | Reading the printed goal number back as decimal gives the number |
| ReplTool.GoalBlock | langchain_lean/tools/repl_tool.py:52-55 | A goal takes one heading line plus one line per context entry |
| ReplTool.HeadingAt | langchain_lean/tools/repl_tool.py:51-52 | The heading of goal `k` is numbered `k + 1` and comes right after the lines of the goals before it |
| ReplTool.ContextLineAt | langchain_lean/tools/repl_tool.py:53-55 | Context line `j` of goal `k` appears indented by two spaces, right below the goal's heading and its earlier context lines |
| ReplTool.BlocksPrefix | langchain_lean/tools/repl_tool.py:51-55 | The listing of the first `m` goals is a prefix of the listing of the first `n` |
| ReplTool.IncompleteLines | langchain_lean/tools/repl_tool.py:50-56 | The lines of the goal listing; specified by `HeadingAt`, `ContextLineAt`, `IncompleteLineCount` and `IncompleteReplySplits`, and computed by `FormatGoals` |
| ReplTool.IncompleteLineCount | langchain_lean/tools/repl_tool.py:48-56 | The listing has the header, one heading per goal and one line per context entry, so at least one line more than there are goals |
| ReplTool.IncompleteReplySplits | langchain_lean/tools/repl_tool.py:48-56 | When goal texts and context entries are single lines, splitting the reply into lines gives back exactly the header, the headings and the indented context lines |
| ReplTool.ErrorReplySplits | langchain_lean/tools/repl_tool.py:41-43 | When the errors are single lines and the last is non-empty, the lines of the error reply are the header followed by the errors, in order |
| ReplTool.AppendGoal | langchain_lean/tools/repl_tool.py:52-55 | The inner loop appends exactly the goal's block: its heading, then each context line indented, in order |
| ReplTool.FormatGoals | langchain_lean/tools/repl_tool.py:50-56 | The listing loop produces the header followed by the blocks of all goals, numbered from 1, joined with `"\n"` |
| ReplTool.FormatReply | langchain_lean/tools/repl_tool.py:36-58 | Non-JSON text is returned as is. A run that is not a success gives the error header and the error list. A complete proof gives the success line. Remaining goals give the listing, and the remaining case gives the not-final note |
| SearchTool.ApiUrl | langchain_lean/tools/search_tool.py:28 | The query goes to `https://loogle.lean-lang.org/json?q=` followed by the encoded query, which ends the URL unchanged |
| SearchTool.WebUrl | langchain_lean/tools/search_tool.py:29 | The reported source is `https://loogle.lean-lang.org/?q=` followed by the encoded query, and it differs from the API URL |
| SearchTool.SelectItems | langchain_lean/tools/search_tool.py:35-40 | A list payload is used unchanged, and a payload that is neither an object nor a list gives an empty list; for objects see `ObjectPayloadSelection`. The result is always a list or some other truthy value |
| SearchTool.ObjectPayloadSelection | langchain_lean/tools/search_tool.py:35-36 | An object payload uses `hits` when truthy, otherwise `results` when truthy, otherwise an empty list |
| SearchTool.SliceEnd | langchain_lean/tools/search_tool.py:43 | `[:limit]` keeps `min(limit, n)` entries for a non-negative limit, and drops `-limit` entries from the end (down to none) for a negative one |
| SearchTool.Window | langchain_lean/tools/search_tool.py:43 | Slicing a list keeps its first `SliceEnd` entries. Slicing a string gives that many entries, entry `i` being the one-character string of character `i`. Any other value cannot be sliced |
| SearchTool.FirstNonObject | langchain_lean/tools/search_tool.py:43-46 | This is the first entry whose `.get` would raise: it is not an object, every entry before it is one, and none is found only when all entries are objects |
| SearchTool.NormalizeItem | langchain_lean/tools/search_tool.py:44-51 | The name is the first truthy of `name` and `declName`, else `title`, and is truthy exactly when one of the three is. The type is `type` when truthy, else `signature`. `doc` is copied. The source is the item's truthy `source`, else the search page, so it is always truthy |
| SearchTool.ErrorReply | langchain_lean/tools/search_tool.py:62-72 | The error envelope carries no hits, a count of 0, and an error text starting with the fixed prefix |
| SearchTool.Search | langchain_lean/tools/search_tool.py:31-72 | The reference reply; specified by `ReplyShape`, `FetchFailureReported`, `ErrorExactly`, `HitsArePrefix`, `StringHitsFail` and `SchemaLimitTakesLeadingHits`, and computed by `Run` |
| SearchTool.Run | langchain_lean/tools/search_tool.py:31-72 | `_run` after the fetch computes exactly the reference reply `Search` |
| SearchTool.ReplyShape | langchain_lean/tools/search_tool.py:53-72 | Every reply echoes the query and the search page, and its count is the number of hits it carries. An error reply carries no hits and a prefixed error text |
| SearchTool.FetchFailureReported | langchain_lean/tools/search_tool.py:62-69 | A failed fetch is reported as the prefix followed by the exception text |
| SearchTool.ErrorExactly | langchain_lean/tools/search_tool.py:31-72 | The reply is an error exactly when the fetch failed, the hit list cannot be sliced, or an entry taken is not an object |
| SearchTool.HitsArePrefix | langchain_lean/tools/search_tool.py:42-57 | A successful reply holds the first `SliceEnd` entries of the hit list, each normalised, in order. It never holds more than a non-negative limit |
| SearchTool.StringHitsFail | langchain_lean/tools/search_tool.py:43-46 | A hit list that is a string gives an error exactly when its slice is non-empty |
| SearchTool.DefaultLimitAdmitted | langchain_lean/tools/search_tool.py:14 | The default limit 5 lies within the schema's bounds 1 to 20 |
| SearchTool.SchemaLimitTakesLeadingHits | langchain_lean/tools/search_tool.py:14 | With a limit the input schema admits (1 to 20) and object hits, the reply succeeds with `min(limit, n)` hits, at least one when there are any |
| ParserExamples.EmptyOutputIsComplete | tests/test_parser.py:4-9 | Empty output with exit code 0 is a success and a complete proof, with no errors and no goals |
| ParserExamples.DiagnosticLineMessage | langchain_lean/core/parser.py:35 | The message of `check.lean:<pos>: error: <msg>` is `<msg>` |
| ParserExamples.SyntaxErrorIsReported | tests/test_parser.py:30-36 | The syntax-error output fails, is not a complete proof, and its only error is `expected token` |
| ParserExamples.UnsolvedGoals | tests/test_parser.py:12-27 | The unsolved-goals output has one goal, `n + 1 + 0 = n + 1`, whose context is `case succ`, `n : Nat` and `ih : n + 0 = n` |
| ParserExamples.UnsolvedGoalIsReported | tests/test_parser.py:12-27 | With exit code 1 that output fails and is not complete. Its errors are the two diagnostics in order, and it has that one goal |
| SearchExamples.QueriesJsonEndpoint | tests/test_search_tool.py:31 | The queried URL contains `loogle.lean-lang.org/json` |
| SearchExamples.MockedSearch | tests/test_search_tool.py:20-42 | With limit 1 and two mocked hits, the reply echoes the query, counts 1 hit, and names it `Nat.add_assoc` |

`Parser.ParseLeanOutput` (parser.py:30-55) states these properties of the result:

1. `raw_output` is the text, or `""` when the output is missing.
2. `success` holds exactly when the exit code is 0 and no line matches the error pattern `\berror:\s*(.+)` (any case).
3. A success has no errors.
4. A failure has errors, unless the exit code is non-zero and the output is whitespace only.
5. `proof_complete` holds exactly when the run is a success with no goals and no `sorry`.
6. When some line matches the error pattern, the errors are those messages, one per matching line, in line order.
7. The warnings are the messages of the lines that match the warning pattern `\bwarning:\s*(.+)` (any case).
8. The goals are `Goals(lines)`.
9. `has_sorry` holds exactly when the lowered text contains `sorry`.

## Left out

- The execution environment, the evaluator, `LeanRunTool`, `LeanStateTool` and the toolkit are not part of this model. They start containers, write files and run processes.
- The run tool's JSON text and its decoding are not modelled. `FormatReply` receives a `RunReply`: either the undecodable text (repl_tool.py:36-39) or the fields of the decoded object.
- ReplTool.FormatReply: the reply's values are typed as the run tool emits them. `success` and `proof_complete` are booleans, `errors` and each `context` are lists of strings, `goals` is a list of goal objects, and each `goal` is a string. A missing or null key is `None`. Other JSON values, whose truthiness or `str()` form would then matter, are not modelled, and neither is a decoded value that is not an object, on which `.get` would raise.
- ReplTool.FormatReply: the lazy creation of the run tool (repl_tool.py:32-33) and the `_arun` wrapper are left out. They do not affect the text returned.
- `parsed_output_to_dict` (parser.py:89-91) is pydantic serialisation and is left out.
- SearchTool.Run: `quote_plus`, `urlopen` with its 12-second timeout, and `json.loads` are inputs. The model takes the encoded query and a `Fetched` value, which is either the decoded payload or the text of the exception raised. `json.dumps` of the reply is not modelled, and the reply is returned as a record.
- SearchTool.NotSliceableMessage: the exception text for slicing an object depends on the Python version. It is `unhashable type: 'slice'` before 3.12, while from 3.12 a `KeyError` with the slice's representation is raised. The model uses the former. Either way the reply is the error envelope.
- SearchTool.NormalizeItem: when a hit has no `doc` key, the model holds `None` as JSON null, which is what `json.dumps` prints.
- PyJson: floats are modelled as reals. Only their truthiness is used.
- LeanMarkers.IsWordChar: `\w` is modelled for ASCII letters, digits and `_` only. Python's `\w` on text also accepts non-ASCII letters and digits. So a keyword right after a non-ASCII letter matches in the model but not in Python.
- PyText.LowerChar: only ASCII capitals are lowered. Python's `str.lower()` also lowers non-ASCII letters. Only two non-ASCII characters lower to ASCII letters: U+0130, which lowers to `i` followed by U+0307, and U+212A, which lowers to `k`. Neither can complete `error:`, `warning:` or `sorry`, so the boundary test (parser.py:76) and the `sorry` test (parser.py:39) agree with Python. Lowered text is not otherwise exposed.
- LeanMarkers.FoldsTo: case-insensitive matching is modelled for ASCII letters plus the two Turkish forms of `i`. Among the letters of `error:` and `warning:`, `i` is the only one with non-ASCII case forms under Python's `re`.
- Integer widths do not arise: exit codes, limits and counts are Python integers, modelled as `int`/`nat`.
