# arpx_job_parser in Dafny

A model of the `arpx_job_parser` crate. The crate reads the job language of
`arpx`, which lists the processes a job runs and what follows each one. The
model has three layers, as the crate does.

* **The parser-combinator engine** (`parser.dfy`, `matchers.dfy`,
  `combinators.dfy`, `repetition.dfy`, `whitespace.dfy`).
  - A parser is a function from the input text to `Ok(rest, value)` or
    `Err(rest)`.
  - The primitives are `literal` and `any_char`. The combinators are
    `map`, `and_then`, `pred`, `pair`, `left`, `right`, `either` and
    `optional`. Repetition is `n`, `zero_or_more`, `one_or_more` and
    `two_or_more`. Whitespace is handled by `whitespace_char`, `space0`
    and `whitespace_wrap`.
  - Each combinator is a function. Its contract gives the exact success
    condition, the value, and where it stops on success and on failure.
  - That contract shows where each combinator stops on failure, in three
    groups. `literal`, `pred`, `optional` and `either`'s second try rewind
    to their input. `pair`, `left`, `right` and `and_then` report the
    position where the inner parser failed. `n`, `one_or_more` and
    `two_or_more` rewind to the start of the application that failed: the
    text earlier matches consumed is kept, and the position inside the
    failed application is dropped.
  - Lemmas prove that every combinator keeps the suffix invariant: each
    remainder it reports is a suffix of its input.
* **The job grammar** (`grammar.dfy`).
  - `process_name`, `onsucceed`, `onfail`, `process_predicate`,
    `terminating_semicolon`, `process_without_log_monitors`,
    `log_monitors`, `single_process`, `concurrent_processes`, `task` and
    `job`, built from the combinators exactly as the crate builds them.
  - `Canonical` (`jobtext.dfy`) writes a job back as text in the layout
    the crate's tests use. It proves that parsing that text gives back
    the same job, task or process, and leaves what follows it untouched.
* **Error localisation** (`errors.dfy`).
  - `get_text_coordinates` gives the line and column of the failure
    point.
  - `get_parse_error_context` builds a window of text around the failing
    character, with a marker in front of it.

`worked_examples.dfy` proves the inputs and expected results of the crate's
unit tests as lemmas about the model, every assertion of every test except
the three listed under "Left out".

The crate's loops are methods proved equal to the functions the rest of the
model uses:

| method | source loop | function it equals |
|---|---|---|
| `N` | `n` | `Repeat` |
| `ZeroOrMore` | `zero_or_more` | `Many` |
| `OneOrMore` | `one_or_more` | `Many1` |
| `TwoOrMore` | `two_or_more` | `Many2` |
| `ScanProcessName` | `process_name` | `ProcessName` |
| `GetTextCoordinates` | `get_text_coordinates` | `CountNewlines` / `LastLineLength` |

Two parts of the crate exist in two copies:

* `generic/left.rs` and `generic/combinators/left.rs` are the same
  function; `Combinators.Left` models both.
* `generic/whitespace.rs` and `generic/builtin_matchers/whitespace.rs`
  differ only in how `space0` repeats. The first uses `zero_or_more`,
  which the grammar uses through the crate's prelude. The second uses
  `n(.., 0..)`. Both are modelled, and proved equal below the 999999
  cap of `n`.

## Model

| member | source | states |
|---|---|---|
| Parser.Map | src/generic/combinators/parser.rs:67-77 | succeeds exactly when the inner parser does, keeps its remainder on success and failure, and yields `f` of its value |
| Parser.MapSuffix | src/generic/combinators/parser.rs:67-77 | `map` of a suffix parser reports suffixes of its input |
| Parser.AndThen | src/generic/combinators/parser.rs:79-89 | an inner failure is returned unchanged; otherwise the parser chosen from the value runs on the remainder and its result is returned as is, with no rewind |
| Parser.AndThenSuffix | src/generic/combinators/parser.rs:79-89 | `and_then` reports suffixes of its input when the first parser and every chosen parser do |
| Parser.Pred | src/generic/combinators/parser.rs:91-105 | succeeds with exactly the inner result iff the inner parser succeeds and the predicate holds on its value; otherwise fails at the original input |
| Parser.PredSuffix | src/generic/combinators/parser.rs:91-105 | `pred` of a suffix parser reports suffixes of its input |
| Matchers.Literal | src/generic/literal.rs:3-8 | succeeds iff the input starts with the expected text, leaving the input with it removed; fails at the original input otherwise; so the empty literal always succeeds and consumes nothing |
| Matchers.LiteralIsSuffixParser | src/generic/literal.rs:3-8 | every remainder `literal` reports is a suffix of its input |
| Matchers.AnyChar | src/generic/builtin_matchers/any_char.rs:3-8 | succeeds iff the input is non-empty, yielding its first character with the rest of the input after it; fails at `""` |
| Matchers.AnyCharIsSuffixParser | src/generic/builtin_matchers/any_char.rs:3-8 | `any_char` reports suffixes and consumes on success |
| Combinators.Pair | src/generic/pair.rs:3-15 | succeeds iff the first parser succeeds and the second succeeds on its remainder, yielding both values; a failure of the first is returned unchanged, and a failure of the second at its own position, not rewound |
| Combinators.PairSuffix | src/generic/pair.rs:3-15 | `pair` of two suffix parsers reports suffixes of its input |
| Combinators.PairIsAndThenMap | src/generic/pair.rs:3-15 | `pair` is `and_then` of the first parser into `map` of the second, as the source chains them |
| Combinators.Left | src/generic/left.rs:3-11 | fails exactly when `pair` fails, at the same position; on success yields the first value with the remainder after the second parser (src/generic/combinators/left.rs:4-12 is the same function) |
| Combinators.LeftSuffix | src/generic/left.rs:3-11 | `left` of two suffix parsers reports suffixes of its input |
| Combinators.Right | src/generic/right.rs:4-12 | fails exactly when `pair` fails, at the same position; on success yields the second value with the remainder after it |
| Combinators.RightSuffix | src/generic/right.rs:4-12 | `right` of two suffix parsers reports suffixes of its input |
| Combinators.PairFromProjections | src/generic/right.rs:4-12 | `left` and `right` agree on success and on position, and together give back `pair` |
| Combinators.Either | src/generic/either.rs:3-12 | the first parser's success is returned unchanged; on its failure the second parser's result on the original input is returned, success or failure; first match wins |
| Combinators.EitherAssociative | src/generic/either.rs:3-12 | nesting `either` to the left or to the right gives the same parser |
| Combinators.EitherSuffix | src/generic/either.rs:3-12 | `either` of two suffix parsers reports suffixes |
| Combinators.Optional | src/generic/optional.rs:3-11 | never fails; `Some` of the inner value with the inner remainder on success, `None` at the original input on failure |
| Combinators.OptionalSuffix | src/generic/optional.rs:3-11 | `optional` of a suffix parser reports suffixes of its input |
| Repetition.DecodedBoundsMatchRange | src/generic/n.rs:15-26 | below the cap, a count lies in the range exactly when it is at least the decoded start and below the decoded end |
| Repetition.Greedy | src/generic/n.rs:28-39 | a greedy run makes at most `bound` applications and, when it stops short, stops where the parser fails |
| Repetition.GreedyIsIterate | src/generic/n.rs:28-31 | the values of a greedy run are exactly the results of that many applications in order, ending at its remainder |
| Repetition.GreedyStopsIterate | src/generic/n.rs:28-35 | one application past where a greedy run stopped fails, at the run's remainder |
| Repetition.GreedySuffix | src/generic/n.rs:28-39 | a greedy run of a suffix parser ends at a suffix of its input |
| Repetition.GreedyValues | src/generic/n.rs:28-39 | every value of a greedy run satisfies what every success of the parser satisfies |
| Repetition.Repeat | src/generic/n.rs:7-41 | on success at most `end` values and at least `start` unless `end` is reached first, stopping where the parser fails when below `end`; a failure is where the parser failed; a zero start never fails |
| Repetition.RepeatIsIterate | src/generic/n.rs:28-39 | a success is exactly as many applications in order; a failure is the result of trying `start` applications, which fails exactly when `n` does |
| Repetition.RepeatFromZero | src/generic/n.rs:34-39 | with start 0, `n` returns the greedy run up to `end` |
| Repetition.RepeatSuffix | src/generic/n.rs:28-39 | `n` of a suffix parser reports suffixes on success and on failure |
| Repetition.N | src/generic/n.rs:7-41 | the loop returns exactly `Repeat` of its parser, range and input |
| Repetition.Many | src/generic/zero_or_more.rs:3-17 | for a parser that consumes on success: never fails and stops where the parser fails |
| Repetition.ManyStep | src/generic/zero_or_more.rs:10-13 | a successful application is followed by the run from its remainder, values in order |
| Repetition.ManySuffix | src/generic/zero_or_more.rs:3-17 | `zero_or_more` of a suffix parser ends at a suffix |
| Repetition.ZeroOrMoreIsN | src/generic/zero_or_more.rs:3-17 | `zero_or_more` equals `n(p, 0..)` when fewer than 999999 matches exist |
| Repetition.ZeroOrMore | src/generic/zero_or_more.rs:3-17 | the loop returns exactly `Many` |
| Repetition.Many1 | src/generic/one_or_more.rs:3-24 | succeeds iff the first application does; on failure the original input; on success at least one value, stopping where the parser fails |
| Repetition.Many1Suffix | src/generic/one_or_more.rs:3-24 | `one_or_more` of a suffix parser reports suffixes of its input on success and on failure |
| Repetition.OneOrMoreIsN | src/generic/one_or_more.rs:3-24 | `one_or_more` equals `n(p, 1..)` below the cap |
| Repetition.OneOrMore | src/generic/one_or_more.rs:3-24 | the loop returns exactly `Many1` |
| Repetition.Many2 | src/generic/two_or_more.rs:3-31 | succeeds iff two applications do; fails at the original input if the first fails and after the first match if only the second fails; on success at least two values, stopping where the parser fails |
| Repetition.Many2Suffix | src/generic/two_or_more.rs:3-31 | `two_or_more` of a suffix parser reports suffixes of its input on success and on failure |
| Repetition.TwoOrMoreIsN | src/generic/two_or_more.rs:3-31 | `two_or_more` equals `n(p, 2..)` below the cap |
| Repetition.TwoOrMore | src/generic/two_or_more.rs:3-31 | the loop returns exactly `Many2` |
| Whitespace.WhitespaceChar | src/generic/whitespace.rs:19-21 | succeeds iff the input starts with a whitespace character, consuming exactly it; fails at the original input otherwise (src/generic/builtin_matchers/whitespace.rs:19-21 is the same function) |
| Whitespace.WhitespaceCharProgress | src/generic/whitespace.rs:19-21 | `whitespace_char` consumes on success and reports suffixes |
| Whitespace.ManyWhitespace | src/generic/whitespace.rs:15-17 | a `zero_or_more` run of `whitespace_char` splits its input into whitespace and the rest |
| Whitespace.Space0 | src/generic/whitespace.rs:15-17 | never fails and consumes exactly the longest whitespace prefix, returning it |
| Whitespace.Space0Of | src/generic/whitespace.rs:15-17 | `space0` of whitespace followed by a non-whitespace text returns that whitespace and that text |
| Whitespace.GreedyWhitespace | src/generic/builtin_matchers/whitespace.rs:15-17 | a greedy run of `whitespace_char` splits its input into whitespace and the rest |
| Whitespace.BuiltinSpace0 | src/generic/builtin_matchers/whitespace.rs:15-17 | never fails, consumes a whitespace prefix, the longest one unless the 999999 cap cuts it |
| Whitespace.Space0Agree | src/generic/builtin_matchers/whitespace.rs:15-17 | the two `space0` versions agree below the cap |
| Whitespace.WhitespaceWrap | src/generic/whitespace.rs:7-13 | succeeds iff the parser succeeds after the leading whitespace; its failure is reported there; on success the trailing whitespace is consumed too and the parser's value returned |
| Whitespace.WhitespaceWrapSuffix | src/generic/whitespace.rs:7-13 | `whitespace_wrap` of a suffix parser reports suffixes |
| Whitespace.BuiltinWhitespaceWrap | src/generic/builtin_matchers/whitespace.rs:7-13 | the same behaviour built on the `n` version of `space0` |
| Whitespace.WhitespaceWrapAgree | src/generic/builtin_matchers/whitespace.rs:7-13 | the two `whitespace_wrap` versions agree when neither whitespace run reaches the cap |
| JobGrammar.ProcessName | src/arpx_job/process.rs:62-77 | never fails; takes the longest prefix of name characters, possibly empty, and the name followed by the rest is the input |
| JobGrammar.ProcessNameOf | src/arpx_job/process.rs:62-77 | a name followed by a non-name character reads back as that name, leaving that text |
| JobGrammar.ScanProcessName | src/arpx_job/process.rs:62-77 | the character loop returns exactly `ProcessName` |
| JobGrammar.Successor | src/arpx_job/process.rs:83-89 | the clause shared by `onsucceed` and `onfail`: succeeds iff the mark follows the leading whitespace, then reads the name after the whitespace that follows the mark; fails after the leading whitespace otherwise |
| JobGrammar.OnSucceed | src/arpx_job/process.rs:83-85 | succeeds iff `?` follows the leading whitespace, then reads a name after further whitespace; fails after the whitespace otherwise |
| JobGrammar.OnFail | src/arpx_job/process.rs:87-89 | the same with `:` |
| JobGrammar.ProcessPredicate | src/arpx_job/process.rs:79-81 | never fails; an optional `onsucceed` then an optional `onfail` tried after it, each independent of the other |
| JobGrammar.TerminatingSemicolon | src/arpx_job/process.rs:54-60 | succeeds iff the parser succeeds and `;` follows at once, with no whitespace skipped; yields the parser's value after the `;` |
| JobGrammar.ProcessWithoutLogMonitors | src/arpx_job/process.rs:39-52 | the name, its predicate and `;`, with whitespace around, give one process with those fields and no monitors; failure is where the `;` was missing |
| JobGrammar.LogMonitor | src/arpx_job/process.rs:35-37 | one `@name` with whitespace around |
| JobGrammar.LogMonitors | src/arpx_job/process.rs:35-37 | never fails and, below the cap, stops only where no `@` follows |
| JobGrammar.SingleProcess | src/arpx_job/process.rs:21-33 | succeeds iff the process body does; yields exactly one process, taking its monitors from the `@` list after it; the empty-list fallback cannot be reached |
| JobGrammar.SingleProcessIsOne | src/arpx_job/process.rs:21-33 | every success of `single_process` holds exactly one process |
| JobGrammar.Flatten | src/arpx_job/process.rs:15-18 | flattening one-element lists gives their elements in order |
| JobGrammar.GroupMembers | src/arpx_job/process.rs:15 | a group's members are at least two single processes |
| JobGrammar.Bracket | src/arpx_job/process.rs:14-16 | a bracket with whitespace around it, failing after the leading whitespace |
| JobGrammar.ConcurrentProcesses | src/arpx_job/process.rs:11-19 | `[`, at least two processes, `]`: yields the processes in source order, flattened; each failure point of the chain is stated |
| JobGrammar.ParseTask | src/arpx_job/task.rs:10-12 | tries the group first, then a single process at the original input; stores the list unchanged; when both fail, `single_process`'s failure is returned; a task has at least one process |
| JobGrammar.ParseJob | src/arpx_job/job.rs:10-12 | never fails; every task has a process; below the cap it stops only where no further task parses, which need not be the end of the input |
| JobGrammar.NoTaskJob | src/arpx_job/job.rs:10-12 | where no task parses, the job is empty and the input is left unchanged |
| Canonical.PredicateOf | src/arpx_job/process.rs:79-89 | the text of `? onsucceed : onfail`, with either part absent, reads back as those two options |
| Canonical.LogMonitorsOf | src/arpx_job/process.rs:35-37 | written monitors read back in order |
| Canonical.ProcessWithoutLogMonitorsOf | src/arpx_job/process.rs:39-52 | a written process body reads back with its name and successors |
| Canonical.SingleProcessOf | src/arpx_job/process.rs:21-33 | a written process, with its monitors and the whitespace after it, reads back as itself, leaving what follows |
| Canonical.SingleProcessFails | src/arpx_job/process.rs:21-33 | no process starts at the end of the text or at a character that cannot begin one |
| Canonical.SemicolonMustBeAdjacent | src/arpx_job/process.rs:41 | a name followed by whitespace before its `;` is not a process |
| Canonical.GroupOf | src/arpx_job/process.rs:15 | the members of a written group are read one by one, in order, up to the closing bracket |
| Canonical.ConcurrentProcessesOf | src/arpx_job/process.rs:11-19 | a written group of at least two processes reads back as those processes |
| Canonical.TaskOf | src/arpx_job/task.rs:10-12 | a written task, a single process or a group, reads back as itself |
| Canonical.JobTasksOf | src/arpx_job/job.rs:10-12 | the written tasks of a job are read one by one, in order, and the run stops at the end of the job text |
| Canonical.JobOf | src/arpx_job/job.rs:10-12 | a written job reads back as itself, leaving exactly what follows it |
| ErrorContext.CountNewlines | src/error.rs:28-42 | the number of line feeds in the text |
| ErrorContext.LastLineLength | src/error.rs:32-39 | the number of characters after the last line feed, or of the whole text when there is none |
| ErrorContext.GetTextCoordinates | src/error.rs:28-42 | the loop's line is one plus the line feeds in the text, and its column is the length of the last line |
| ErrorContext.CountNewlinesAppend | src/error.rs:28-42 | line feeds add up over a concatenation |
| ErrorContext.LastLineLengthAppend | src/error.rs:32-39 | the column after `a + b` is `b`'s when `b` holds a line feed, otherwise `a`'s plus `|b|` |
| ErrorContext.BeforeStart | src/error.rs:14 | the before-window starts 20 characters back, or at the start of the source |
| ErrorContext.ParseErrorContextAsWritten | src/error.rs:7-26 | as written: defined exactly when at least two characters remain and the remainder is no longer than the source; line and column are those of the consumed text; the context is up to 20 characters before, the marker, the failing character, and `min(|remaining| - 2, 19)` characters after |
| ErrorContext.ParseErrorContext | src/error.rs:7-26 | corrected: defined for any non-empty remainder no longer than the source, showing `min(|remaining| - 1, 19)` characters after the failing one |
| ErrorContext.ErrorCharIsRemainderHead | src/error.rs:8-12 | for a true remainder, the failing character is the remainder's first and the coordinates are those of the consumed text |
| ErrorContext.AsWrittenAgreesFarFromEnd | src/error.rs:15-17 | the written and corrected versions agree exactly when more than 20 characters remain |
| ErrorContext.FailureAtLastCharacter | src/error.rs:15-17 | a failure at the last character panics as written and is reported when corrected |
| Examples.LiteralExamples | src/generic/literal.rs:15-22 | the `literal` test cases |
| Examples.AnyCharExamples | src/generic/builtin_matchers/any_char.rs:15-21 | the `any_char` test cases |
| Examples.MapExamples | src/generic/combinators/parser.rs:116-125 | the `map` test cases |
| Examples.AndThenFooExample | src/generic/combinators/parser.rs:127-144 | `foo!bar` parses |
| Examples.AndThenFooFails | src/generic/combinators/parser.rs:127-144 | `foo!baz` fails at `baz`, after `foo!`, not rewound |
| Examples.AndThenBarExample | src/generic/combinators/parser.rs:127-144 | `bar!baz` parses |
| Examples.AndThenBarFails | src/generic/combinators/parser.rs:127-144 | `bar!bar` fails at the second `bar` |
| Examples.AndThenEmptyExample | src/generic/combinators/parser.rs:127-144 | the empty input fails at `""` |
| Examples.PredExamples | src/generic/combinators/parser.rs:147-153 | the `pred` test cases |
| Examples.PairAndRightExamples | src/generic/pair.rs:25-34 | the `pair` and `right` test cases |
| Examples.LeftExamples | src/generic/combinators/left.rs:21-31 | `foo!` gives `foo`; `baz` fails at the end of the input, after the word |
| Examples.EitherExamples | src/generic/either.rs:20-27 | the `either` test cases |
| Examples.OptionalExamples | src/generic/optional.rs:19-26 | the `optional` test cases |
| Examples.NOrMoreExamples | src/generic/n.rs:49-58 | `3..` on four and on three matches gives them all; on two it fails at the end; on `bar` and on `""` it fails at the input |
| Examples.UpToNExamples | src/generic/n.rs:61-71 | `0..3` on one, two and three matches gives them all, on four leaves the fourth, and on `bar` or `""` gives an empty list at the input |
| Examples.UpToAndIncludingNExamples | src/generic/n.rs:74-84 | `0..=3` on one to four matches gives them all, and on `bar` or `""` gives an empty list at the input |
| Examples.ZeroOrMoreExamples | src/generic/zero_or_more.rs:25-32 | the `zero_or_more` test cases |
| Examples.OneOrMoreExamples | src/generic/one_or_more.rs:32-39 | the `one_or_more` test cases |
| Examples.TwoOrMoreExamples | src/generic/two_or_more.rs:39-48 | the `two_or_more` test cases, including the failure after a single match |
| Examples.WhitespaceCharExamples | src/generic/whitespace.rs:48-55 | the `whitespace_char` test cases |
| Examples.WrapFooExample | src/generic/whitespace.rs:29-45 | `whitespace_wrap` with no whitespace around |
| Examples.WrapSpacedFooExample | src/generic/whitespace.rs:29-45 | whitespace on both sides is consumed |
| Examples.WrapIndentedFooExample | src/generic/whitespace.rs:29-45 | the raw-string case: newlines and indentation on both sides are consumed |
| Examples.WrapFooBarExample | src/generic/whitespace.rs:29-45 | what follows the trailing whitespace is left |
| Examples.WrapBarExample | src/generic/whitespace.rs:29-45 | a failure is reported after the leading whitespace |
| Examples.PlainProcessExample | src/arpx_job/process.rs:96-109 | `loop1;` |
| Examples.OnSucceedExample | src/arpx_job/process.rs:111-124 | `loop1 ? loop2;` |
| Examples.OnFailExample | src/arpx_job/process.rs:126-139 | `loop1 : loop3;` |
| Examples.BothSuccessorsExample | src/arpx_job/process.rs:141-154 | `loop1 ? loop2 : loop3;` |
| Examples.ConcurrentExample | src/arpx_job/process.rs:156-189 | the three-process group, indented as in the test |
| Examples.GroupOfOneFails | src/arpx_job/process.rs:191-214 | a group of one process fails at `]` |
| Examples.GroupOfTwo | src/arpx_job/process.rs:191-214 | a group of two processes parses |
| Examples.MonitorsExample | src/arpx_job/process.rs:216-229 | `loop1; @foo @bar @baz` has the three monitors in order |
| Examples.SingleTaskExample | src/arpx_job/task.rs:19-37 | a single process line is a task of one process |
| Examples.JobExampleParses | src/arpx_job/job.rs:19-81 | the mixed job gives four tasks, a group of two then three single processes, and leaves nothing |
| Examples.ErrorContextExample | src/error.rs:7-26 | a failure two characters before the end of a two-line text is at line 2, column 1; as written the window leaves out the last character, corrected it shows it |

## Left out

- The `Parser` trait, its provided methods and `BoxedParser`
  (src/generic/combinators/parser.rs:1-65). They only delegate to the free
  functions `map`, `and_then` and `pred`, and parsers are function values
  here.
- Character classes: `is_alphanumeric` is restricted to ASCII letters and
  digits. `is_whitespace` is the list of Unicode White_Space characters.
- Text is a sequence of characters. UTF-8 byte lengths and byte slicing
  (`len_utf8`, `as_bytes`, `&source[a..b]`) are treated as character
  counts, which is exact for ASCII text.
- Repetition.Many, Repetition.ZeroOrMore, Repetition.Many1,
  Repetition.OneOrMore, Repetition.Many2, Repetition.TwoOrMore: these
  require a parser that consumes input on every success. On a parser that
  can succeed without consuming, such as `literal("")`, the `while let`
  loops of src/generic/zero_or_more.rs:10, src/generic/one_or_more.rs:17
  and src/generic/two_or_more.rs:24 never return, and the model does not
  describe that. Every use in the crate consumes: `zero_or_more` is applied
  only to `whitespace_char` (src/generic/whitespace.rs:16), and
  `one_or_more` only to a one-character matcher in tests. `n` stops after
  at most 999999 applications and has no such requirement.
- Repetition.StartOf, Repetition.EndOf: the bounds are unbounded
  naturals, so the `v + 1` of the source (src/generic/n.rs:18,24), which
  overflows `usize` at its largest value, is not modelled.
- `ErrorContext.GetTextCoordinates`: line and column are unbounded, not
  32-bit; the 32-bit wrap-around is not modelled.
- `ErrorContext.ParseErrorContextAsWritten`: the subtractions of lengths and
  the out-of-range index and slice that panic are reported as `None`, not
  as a process abort.
- `ErrorContext.ParseErrorContext`: an empty remainder still has no failing
  character to show, so it stays undefined there, as in the source.
- The 651-character text of the error-context test (src/error.rs:49-77) is
  not reproduced. `Examples.ErrorContextExample` checks the same
  computation on a short two-line text.
- The `silent` field. The task tests set it, but `Process` has no such
  field. `Examples.SingleTaskExample` checks the single-task test without
  it. The concurrent-task test (src/arpx_job/task.rs:39-68) and the
  concurrent-with-monitors test (src/arpx_job/process.rs:231-264) are not
  reproduced as examples. `Canonical.TaskOf` and
  `Canonical.ConcurrentProcessesOf` cover their shapes.
- `JobGrammar.LogMonitors`, `JobGrammar.ParseJob`: the "stops only where
  nothing more parses" half of their contracts holds below 999999 items.
  At the cap, `n` stops after exactly 999999 applications, and the
  contracts say only what holds there too.
- `Canonical.JobOf` and the other round trips cover texts in canonical
  layout with non-empty names: the whitespace between parts is arbitrary
  but is given explicitly. They do not cover every text the grammar
  accepts.
- `Canonical.JobOf`: for a job with no tasks, the leading whitespace is
  left unconsumed, because `whitespace_wrap` fails after it and `n`
  rewinds to the start of the failed application.
- `src/lib.rs` and `src/arpx_job/mod.rs` only re-export modules and are not
  part of this model.

## Findings

| source | as written | input that shows it | evidently intended | confidence | as-written member | corrected member |
|---|---|---|---|---|---|---|
| src/error.rs:15-17 | the after-window ends at `min(source.len() - 1, char_pos + 20)`, the index of the last character, and starts at `char_pos + 1` | source `"x"`, remaining `"x"`: the slice `1..0` panics; with fewer than 21 characters remaining the last character of the source is never shown | end the window at `min(source.len(), char_pos + 20)` | not executed | ErrorContext.FailureAtLastCharacter | ErrorContext.ParseErrorContext |

The corrected `ErrorContext.ParseErrorContext` is the one the rest of the model uses. `ErrorContext.AsWrittenAgreesFarFromEnd` shows that the two versions differ only when 20 characters or fewer remain.
