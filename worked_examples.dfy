/**
 * The expected results that the repository's unit tests state, derived
 * from the model. Each lemma cites, in its comment, the test it follows.
 */
module Examples {
  import opened Parser
  import opened Matchers
  import opened Combinators
  import opened Repetition
  import opened Whitespace
  import opened JobGrammar
  import opened Canonical
  import opened ErrorContext

  // ---------------------------------------------------------------------
  // Parsers the tests build

  function Foo(s: string): PResult<()> {
    Literal("foo", s)
  }

  function Bar(s: string): PResult<()> {
    Literal("bar", s)
  }

  /** One ASCII letter or digit. */
  function Alnum(s: string): PResult<char> {
    Pred(AnyChar, IsAsciiAlphanumeric, s)
  }

  /** The tests' `any_word`: one or more letters or digits, collected into a string. */
  function AnyWord(s: string): PResult<string> {
    Map((s': string) => Repeat(Alnum, Range(Included(1), Unbounded), s'), (cs: seq<char>) => cs, s)
  }

  /** A word immediately followed by `!`. */
  function Exclamation(s: string): PResult<string> {
    Left(AnyWord, (s': string) => Literal("!", s'), s)
  }

  /** The parser `and_then` picks from the word read: `bar` after `foo`, `baz` after anything else. */
  function NextWord(w: string): Parser<()> {
    if w == "foo" then (s: string) => Literal("bar", s) else (s: string) => Literal("baz", s)
  }

  predicate AllAlnum(w: string) {
    forall i :: 0 <= i < |w| ==> IsAsciiAlphanumeric(w[i])
  }

  /** A greedy run of `Alnum` reads exactly the letters and digits in front. */
  lemma {:induction false} AlnumRun(w: string, tail: string, bound: nat)
    requires AllAlnum(w) && |w| < bound
    requires tail == [] || !IsAsciiAlphanumeric(tail[0])
    ensures Greedy(Alnum, bound, w + tail) == Run(tail, w)
    decreases |w|
  {
    if w == [] {
      assert w + tail == tail;
    } else {
      assert (w + tail)[1..] == w[1..] + tail;
      AlnumRun(w[1..], tail, bound - 1);
      assert [w[0]] + w[1..] == w;
    }
  }

  lemma AnyWordOf(w: string, tail: string)
    requires AllAlnum(w) && w != [] && |w| < UnboundedEnd
    requires tail == [] || !IsAsciiAlphanumeric(tail[0])
    ensures AnyWord(w + tail) == Ok(tail, w)
  {
    AlnumRun(w, tail, UnboundedEnd);
  }

  lemma AnyWordFails(tail: string)
    requires tail == [] || !IsAsciiAlphanumeric(tail[0])
    ensures AnyWord(tail) == Err(tail)
  {
    AlnumRun([], tail, UnboundedEnd);
    assert [] + tail == tail;
  }

  lemma FooProgress()
    ensures Progress(Foo)
  {
  }

  /** How `literal("foo")` reads the repeated test inputs. */
  lemma FooSteps()
    ensures Foo("foofoofoofoo") == Ok("foofoofoo", ())
    ensures Foo("foofoofoo") == Ok("foofoo", ())
    ensures Foo("foofoo") == Ok("foo", ())
    ensures Foo("foo") == Ok("", ())
    ensures Foo("").Err? && Foo("bar").Err?
  {
    var s := "foofoofoofoo";
    assert s[..3] == "foo" && s[3..] == "foofoofoo";
    assert s[3..][..3] == "foo" && s[3..][3..] == "foofoo";
    assert "foofoo"[..3] == "foo" && "foofoo"[3..] == "foo";
    assert "foo"[..3] == "foo" && "foo"[3..] == "";
    assert "bar"[..3][0] != 'f';
  }

  lemma UnitRuns()
    ensures [()] + [] == [()] && [()] + [()] == [(), ()]
    ensures [()] + [(), ()] == [(), (), ()] && [()] + [(), (), ()] == [(), (), (), ()]
    ensures [(), ()] + [] == [(), ()] && [(), ()] + [()] == [(), (), ()]
  {
  }

  // ---------------------------------------------------------------------
  // Matchers and combinators

  /** src/generic/literal.rs, test_literal. */
  lemma LiteralExamples()
    ensures Literal("foo", "foo") == Ok("", ())
    ensures Literal("foo", "foobar") == Ok("bar", ())
    ensures Literal("foo", "bar") == Err("bar")
  {
    assert "foobar"[..3] == "foo";
    assert "bar"[..3][0] != "foo"[0];
  }

  /** src/generic/builtin_matchers/any_char.rs, test_any_char. */
  lemma AnyCharExamples()
    ensures AnyChar("foo") == Ok("oo", 'f')
    ensures AnyChar("") == Err("")
  {
  }

  /** src/generic/combinators/parser.rs, test_map. */
  lemma MapExamples()
    ensures Map(AnyChar, (c: char) => if c == 'a' then "foo" else "bar", "a") == Ok("", "foo")
    ensures Map(AnyChar, (c: char) => if c == 'a' then "foo" else "bar", "z") == Ok("", "bar")
  {
  }

  /** src/generic/combinators/parser.rs, test_and_then: `bar` is what `foo!` must be followed by. */
  lemma AndThenFooExample()
    ensures AndThen(Exclamation, NextWord, "foo!bar") == Ok("", ())
  {
    AnyWordOf("foo", "!bar");
    assert "foo" + "!bar" == "foo!bar";
    assert "!bar"[..1] == "!" && "!bar"[1..] == "bar";
  }

  /** src/generic/combinators/parser.rs, test_and_then: `foo!baz` fails at `baz`, after `foo!`. */
  lemma AndThenFooFails()
    ensures AndThen(Exclamation, NextWord, "foo!baz") == Err("baz")
  {
    AnyWordOf("foo", "!baz");
    assert "foo" + "!baz" == "foo!baz";
    assert "!baz"[..1] == "!" && "!baz"[1..] == "baz";
    assert "baz"[..3][2] != "bar"[2];
  }

  /** src/generic/combinators/parser.rs, test_and_then: any other word must be followed by `baz`. */
  lemma AndThenBarExample()
    ensures AndThen(Exclamation, NextWord, "bar!baz") == Ok("", ())
  {
    AnyWordOf("bar", "!baz");
    assert "bar" + "!baz" == "bar!baz";
    assert "!baz"[..1] == "!" && "!baz"[1..] == "baz";
    assert "bar" != "foo";
  }

  /** src/generic/combinators/parser.rs, test_and_then: the failure is reported after `bar!`. */
  lemma AndThenBarFails()
    ensures AndThen(Exclamation, NextWord, "bar!bar") == Err("bar")
  {
    AnyWordOf("bar", "!bar");
    assert "bar" + "!bar" == "bar!bar";
    assert "!bar"[..1] == "!" && "!bar"[1..] == "bar";
    assert "bar" != "foo";
    assert "bar"[..3][2] != "baz"[2];
  }

  /** src/generic/combinators/parser.rs, test_and_then: no word at all. */
  lemma AndThenEmptyExample()
    ensures AndThen(Exclamation, NextWord, "") == Err("")
  {
    AnyWordFails("");
  }

  /** src/generic/combinators/parser.rs, test_pred. */
  lemma PredExamples()
    ensures Pred(AnyChar, (c: char) => c == 'f', "foo") == Ok("oo", 'f')
    ensures Pred(AnyChar, (c: char) => c == 'f', "bar") == Err("bar")
  {
  }

  /** src/generic/pair.rs and src/generic/right.rs, test_pair and test_right. */
  lemma PairAndRightExamples()
    ensures Pair(Foo, AnyWord, "foobar") == Ok("", ((), "bar"))
    ensures Pair(Foo, AnyWord, "baz") == Err("baz")
    ensures Right(Foo, AnyWord, "foobar") == Ok("", "bar")
    ensures Right(Foo, AnyWord, "baz") == Err("baz")
  {
    assert "foobar"[..3] == "foo" && "foobar"[3..] == "bar";
    assert "baz"[..3][2] != "foo"[2];
    AnyWordOf("bar", "");
    assert "bar" + "" == "bar";
  }

  /** src/generic/combinators/left.rs, test_left: `baz` fails after the word, at the end of the input. */
  lemma LeftExamples()
    ensures Exclamation("foo!") == Ok("", "foo")
    ensures Exclamation("baz") == Err("")
  {
    AnyWordOf("foo", "!");
    assert "foo" + "!" == "foo!";
    AnyWordOf("baz", "");
    assert "baz" + "" == "baz";
  }

  /** src/generic/either.rs, test_either. */
  lemma EitherExamples()
    ensures Either(Foo, Bar, "foo") == Ok("", ())
    ensures Either(Foo, Bar, "bar") == Ok("", ())
    ensures Either(Foo, Bar, "baz") == Err("baz")
  {
  }

  /** src/generic/optional.rs, test_optional. */
  lemma OptionalExamples()
    ensures Optional(Foo, "foo") == Ok("", Some(()))
    ensures Optional(Foo, "bar") == Ok("bar", None)
    ensures Optional(Foo, "") == Ok("", None)
  {
  }

  // ---------------------------------------------------------------------
  // Repetition

  /** src/generic/n.rs, test_n_or_more: a shortfall fails where the last match ended. */
  lemma NOrMoreExamples()
    ensures Repeat(Foo, Range(Included(3), Unbounded), "foofoofoofoo") == Ok("", [(), (), (), ()])
    ensures Repeat(Foo, Range(Included(3), Unbounded), "foofoofoo") == Ok("", [(), (), ()])
    ensures Repeat(Foo, Range(Included(3), Unbounded), "foofoo") == Err("")
    ensures Repeat(Foo, Range(Included(3), Unbounded), "bar") == Err("bar")
    ensures Repeat(Foo, Range(Included(3), Unbounded), "") == Err("")
  {
    FooSteps();
    UnitRuns();
    var b := UnboundedEnd;
    GreedyStop(Foo, b - 4, "");
    GreedyStep(Foo, b - 3, "foo");
    GreedyStep(Foo, b - 2, "foofoo");
    GreedyStep(Foo, b - 1, "foofoofoo");
    GreedyStep(Foo, b, "foofoofoofoo");
    GreedyStop(Foo, b - 3, "");
    GreedyStep(Foo, b - 2, "foo");
    GreedyStep(Foo, b - 1, "foofoo");
    GreedyStep(Foo, b, "foofoofoo");
    GreedyStop(Foo, b - 2, "");
    GreedyStep(Foo, b - 1, "foo");
    GreedyStep(Foo, b, "foofoo");
    GreedyStop(Foo, b, "bar");
    GreedyStop(Foo, b, "");
  }

  /** src/generic/n.rs, test_up_to_n: at most three matches, the fourth `foo` left over. */
  lemma UpToNExamples()
    ensures Repeat(Foo, Range(Included(0), Excluded(3)), "foo") == Ok("", [()])
    ensures Repeat(Foo, Range(Included(0), Excluded(3)), "foofoo") == Ok("", [(), ()])
    ensures Repeat(Foo, Range(Included(0), Excluded(3)), "foofoofoo") == Ok("", [(), (), ()])
    ensures Repeat(Foo, Range(Included(0), Excluded(3)), "foofoofoofoo") == Ok("foo", [(), (), ()])
    ensures Repeat(Foo, Range(Included(0), Excluded(3)), "bar") == Ok("bar", [])
    ensures Repeat(Foo, Range(Included(0), Excluded(3)), "") == Ok("", [])
  {
    FooSteps();
    UnitRuns();
    GreedyStop(Foo, 2, "");
    GreedyStep(Foo, 3, "foo");
    GreedyStop(Foo, 1, "");
    GreedyStep(Foo, 2, "foo");
    GreedyStep(Foo, 3, "foofoo");
    GreedyStop(Foo, 0, "");
    GreedyStep(Foo, 1, "foo");
    GreedyStep(Foo, 2, "foofoo");
    GreedyStep(Foo, 3, "foofoofoo");
    GreedyStep(Foo, 1, "foofoofoo");
    GreedyStep(Foo, 2, "foofoofoo");
    GreedyStep(Foo, 3, "foofoofoofoo");
    GreedyStop(Foo, 3, "bar");
    GreedyStop(Foo, 3, "");
  }

  /** src/generic/n.rs, test_up_to_and_including_n: `0..=3` takes the fourth `foo` too. */
  lemma UpToAndIncludingNExamples()
    ensures Repeat(Foo, Range(Included(0), Included(3)), "foo") == Ok("", [()])
    ensures Repeat(Foo, Range(Included(0), Included(3)), "foofoo") == Ok("", [(), ()])
    ensures Repeat(Foo, Range(Included(0), Included(3)), "foofoofoo") == Ok("", [(), (), ()])
    ensures Repeat(Foo, Range(Included(0), Included(3)), "foofoofoofoo") == Ok("", [(), (), (), ()])
    ensures Repeat(Foo, Range(Included(0), Included(3)), "bar") == Ok("bar", [])
    ensures Repeat(Foo, Range(Included(0), Included(3)), "") == Ok("", [])
  {
    FooSteps();
    UnitRuns();
    GreedyStop(Foo, 3, "");
    GreedyStep(Foo, 4, "foo");
    GreedyStop(Foo, 2, "");
    GreedyStep(Foo, 3, "foo");
    GreedyStep(Foo, 4, "foofoo");
    GreedyStop(Foo, 1, "");
    GreedyStep(Foo, 2, "foo");
    GreedyStep(Foo, 3, "foofoo");
    GreedyStep(Foo, 4, "foofoofoo");
    GreedyStop(Foo, 0, "");
    GreedyStep(Foo, 1, "foo");
    GreedyStep(Foo, 2, "foofoo");
    GreedyStep(Foo, 3, "foofoofoo");
    GreedyStep(Foo, 4, "foofoofoofoo");
    GreedyStop(Foo, 4, "bar");
    GreedyStop(Foo, 4, "");
  }

  /** src/generic/zero_or_more.rs, test_zero_or_more. */
  lemma ZeroOrMoreExamples()
    ensures Progress(Foo) && Many(Foo, "foofoofoo") == Ok("", [(), (), ()])
    ensures Progress(Foo) && Many(Foo, "bar") == Ok("bar", [])
    ensures Progress(Foo) && Many(Foo, "") == Ok("", [])
  {
    FooProgress();
    FooSteps();
    UnitRuns();
    ManyStep(Foo, "foo");
    ManyStep(Foo, "foofoo");
    ManyStep(Foo, "foofoofoo");
  }

  /** src/generic/one_or_more.rs, test_one_or_more. */
  lemma OneOrMoreExamples()
    ensures Progress(Foo) && Many1(Foo, "foofoofoo") == Ok("", [(), (), ()])
    ensures Progress(Foo) && Many1(Foo, "bar") == Err("bar")
    ensures Progress(Foo) && Many1(Foo, "") == Err("")
  {
    ZeroOrMoreExamples();
    FooSteps();
    UnitRuns();
  }

  /** src/generic/two_or_more.rs, test_two_or_more: a single match fails after it. */
  lemma TwoOrMoreExamples()
    ensures Progress(Foo) && Many2(Foo, "foofoofoo") == Ok("", [(), (), ()])
    ensures Progress(Foo) && Many2(Foo, "foofoo") == Ok("", [(), ()])
    ensures Progress(Foo) && Many2(Foo, "foo") == Err("")
    ensures Progress(Foo) && Many2(Foo, "bar") == Err("bar")
    ensures Progress(Foo) && Many2(Foo, "") == Err("")
  {
    ZeroOrMoreExamples();
    FooSteps();
    UnitRuns();
  }

  // ---------------------------------------------------------------------
  // Whitespace

  /** src/generic/whitespace.rs, test_whitespace_char. */
  lemma WhitespaceCharExamples()
    ensures WhitespaceChar(" ") == Ok("", ' ')
    ensures WhitespaceChar("f") == Err("f")
    ensures WhitespaceChar("") == Err("")
  {
  }

  /** src/generic/whitespace.rs, test_whitespace_wrap: no whitespace around. */
  lemma WrapFooExample()
    ensures WhitespaceWrap(Foo, "foo") == Ok("", ())
  {
    FooSteps();
    Space0Of("", "foo");
    assert "" + "foo" == "foo";
    Space0Of("", "");
  }

  /** src/generic/whitespace.rs, test_whitespace_wrap: whitespace on both sides is consumed. */
  lemma WrapSpacedFooExample()
    ensures WhitespaceWrap(Foo, "    foo     ") == Ok("", ())
  {
    SpacedFooTexts();
    Space0Of("    ", "foo     ");
    Space0Of("     ", "");
  }

  lemma SpacedFooTexts()
    ensures "    " + "foo     " == "    foo     "
    ensures Foo("foo     ") == Ok("     ", ())
    ensures "     " + "" == "     "
  {
    assert "foo     "[..3] == "foo" && "foo     "[3..] == "     ";
  }

  /** src/generic/whitespace.rs, test_whitespace_wrap: the raw-string case, with newlines on both sides. */
  lemma WrapIndentedFooExample()
    ensures WhitespaceWrap(Foo, "\n                foo\n            ") == Ok("", ())
  {
    IndentedFooTexts();
    Indents();
    Space0Of(DeepIndent, "foo" + Indent);
    Space0Of(Indent, "");
  }

  lemma IndentedFooTexts()
    ensures DeepIndent + ("foo" + Indent) == "\n                foo\n            "
    ensures Foo("foo" + Indent) == Ok(Indent, ())
    ensures Indent + "" == Indent
  {
    assert ("foo" + Indent)[..3] == "foo" && ("foo" + Indent)[3..] == Indent;
  }

  /** src/generic/whitespace.rs, test_whitespace_wrap: what follows the trailing whitespace is left. */
  lemma WrapFooBarExample()
    ensures WhitespaceWrap(Foo, "    foo        bar") == Ok("bar", ())
  {
    FooBarTexts();
    Space0Of("    ", "foo        bar");
    Space0Of("        ", "bar");
  }

  lemma FooBarTexts()
    ensures "    " + "foo        bar" == "    foo        bar"
    ensures Foo("foo        bar") == Ok("        bar", ())
    ensures "        " + "bar" == "        bar"
  {
    assert "foo        bar"[..3] == "foo" && "foo        bar"[3..] == "        bar";
  }

  /** src/generic/whitespace.rs, test_whitespace_wrap: a failure is reported after the leading whitespace. */
  lemma WrapBarExample()
    ensures WhitespaceWrap(Foo, "   bar   ") == Err("bar   ")
  {
    Space0Of("   ", "bar   ");
    assert "   " + "bar   " == "   bar   ";
    assert "bar   "[..3][0] != 'f';
  }

  // ---------------------------------------------------------------------
  // Processes, tasks and jobs

  const Indent: string := "\n            "
  const DeepIndent: string := "\n                "
  const LastIndent: string := "\n        "

  /** A process without log monitors. */
  function Proc(name: string, onsucceed: Option<string>, onfail: Option<string>): Process {
    Process([], name, onfail, onsucceed)
  }

  lemma Names()
    ensures ValidName("loop1") && ValidName("loop2") && ValidName("loop3") && ValidName("loop4")
    ensures ValidName("loop5") && ValidName("loop6") && ValidName("loop7") && ValidName("loop8")
  {
  }

  lemma Indents()
    ensures AllWhitespace(Indent) && AllWhitespace(DeepIndent) && AllWhitespace(LastIndent)
  {
  }

  /** The text of a process with both successors. */
  lemma TextBoth(name: string, onsucceed: string, onfail: string, ws: string)
    ensures ProcessText(Proc(name, Some(onsucceed), Some(onfail)), ws)
      == name + " ? " + onsucceed + " : " + onfail + ";" + ws
  {
  }

  /** The text of a process with only a successor on success. */
  lemma TextSucceed(name: string, onsucceed: string, ws: string)
    ensures ProcessText(Proc(name, Some(onsucceed), None), ws) == name + " ? " + onsucceed + ";" + ws
  {
  }

  /** The text of a process with no successor. */
  lemma TextPlain(name: string, ws: string)
    ensures ProcessText(Proc(name, None, None), ws) == name + ";" + ws
  {
  }

  /** The process lines of the tests, spelt out. */
  lemma Spellings()
    ensures "loop1" + " ? " + "loop2" + " : " + "loop3" + ";" == "loop1 ? loop2 : loop3;"
    ensures "loop2" + " ? " + "loop3" + " : " + "loop4" + ";" == "loop2 ? loop3 : loop4;"
    ensures "loop3" + " ? " + "loop4" + " : " + "loop5" + ";" == "loop3 ? loop4 : loop5;"
    ensures "loop2" + " ? " + "loop3" + ";" == "loop2 ? loop3;"
    ensures "loop7" + " ? " + "loop8" + ";" == "loop7 ? loop8;"
    ensures "loop6" + ";" == "loop6;"
  {
  }

  lemma Loop1Text(ws: string)
    ensures ProcessText(Proc("loop1", Some("loop2"), Some("loop3")), ws) == "loop1 ? loop2 : loop3;" + ws
  {
    TextBoth("loop1", "loop2", "loop3", ws);
    Spellings();
  }

  lemma Loop2Text(ws: string)
    ensures ProcessText(Proc("loop2", Some("loop3"), Some("loop4")), ws) == "loop2 ? loop3 : loop4;" + ws
  {
    TextBoth("loop2", "loop3", "loop4", ws);
    Spellings();
  }

  lemma Loop3Text(ws: string)
    ensures ProcessText(Proc("loop3", Some("loop4"), Some("loop5")), ws) == "loop3 ? loop4 : loop5;" + ws
  {
    TextBoth("loop3", "loop4", "loop5", ws);
    Spellings();
  }

  lemma Loop2SucceedText(ws: string)
    ensures ProcessText(Proc("loop2", Some("loop3"), None), ws) == "loop2 ? loop3;" + ws
  {
    TextSucceed("loop2", "loop3", ws);
    Spellings();
  }

  lemma Loop6Text(ws: string)
    ensures ProcessText(Proc("loop6", None, None), ws) == "loop6;" + ws
  {
    TextPlain("loop6", ws);
    Spellings();
  }

  lemma Loop7Text(ws: string)
    ensures ProcessText(Proc("loop7", Some("loop8"), None), ws) == "loop7 ? loop8;" + ws
  {
    TextSucceed("loop7", "loop8", ws);
    Spellings();
  }

  /** Whitespace in front of a group is skipped. */
  lemma SkipLeadGroup(ws: string, s: string)
    requires AllWhitespace(ws) && (s == [] || !IsWhitespace(s[0]))
    ensures ConcurrentProcesses(ws + s) == ConcurrentProcesses(s)
  {
    Space0Of(ws, s);
    Space0None(s);
    assert Bracket("[", ws + s) == Bracket("[", s);
  }

  /** Whitespace in front of a process is skipped. */
  lemma SkipLeadProcess(ws: string, s: string)
    requires AllWhitespace(ws) && (s == [] || !IsWhitespace(s[0]))
    ensures SingleProcess(ws + s) == SingleProcess(s)
  {
    Space0Of(ws, s);
    Space0None(s);
    SameStart(ws + s, s);
    SameStartSingle(ws + s, s);
  }

  lemma SameStartSingle(x: string, y: string)
    requires ProcessWithoutLogMonitors(x) == ProcessWithoutLogMonitors(y)
    ensures SingleProcess(x) == SingleProcess(y)
  {
  }

  /** A process parse depends only on what follows the leading whitespace. */
  lemma SameStart(x: string, y: string)
    requires Space0(x).rest == Space0(y).rest
    ensures ProcessWithoutLogMonitors(x) == ProcessWithoutLogMonitors(y)
  {
  }

  /** Whitespace in front of a task is skipped. */
  lemma SkipLead(ws: string, s: string)
    requires AllWhitespace(ws) && (s == [] || !IsWhitespace(s[0]))
    ensures ParseTask(ws + s) == ParseTask(s)
  {
    SkipLeadGroup(ws, s);
    SkipLeadProcess(ws, s);
  }

  /** src/arpx_job/process.rs, test_process. */
  lemma PlainProcessExample()
    ensures SingleProcess("loop1;") == Ok("", [Proc("loop1", None, None)])
  {
    var p := Proc("loop1", None, None);
    Names();
    assert ProcessText(p, "") + "" == "loop1;";
    SingleProcessOf(p, "", "");
  }

  /** src/arpx_job/process.rs, test_process_with_only_onsucceed. */
  lemma OnSucceedExample()
    ensures SingleProcess("loop1 ? loop2;") == Ok("", [Proc("loop1", Some("loop2"), None)])
  {
    var p := Proc("loop1", Some("loop2"), None);
    Names();
    assert ProcessText(p, "") + "" == "loop1 ? loop2;";
    SingleProcessOf(p, "", "");
  }

  /** src/arpx_job/process.rs, test_process_with_only_onfail. */
  lemma OnFailExample()
    ensures SingleProcess("loop1 : loop3;") == Ok("", [Proc("loop1", None, Some("loop3"))])
  {
    var p := Proc("loop1", None, Some("loop3"));
    Names();
    assert ProcessText(p, "") + "" == "loop1 : loop3;";
    SingleProcessOf(p, "", "");
  }

  /** src/arpx_job/process.rs, test_process_with_onsucceed_and_onfail. */
  lemma BothSuccessorsExample()
    ensures SingleProcess("loop1 ? loop2 : loop3;") == Ok("", [Proc("loop1", Some("loop2"), Some("loop3"))])
  {
    var p := Proc("loop1", Some("loop2"), Some("loop3"));
    Names();
    assert ProcessText(p, "") + "" == "loop1 ? loop2 : loop3;";
    SingleProcessOf(p, "", "");
  }

  /** src/arpx_job/process.rs, test_process_with_log_monitors. */
  lemma MonitorsExample()
    ensures SingleProcess("loop1; @foo @bar @baz") == Ok("", [Process(["foo", "bar", "baz"], "loop1", None, None)])
  {
    var p := Process(["foo", "bar", "baz"], "loop1", None, None);
    Names();
    assert ValidName("foo") && ValidName("bar") && ValidName("baz");
    MonitorsTextOf("foo", "bar", "baz", "");
    MonitorsSpelling();
    assert ProcessText(p, "") + "" == "loop1; @foo @bar @baz";
    SingleProcessOf(p, "", "");
  }

  /** Three log monitors, each written ` @name`. */
  lemma MonitorsTextOf(a: string, b: string, c: string, ws: string)
    ensures MonitorsText([a, b, c], ws) == " @" + a + (" @" + b + (" @" + c + ws))
  {
    assert [a, b, c][1..] == [b, c] && [b, c][1..] == [c] && [c][1..] == [];
    assert MonitorsText([c], ws) == " @" + c + ws;
    assert MonitorsText([b, c], ws) == " @" + b + (" @" + c + ws);
  }

  lemma MonitorsSpelling()
    ensures "loop1" + "" + ";" + (" @" + "foo" + (" @" + "bar" + (" @" + "baz" + ""))) + ""
      == "loop1; @foo @bar @baz"
  {
  }

  /** A process and then a text no process starts: the greedy run of `single_process` reads that one process. */
  lemma OneMemberRun(p: Process, close: string)
    requires ValidProcess(p) && Boundary("", close) && NoProcessAt(close)
    ensures Greedy(SingleProcess, UnboundedEnd, ProcessText(p, "") + close) == Run(close, [[p]])
  {
    SingleProcessFails(close);
    SingleProcessOf(p, "", close);
    SingleRun(SingleProcess, ProcessText(p, "") + close, close, [p], UnboundedEnd);
  }

  /** A greedy run that matches once and then stops. */
  lemma SingleRun<A>(p: Parser<A>, input: string, next: string, v: A, bound: nat)
    requires p(input) == Ok(next, v) && p(next).Err? && bound >= 1
    ensures Greedy(p, bound, input) == Run(next, [v])
  {
    GreedyStop(p, bound - 1, next);
    GreedyStep(p, bound, input);
    assert [v] + [] == [v];
  }

  lemma GroupOfOneMembers()
    ensures GroupMembers("loop1 ? loop2 : loop3;]") == Err("]")
  {
    var p := Proc("loop1", Some("loop2"), Some("loop3"));
    Names();
    assert ProcessText(p, "") + "]" == "loop1 ? loop2 : loop3;]";
    OneMemberRun(p, "]");
  }

  /** src/arpx_job/process.rs, test_concurrent_processes_must_have_2_single_processes: one process fails at `]`. */
  lemma GroupOfOneFails()
    ensures ConcurrentProcesses("[loop1 ? loop2 : loop3;]") == Err("]")
  {
    OpenGroup("[loop1 ? loop2 : loop3;]", "loop1 ? loop2 : loop3;]");
    GroupOfOneMembers();
  }

  /** An opening bracket followed directly by a process name. */
  lemma OpenGroup(s: string, body: string)
    requires s == "[" + body && body != [] && IsNameChar(body[0])
    ensures Space0(s).rest == s && "[" <= s && Space0(s[1..]).rest == body
  {
    assert s[0] == '[' && s[1..] == body;
    Space0None(s);
    Space0None(body);
  }

  lemma GroupOfTwoText(ps: seq<Process>, seps: seq<string>)
    requires ps == [Proc("loop1", Some("loop2"), Some("loop3")), Proc("loop2", Some("loop3"), None)]
    requires seps == [" ", ""]
    ensures "[" + "" + GroupText(ps, seps) + "]" + "" + "" == "[loop1 ? loop2 : loop3; loop2 ? loop3;]"
  {
    var a := ProcessText(ps[0], " ");
    var b := ProcessText(ps[1], "");
    Loop1Text(" ");
    Loop2SucceedText("");
    assert ps[1..] == [ps[1]] && seps[1..] == [""];
    assert GroupText(ps[1..], seps[1..]) == b + [];
    assert GroupText(ps, seps) == a + b;
    GroupOfTwoSpelling();
  }

  lemma GroupOfTwoSpelling()
    ensures "[" + "" + (("loop1 ? loop2 : loop3;" + " ") + ("loop2 ? loop3;" + "")) + "]" + "" + ""
      == "[loop1 ? loop2 : loop3; loop2 ? loop3;]"
  {
  }

  /** src/arpx_job/process.rs, test_concurrent_processes_must_have_2_single_processes: two processes parse. */
  lemma GroupOfTwo()
    ensures ConcurrentProcesses("[loop1 ? loop2 : loop3; loop2 ? loop3;]") ==
      Ok("", [Proc("loop1", Some("loop2"), Some("loop3")), Proc("loop2", Some("loop3"), None)])
  {
    var ps := [Proc("loop1", Some("loop2"), Some("loop3")), Proc("loop2", Some("loop3"), None)];
    var seps := [" ", ""];
    Names();
    GroupOfTwoText(ps, seps);
    ConcurrentProcessesOf(ps, "", seps, "", "");
  }

  lemma Assemble3(i: string, d: string, e: string, a: string, b: string, c: string, g: string)
    requires g == (a + d) + ((b + d) + ((c + i) + []))
    ensures i + ("[" + d + g + "]" + e + []) == i + "[" + d + a + d + b + d + c + i + "]" + e
  {
  }

  function ThreeProcs(): seq<Process> {
    [Proc("loop1", Some("loop2"), Some("loop3")),
     Proc("loop2", Some("loop3"), Some("loop4")),
     Proc("loop3", Some("loop4"), Some("loop5"))]
  }

  lemma ThreeGroupText()
    ensures GroupText(ThreeProcs(), [DeepIndent, DeepIndent, Indent])
      == ("loop1 ? loop2 : loop3;" + DeepIndent) + (("loop2 ? loop3 : loop4;" + DeepIndent) + (("loop3 ? loop4 : loop5;" + Indent) + []))
  {
    var ps, seps := ThreeProcs(), [DeepIndent, DeepIndent, Indent];
    Loop1Text(DeepIndent);
    Loop2Text(DeepIndent);
    Loop3Text(Indent);
    assert ps[1..][1..] == ps[2..] && seps[1..][1..] == seps[2..];
    assert ps[2..][1..] == [] && seps[2..][1..] == [];
    assert GroupText(ps[2..], seps[2..]) == ProcessText(ps[2], seps[2]) + [];
    assert GroupText(ps[1..], seps[1..]) == ProcessText(ps[1], seps[1]) + GroupText(ps[2..], seps[2..]);
  }

  /** src/arpx_job/process.rs, test_concurrent_processes. */
  lemma ConcurrentExample()
    ensures ConcurrentProcesses(
      Indent + "[" +
      DeepIndent + "loop1 ? loop2 : loop3;" +
      DeepIndent + "loop2 ? loop3 : loop4;" +
      DeepIndent + "loop3 ? loop4 : loop5;" +
      Indent + "]" +
      LastIndent)
      == Ok("", ThreeProcs())
  {
    var ps, seps := ThreeProcs(), [DeepIndent, DeepIndent, Indent];
    Indents();
    Names();
    ThreeGroupText();
    Assemble3(Indent, DeepIndent, LastIndent, "loop1 ? loop2 : loop3;", "loop2 ? loop3 : loop4;", "loop3 ? loop4 : loop5;", GroupText(ps, seps));
    var s := "[" + DeepIndent + GroupText(ps, seps) + "]" + LastIndent + [];
    ConcurrentProcessesOf(ps, DeepIndent, seps, LastIndent, []);
    SkipLeadGroup(Indent, s);
  }

  /** src/arpx_job/task.rs, test_single_task (without the `silent` field the test also sets). */
  lemma SingleTaskExample()
    ensures ParseTask(Indent + "loop1 ? loop2 : loop3;" + LastIndent) == Ok("", Task([Proc("loop1", Some("loop2"), Some("loop3"))]))
  {
    var t := Task([Proc("loop1", Some("loop2"), Some("loop3"))]);
    var l := TaskLayout(LastIndent, [], []);
    Names();
    Indents();
    SingleTaskText(t, l);
    TaskOf(t, l, "");
    SkipLead(Indent, TaskText(t, l) + "");
  }

  lemma SingleTaskText(t: Task, l: TaskLayout)
    requires t == Task([Proc("loop1", Some("loop2"), Some("loop3"))]) && l == TaskLayout(LastIndent, [], [])
    ensures Indent + "loop1 ? loop2 : loop3;" + LastIndent == Indent + (TaskText(t, l) + "")
    ensures TaskText(t, l) != [] && !IsWhitespace(TaskText(t, l)[0])
  {
    Loop1Text(LastIndent);
  }

  /** The text of the job test: its lines, with the indentation written out. */
  const JobExample: string :=
    Indent + "[" +
    DeepIndent + "loop1 ? loop2 : loop3;" +
    DeepIndent + "loop2 ? loop3 : loop4;" +
    Indent + "]" +
    Indent + "loop3 ? loop4 : loop5;" +
    Indent + "loop6;" +
    Indent + "loop7 ? loop8;" +
    LastIndent

  /** The tasks the job test expects: a group of two processes, then three single processes. */
  function ExampleTasks(): seq<Task> {
    [Task([Proc("loop1", Some("loop2"), Some("loop3")), Proc("loop2", Some("loop3"), Some("loop4"))]),
     Task([Proc("loop3", Some("loop4"), Some("loop5"))]),
     Task([Proc("loop6", None, None)]),
     Task([Proc("loop7", Some("loop8"), None)])]
  }

  function ExampleLayouts(): seq<TaskLayout> {
    [TaskLayout(Indent, DeepIndent, [DeepIndent, Indent]), TaskLayout(Indent, [], []),
     TaskLayout(Indent, [], []), TaskLayout(LastIndent, [], [])]
  }

  lemma ExampleValid()
    ensures ValidJob(ExampleTasks(), ExampleLayouts())
  {
    Names();
    Indents();
  }

  lemma Assemble(i: string, d: string, e: string, a: string, b: string, c: string, f: string, g: string)
    ensures i + (("[" + d + ((a + d) + ((b + i) + [])) + "]" + i)
          + ((c + i) + ((f + i) + ((g + e) + [])))) + ""
         == i + "[" + d + a + d + b + i + "]" + i + c + i + f + i + g + e
  {
  }

  lemma ExampleText()
    ensures Indent + JobText(ExampleTasks(), ExampleLayouts()) + "" == JobExample
  {
    GroupTaskText();
    TailTasksText();
    ExampleJobTextCons();
    Assemble(Indent, DeepIndent, LastIndent, "loop1 ? loop2 : loop3;", "loop2 ? loop3 : loop4;",
      "loop3 ? loop4 : loop5;", "loop6;", "loop7 ? loop8;");
  }

  lemma ExampleJobTextCons()
    ensures JobText(ExampleTasks(), ExampleLayouts())
      == TaskText(ExampleTasks()[0], ExampleLayouts()[0]) + JobText(ExampleTasks()[1..], ExampleLayouts()[1..])
  {
  }

  /** The first task of the job test: its group of two. */
  lemma GroupTaskText()
    ensures TaskText(ExampleTasks()[0], ExampleLayouts()[0])
      == "[" + DeepIndent + (("loop1 ? loop2 : loop3;" + DeepIndent) + (("loop2 ? loop3 : loop4;" + Indent) + [])) + "]" + Indent
  {
    var p1 := Proc("loop1", Some("loop2"), Some("loop3"));
    var p2 := Proc("loop2", Some("loop3"), Some("loop4"));
    Loop1Text(DeepIndent);
    Loop2Text(Indent);
    assert [p1, p2][1..] == [p2];
    assert GroupText([p2], [Indent]) == ProcessText(p2, Indent) + [];
  }

  /** The three single-process tasks after the group. */
  lemma TailTasksText()
    ensures JobText(ExampleTasks()[1..], ExampleLayouts()[1..])
      == ("loop3 ? loop4 : loop5;" + Indent) + (("loop6;" + Indent) + (("loop7 ? loop8;" + LastIndent) + []))
  {
    var ts, ls := ExampleTasks(), ExampleLayouts();
    Loop3Text(Indent);
    Loop6Text(Indent);
    Loop7Text(LastIndent);
    assert ts[3..][1..] == [] && ls[3..][1..] == [];
    assert JobText(ts[3..], ls[3..]) == TaskText(ts[3], ls[3]) + [];
    assert ts[2..][1..] == ts[3..] && ls[2..][1..] == ls[3..];
    assert JobText(ts[2..], ls[2..]) == TaskText(ts[2], ls[2]) + JobText(ts[3..], ls[3..]);
    assert ts[1..][1..] == ts[2..] && ls[1..][1..] == ls[2..];
  }

  /** src/arpx_job/job.rs, test_job: four tasks, and nothing left over. */
  lemma JobExampleParses()
    ensures ParseJob(JobExample) == Ok("", Job(ExampleTasks()))
  {
    ExampleValid();
    ExampleText();
    JobOf(Indent, ExampleTasks(), ExampleLayouts(), "");
  }

  // ---------------------------------------------------------------------
  // Error context

  /**
   * A failure two characters before the end of a two-line text: line 2,
   * column 1. The written version leaves the last character out of the
   * window; the corrected one shows it.
   */
  lemma ErrorContextExample()
    ensures ParseErrorContextAsWritten("ab\ncde", "de") == Some(ErrorReport(2, 1, "ab\nc !ERROR-> d"))
    ensures ParseErrorContext("ab\ncde", "de") == Some(ErrorReport(2, 1, "ab\nc !ERROR-> de"))
  {
    var s := "ab\ncde";
    var consumed := "ab\nc";
    assert s[..4] == consumed;
    assert consumed[..3] == "ab\n";
    assert "ab\n"[..2] == "ab";
    assert "ab"[..1] == "a";
    assert "a"[..0] == "";
    assert CountNewlines(consumed) == 1;
    assert LastLineLength(consumed) == 1;
    assert BeforeStart(4) == 0;
    assert s[4] == 'd' && s[5..5] == [] && s[5..6] == "e";
    assert consumed + ErrorMarker + ['d'] + [] == "ab\nc !ERROR-> d";
    assert consumed + ErrorMarker + ['d'] + "e" == "ab\nc !ERROR-> de";
  }
}
