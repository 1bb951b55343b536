/**
 * Whitespace handling: `whitespace_char`, `space0` and `whitespace_wrap`.
 *
 * The source has two copies. The grammar uses the one whose `space0` is a
 * `zero_or_more` loop (`Space0`, `WhitespaceWrap`); the other builds
 * `space0` from `n(.., 0..)` (`BuiltinSpace0`, `BuiltinWhitespaceWrap`).
 * Both share the same `whitespace_char`, and they agree whenever no run of
 * whitespace is longer than the 999999 applications `n` allows.
 */
module Whitespace {
  import opened Parser
  import opened Matchers
  import opened Combinators
  import opened Repetition

  /** Rust's `char::is_whitespace`: the characters with the Unicode White_Space property. */
  predicate IsWhitespace(c: char) {
    || '\t' <= c <= '\r'
    || c == ' '
    || c == '\U{85}'
    || c == '\U{A0}'
    || c == '\U{1680}'
    || '\U{2000}' <= c <= '\U{200A}'
    || c == '\U{2028}'
    || c == '\U{2029}'
    || c == '\U{202F}'
    || c == '\U{205F}'
    || c == '\U{3000}'
  }

  predicate AllWhitespace(s: string) {
    forall i :: 0 <= i < |s| ==> IsWhitespace(s[i])
  }

  /** `whitespace_char`: one whitespace character, or a failure at the unchanged input. */
  function WhitespaceChar(input: string): (r: PResult<char>)
    ensures r.Ok? <==> |input| > 0 && IsWhitespace(input[0])
    ensures r.Ok? ==> r.value == input[0] && r.rest == input[1..]
    ensures r.Err? ==> r.rest == input
  {
    Pred(AnyChar, IsWhitespace, input)
  }

  /** `whitespace_char` consumes on success and reports only suffixes. */
  lemma WhitespaceCharProgress()
    ensures Progress(WhitespaceChar)
    ensures SuffixParser(WhitespaceChar)
  {
    forall s: string ensures IsSuffix(WhitespaceChar(s).rest, s) {
      if |s| > 0 {
        assert s[|s| - |s[1..]|..] == s[1..];
      }
    }
  }

  /** A greedy run of `whitespace_char` splits its input into whitespace and the rest. */
  lemma {:induction false} GreedyWhitespace(bound: nat, input: string)
    ensures var g := Greedy(WhitespaceChar, bound, input);
      g.values + g.rest == input && AllWhitespace(g.values)
    decreases bound
  {
    if bound > 0 && WhitespaceChar(input).Ok? {
      GreedyWhitespace(bound - 1, input[1..]);
      var g := Greedy(WhitespaceChar, bound - 1, input[1..]);
      assert [input[0]] + g.values + g.rest == input;
    }
  }

  /** A whitespace character in front of whitespace, and the rest of the text after it. */
  lemma WhitespaceCons(input: string, ws: string, rest: string)
    requires input != [] && IsWhitespace(input[0])
    requires ws + rest == input[1..] && AllWhitespace(ws)
    ensures [input[0]] + ws + rest == input && AllWhitespace([input[0]] + ws)
  {
    assert input == [input[0]] + input[1..];
  }

  /** The inductive step of `ManyWhitespace`: one more whitespace character in front. */
  lemma ManyWhitespaceCons(input: string)
    requires Progress(WhitespaceChar) && WhitespaceChar(input).Ok?
    requires var m := Many(WhitespaceChar, input[1..]);
      m.value + m.rest == input[1..] && AllWhitespace(m.value)
    ensures var m := Many(WhitespaceChar, input);
      m.value + m.rest == input && AllWhitespace(m.value)
  {
    ManyStep(WhitespaceChar, input);
    var m := Many(WhitespaceChar, input[1..]);
    WhitespaceCons(input, m.value, m.rest);
  }

  /** A `zero_or_more` run of `whitespace_char` splits its input into whitespace and the rest. */
  lemma {:induction false} ManyWhitespace(input: string)
    requires Progress(WhitespaceChar)
    ensures var m := Many(WhitespaceChar, input);
      m.value + m.rest == input && AllWhitespace(m.value)
    decreases |input|
  {
    if WhitespaceChar(input).Ok? {
      var more := input[1..];
      ManyWhitespace(more);
      ManyWhitespaceCons(input);
    }
  }

  /**
   * `space0` (`zero_or_more` version): never fails and consumes exactly the
   * longest whitespace prefix, returning it.
   */
  function Space0(input: string): (r: PResult<seq<char>>)
    ensures r.Ok? && r.value + r.rest == input
    ensures AllWhitespace(r.value)
    ensures r.rest == [] || !IsWhitespace(r.rest[0])
  {
    WhitespaceCharProgress();
    ManyWhitespace(input);
    Many(WhitespaceChar, input)
  }

  /**
   * `space0` (`n(.., 0..)` version): never fails and consumes a whitespace
   * prefix, the longest one unless the 999999-application cap cuts it.
   */
  function BuiltinSpace0(input: string): (r: PResult<seq<char>>)
    ensures r.Ok? && r.value + r.rest == input
    ensures AllWhitespace(r.value)
    ensures |r.value| < UnboundedEnd ==> r.rest == [] || !IsWhitespace(r.rest[0])
  {
    GreedyWhitespace(UnboundedEnd, input);
    Repeat(WhitespaceChar, Range(Included(0), Unbounded), input)
  }

  /** The two versions of `space0` agree below the cap. */
  lemma Space0Agree(input: string)
    requires |Space0(input).value| <= UnboundedEnd
    ensures BuiltinSpace0(input) == Space0(input)
  {
    WhitespaceCharProgress();
    ZeroOrMoreIsN(WhitespaceChar, input);
  }

  /** Consuming the longest whitespace prefix: `space0` of `ws + tail` is `(tail, ws)`. */
  lemma {:induction false} Space0Of(ws: string, tail: string)
    requires AllWhitespace(ws)
    requires tail == [] || !IsWhitespace(tail[0])
    ensures Space0(ws + tail) == Ok(tail, ws)
    decreases |ws|
  {
    WhitespaceCharProgress();
    var s := ws + tail;
    if ws == [] {
      assert s == tail;
      assert WhitespaceChar(s).Err?;
    } else {
      assert s[0] == ws[0] && s[1..] == ws[1..] + tail;
      assert WhitespaceChar(s) == Ok(ws[1..] + tail, ws[0]);
      Space0Of(ws[1..], tail);
      var m := Many(WhitespaceChar, ws[1..] + tail);
      assert m == Ok(tail, ws[1..]);
      assert Many(WhitespaceChar, s) == Ok(m.rest, [ws[0]] + m.value);
      assert [ws[0]] + ws[1..] == ws;
    }
  }

  /**
   * `whitespace_wrap(p)`: `p`'s result with the whitespace on both sides
   * consumed. A failure of `p` is reported after the leading whitespace.
   */
  function WhitespaceWrap<A>(p: Parser<A>, input: string): (r: PResult<A>)
    ensures var s1 := Space0(input).rest;
      && (r.Ok? <==> p(s1).Ok?)
      && (p(s1).Err? ==> r == Err(p(s1).rest))
      && (p(s1).Ok? ==> r == Ok(Space0(p(s1).rest).rest, p(s1).value))
  {
    Right(Space0, (s: string) => Left(p, Space0, s), input)
  }

  /** `whitespace_wrap` keeps the suffix invariant of `p`. */
  lemma WhitespaceWrapSuffix<A>(p: Parser<A>, input: string)
    requires SuffixParser(p)
    ensures IsSuffix(WhitespaceWrap(p, input).rest, input)
  {
    var s1 := Space0(input).rest;
    assert IsSuffix(s1, input) by {
      assert input[|input| - |s1|..] == s1;
    }
    assert IsSuffix(p(s1).rest, s1);
    SuffixTransitive(p(s1).rest, s1, input);
    if p(s1).Ok? {
      var s2 := p(s1).rest;
      assert IsSuffix(Space0(s2).rest, s2) by {
        assert s2[|s2| - |Space0(s2).rest|..] == Space0(s2).rest;
      }
      SuffixTransitive(Space0(s2).rest, s2, input);
    }
  }

  /** `whitespace_wrap` built on the `n(.., 0..)` version of `space0`. */
  function BuiltinWhitespaceWrap<A>(p: Parser<A>, input: string): (r: PResult<A>)
    ensures var s1 := BuiltinSpace0(input).rest;
      && (r.Ok? <==> p(s1).Ok?)
      && (p(s1).Err? ==> r == Err(p(s1).rest))
      && (p(s1).Ok? ==> r == Ok(BuiltinSpace0(p(s1).rest).rest, p(s1).value))
  {
    Right(BuiltinSpace0, (s: string) => Left(p, BuiltinSpace0, s), input)
  }

  /** The two versions of `whitespace_wrap` agree when neither whitespace run reaches the cap. */
  lemma WhitespaceWrapAgree<A>(p: Parser<A>, input: string)
    requires |Space0(input).value| <= UnboundedEnd
    requires p(Space0(input).rest).Ok? ==> |Space0(p(Space0(input).rest).rest).value| <= UnboundedEnd
    ensures BuiltinWhitespaceWrap(p, input) == WhitespaceWrap(p, input)
  {
    Space0Agree(input);
    var s1 := Space0(input).rest;
    if p(s1).Ok? {
      Space0Agree(p(s1).rest);
    }
  }
}
