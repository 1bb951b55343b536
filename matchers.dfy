/**
 * The two primitive matchers: `literal`, which matches a fixed text at the
 * start of the input, and `any_char`, which takes one character.
 */
module Matchers {
  import opened Parser

  /**
   * `literal(expected)`: succeeds exactly when the input starts with
   * `expected`, dropping it; otherwise fails at the unchanged input.
   */
  function Literal(expected: string, input: string): (r: PResult<()>)
    ensures r.Ok? <==> expected <= input
    ensures r.Ok? ==> expected + r.rest == input
    ensures r.Err? ==> r.rest == input
  {
    if |expected| <= |input| && input[..|expected|] == expected then
      assert input == expected + input[|expected|..];
      Ok(input[|expected|..], ())
    else
      Err(input)
  }

  /** `literal` never reports anything but a suffix of its input. */
  lemma LiteralIsSuffixParser(expected: string)
    ensures SuffixParser(s => Literal(expected, s))
  {
    forall s: string ensures IsSuffix(Literal(expected, s).rest, s) {
      var r := Literal(expected, s);
      if r.Ok? {
        assert s == expected + r.rest;
        assert s[|s| - |r.rest|..] == r.rest;
      }
    }
  }

  /** `any_char`: takes the first character, or fails at the empty input. */
  function AnyChar(input: string): (r: PResult<char>)
    ensures r.Ok? <==> |input| > 0
    ensures r.Ok? ==> [r.value] + r.rest == input
    ensures r.Err? ==> r.rest == input
  {
    if |input| > 0 then
      assert input == [input[0]] + input[1..];
      Ok(input[1..], input[0])
    else
      Err(input)
  }

  /** `any_char` never reports anything but a suffix of its input, and consumes on success. */
  lemma AnyCharIsSuffixParser()
    ensures SuffixParser(AnyChar)
    ensures Progress(AnyChar)
  {
    forall s: string ensures IsSuffix(AnyChar(s).rest, s) && (AnyChar(s).Ok? ==> |AnyChar(s).rest| < |s|) {
      if |s| > 0 {
        assert s[|s| - |s[1..]|..] == s[1..];
      }
    }
  }
}
