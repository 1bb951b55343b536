/**
 * Error localisation: where a failed parse stopped, as a line and column,
 * and a short window of the source around the failing character.
 *
 * The source passes the whole text and the unconsumed remainder; only the
 * remainder's length is used, so the failure offset is
 * `|source| - |remaining|`. Offsets count characters, one per unit.
 *
 * `ParseErrorContextAsWritten` follows the source exactly, including the
 * cases in which it panics (reported here as `None`). `ParseErrorContext`
 * clamps the end of the after-window to the end of the source instead of
 * to the index of its last character, which removes the panic for a
 * failure at the last character.
 */
module ErrorContext {
  import opened Parser

  /** Text shown between the before-window and the failing character. */
  const ErrorMarker: string := " !ERROR-> "

  /** Width of the context window on each side of the failing character. */
  const Radius: nat := 20

  /** Line and column of a failure, and the context window around it. */
  datatype ErrorReport = ErrorReport(line: nat, col: nat, context: string)

  /** The number of line feeds in `text`: its multiplicity of `'\n'`. */
  function CountNewlines(text: string): (n: nat)
    ensures n == multiset(text)['\n']
    ensures n == 0 <==> '\n' !in text
  {
    if text == [] then 0
    else
      var init := text[..|text| - 1];
      assert text == init + [text[|text| - 1]];
      CountNewlines(init) + (if text[|text| - 1] == '\n' then 1 else 0)
  }

  /**
   * The length of the last line of `text`: the characters after its last
   * line feed, or all of it when there is none.
   */
  function LastLineLength(text: string): (col: nat)
    ensures col <= |text|
    ensures forall i :: |text| - col <= i < |text| ==> text[i] != '\n'
    ensures col < |text| ==> text[|text| - col - 1] == '\n'
  {
    if text == [] then 0
    else if text[|text| - 1] == '\n' then 0
    else LastLineLength(text[..|text| - 1]) + 1
  }

  /**
   * `get_text_coordinates`: the loop over the characters of `text`. A line
   * feed starts a new line at column 0; any other character moves one
   * column right. Lines count from 1, columns from 0.
   */
  method GetTextCoordinates(text: string) returns (line: nat, col: nat)
    ensures line == 1 + CountNewlines(text)
    ensures col == LastLineLength(text)
  {
    line, col := 1, 0;
    for i := 0 to |text|
      invariant line == 1 + CountNewlines(text[..i])
      invariant col == LastLineLength(text[..i])
    {
      assert text[..i + 1][..i] == text[..i];
      if text[i] == '\n' {
        col := 0;
        line := line + 1;
      } else {
        col := col + 1;
      }
    }
    assert text[..|text|] == text;
  }

  /** Line feeds add up over a concatenation. */
  lemma CountNewlinesAppend(a: string, b: string)
    ensures CountNewlines(a + b) == CountNewlines(a) + CountNewlines(b)
  {
    assert multiset(a + b) == multiset(a) + multiset(b);
  }

  /**
   * The last line of `a + b` is the last line of `b` when `b` holds a line
   * feed, and otherwise the last line of `a` continued by all of `b`.
   */
  lemma {:induction false} LastLineLengthAppend(a: string, b: string)
    ensures LastLineLength(a + b) ==
      if '\n' in b then LastLineLength(b) else LastLineLength(a) + |b|
    decreases |b|
  {
    if b != [] {
      var init := b[..|b| - 1];
      assert (a + b)[..|a + b| - 1] == a + init;
      assert b == init + [b[|b| - 1]];
      LastLineLengthAppend(a, init);
    } else {
      assert a + b == a;
    }
  }

  /** The before-window starts `Radius` characters back, or at the start of the source. */
  function BeforeStart(pos: nat): (start: nat)
    ensures start <= pos && pos - start <= Radius
    ensures pos - start == Radius || start == 0
  {
    // `min(max(20, pos) - 20, pos)`, written with the same operations.
    var m := if Radius < pos then pos else Radius;
    if m - Radius < pos then m - Radius else pos
  }

  /**
   * `get_parse_error_context` as written. `None` stands for its three
   * panics: a remainder longer than the source (the subtraction of lengths
   * underflows), an empty remainder (the failing character is indexed past
   * the end) and a one-character remainder (the after-window's start lies
   * past its end, because the end is clamped to the index of the last
   * character).
   */
  function ParseErrorContextAsWritten(source: string, remaining: string): (r: Option<ErrorReport>)
    ensures r.Some? <==> 2 <= |remaining| <= |source|
    ensures r.Some? ==>
      var pos := |source| - |remaining|;
      && r.value.line == 1 + CountNewlines(source[..pos])
      && r.value.col == LastLineLength(source[..pos])
      && r.value.context == source[BeforeStart(pos)..pos] + ErrorMarker + [source[pos]]
           + source[pos + 1..pos + 1 + Min(|remaining| - 2, Radius - 1)]
  {
    if |remaining| > |source| then None
    else
      var pos := |source| - |remaining|;
      if pos >= |source| then None
      else
        var afterEnd := Min(|source| - 1, pos + Radius);
        if pos + 1 > afterEnd then None
        else
          var before := source[BeforeStart(pos)..pos];
          var after := source[pos + 1..afterEnd];
          assert afterEnd == pos + 1 + Min(|remaining| - 2, Radius - 1);
          Some(ErrorReport(
            1 + CountNewlines(source[..pos]),
            LastLineLength(source[..pos]),
            before + ErrorMarker + [source[pos]] + after))
  }

  /**
   * `get_parse_error_context` with the after-window clamped to the end of
   * the source: it reports every failure at a character of the source, the
   * last one included, and shows up to `Radius - 1` characters after it.
   */
  function ParseErrorContext(source: string, remaining: string): (r: Option<ErrorReport>)
    ensures r.Some? <==> 1 <= |remaining| <= |source|
    ensures r.Some? ==>
      var pos := |source| - |remaining|;
      && r.value.line == 1 + CountNewlines(source[..pos])
      && r.value.col == LastLineLength(source[..pos])
      && r.value.context == source[BeforeStart(pos)..pos] + ErrorMarker + [source[pos]]
           + source[pos + 1..pos + 1 + Min(|remaining| - 1, Radius - 1)]
  {
    if |remaining| > |source| || |remaining| == 0 then None
    else
      var pos := |source| - |remaining|;
      var afterEnd := Min(|source|, pos + Radius);
      var before := source[BeforeStart(pos)..pos];
      var after := source[pos + 1..afterEnd];
      assert afterEnd == pos + 1 + Min(|remaining| - 1, Radius - 1);
      Some(ErrorReport(
        1 + CountNewlines(source[..pos]),
        LastLineLength(source[..pos]),
        before + ErrorMarker + [source[pos]] + after))
  }

  function Min(a: int, b: int): int {
    if a < b then a else b
  }

  /**
   * When the remainder is what the parser left of the source, the failing
   * character shown is the first character of the remainder, and the
   * coordinates are those of the text the parser consumed.
   */
  lemma ErrorCharIsRemainderHead(source: string, remaining: string)
    requires IsSuffix(remaining, source) && remaining != []
    ensures var pos := |source| - |remaining|;
      && source[pos] == remaining[0]
      && source[..pos] + remaining == source
  {
    var pos := |source| - |remaining|;
    assert source[pos..] == remaining;
    assert source[..pos] + source[pos..] == source;
  }

  /**
   * The two versions agree exactly when at least `Radius + 1` characters
   * remain; closer to the end, the written version drops the last character
   * of the source from the window.
   */
  lemma AsWrittenAgreesFarFromEnd(source: string, remaining: string)
    requires 2 <= |remaining| <= |source|
    ensures ParseErrorContextAsWritten(source, remaining) == ParseErrorContext(source, remaining)
      <==> |remaining| > Radius
  {
    var a := ParseErrorContextAsWritten(source, remaining).value.context;
    var c := ParseErrorContext(source, remaining).value.context;
    if |remaining| <= Radius {
      assert |a| + 1 == |c|;
    }
  }

  /** A failure at the last character: the written version panics, the corrected one reports it. */
  lemma FailureAtLastCharacter()
    ensures ParseErrorContextAsWritten("x", "x") == None
    ensures ParseErrorContext("x", "x") == Some(ErrorReport(1, 0, " !ERROR-> x"))
  {
    assert "x"[..0] == [];
    assert "x"[1..1] == [];
    assert CountNewlines([]) == 0 && LastLineLength([]) == 0;
    assert [] + ErrorMarker + ['x'] + [] == " !ERROR-> x";
  }
}
