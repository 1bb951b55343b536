/**
 * Sequencing and choice: `pair`, its projections `left` and `right`,
 * ordered choice `either`, and `optional`.
 */
module Combinators {
  import opened Parser

  /**
   * `pair`: runs `p1`, then `p2` on what `p1` left. A failure of `p2` is
   * reported where `p2` stopped: the text `p1` consumed is not given back.
   */
  function Pair<A, B>(p1: Parser<A>, p2: Parser<B>, input: string): (r: PResult<(A, B)>)
    ensures r.Ok? <==> p1(input).Ok? && p2(p1(input).rest).Ok?
    ensures p1(input).Err? ==> r == Err(p1(input).rest)
    ensures p1(input).Ok? ==> r.rest == p2(p1(input).rest).rest
    ensures r.Ok? ==> r.value == (p1(input).value, p2(p1(input).rest).value)
  {
    match p1(input)
    case Ok(next, v1) =>
      (match p2(next)
       case Ok(last, v2) => Ok(last, (v1, v2))
       case Err(e) => Err(e))
    case Err(e) => Err(e)
  }

  /** `pair` keeps the suffix invariant of its two parsers. */
  lemma PairSuffix<A, B>(p1: Parser<A>, p2: Parser<B>, input: string)
    requires SuffixParser(p1) && SuffixParser(p2)
    ensures IsSuffix(Pair(p1, p2, input).rest, input)
  {
    var r1 := p1(input);
    if r1.Ok? {
      assert IsSuffix(p2(r1.rest).rest, r1.rest);
      SuffixTransitive(p2(r1.rest).rest, r1.rest, input);
    }
  }

  /**
   * `pair` is `and_then` on `p1` followed by a `map` of `p2` that pairs the
   * two values, which is how the source builds it from `Result` operations.
   */
  lemma PairIsAndThenMap<A, B>(p1: Parser<A>, p2: Parser<B>, input: string)
    ensures Pair(p1, p2, input) == AndThen(p1, (a: A) => (s: string) => Map(p2, (b: B) => (a, b), s), input)
  {
  }

  /** `left`: the value of `p1`, with the input consumed by both parsers. */
  function Left<A, B>(p1: Parser<A>, p2: Parser<B>, input: string): (r: PResult<A>)
    ensures r.Ok? <==> Pair(p1, p2, input).Ok?
    ensures r.rest == Pair(p1, p2, input).rest
    ensures r.Ok? ==> r.value == p1(input).value
  {
    Map((s: string) => Pair(p1, p2, s), (ab: (A, B)) => ab.0, input)
  }

  /** `left` stops where `pair` stops, so it keeps the suffix invariant of its two parsers. */
  lemma LeftSuffix<A, B>(p1: Parser<A>, p2: Parser<B>, input: string)
    requires SuffixParser(p1) && SuffixParser(p2)
    ensures IsSuffix(Left(p1, p2, input).rest, input)
  {
    PairSuffix(p1, p2, input);
  }

  /** `right`: the value of `p2`, with the input consumed by both parsers. */
  function Right<A, B>(p1: Parser<A>, p2: Parser<B>, input: string): (r: PResult<B>)
    ensures r.Ok? <==> Pair(p1, p2, input).Ok?
    ensures r.rest == Pair(p1, p2, input).rest
    ensures r.Ok? ==> r.value == p2(p1(input).rest).value
  {
    Map((s: string) => Pair(p1, p2, s), (ab: (A, B)) => ab.1, input)
  }

  /** `right` stops where `pair` stops, so it keeps the suffix invariant of its two parsers. */
  lemma RightSuffix<A, B>(p1: Parser<A>, p2: Parser<B>, input: string)
    requires SuffixParser(p1) && SuffixParser(p2)
    ensures IsSuffix(Right(p1, p2, input).rest, input)
  {
    PairSuffix(p1, p2, input);
  }

  /** The two projections together give back the pair. */
  lemma PairFromProjections<A, B>(p1: Parser<A>, p2: Parser<B>, input: string)
    ensures Left(p1, p2, input).Ok? <==> Right(p1, p2, input).Ok?
    ensures Left(p1, p2, input).rest == Right(p1, p2, input).rest
    ensures Left(p1, p2, input).Ok? ==>
      Pair(p1, p2, input) == Ok(Left(p1, p2, input).rest, (Left(p1, p2, input).value, Right(p1, p2, input).value))
  {
  }

  /**
   * `either`: the first parser's success wins outright; only when it fails
   * is the second parser run, on the original input.
   */
  function Either<A>(p1: Parser<A>, p2: Parser<A>, input: string): (r: PResult<A>)
    ensures r.Ok? <==> p1(input).Ok? || p2(input).Ok?
    ensures p1(input).Ok? ==> r == p1(input)
    ensures p1(input).Err? ==> r == p2(input)
  {
    match p1(input)
    case Ok(_, _) => p1(input)
    case Err(_) => p2(input)
  }

  /** Ordered choice groups either way. */
  lemma EitherAssociative<A>(p1: Parser<A>, p2: Parser<A>, p3: Parser<A>, input: string)
    ensures Either((s: string) => Either(p1, p2, s), p3, input) == Either(p1, (s: string) => Either(p2, p3, s), input)
  {
  }

  /** `either` keeps the suffix invariant of its two parsers. */
  lemma EitherSuffix<A>(p1: Parser<A>, p2: Parser<A>, input: string)
    requires SuffixParser(p1) && SuffixParser(p2)
    ensures IsSuffix(Either(p1, p2, input).rest, input)
  {
  }

  /**
   * `optional`: never fails. A success of `p` becomes `Some`; a failure
   * becomes `None` at the original input, its position discarded.
   */
  function Optional<A>(p: Parser<A>, input: string): (r: PResult<Option<A>>)
    ensures r.Ok?
    ensures p(input).Ok? ==> r == Ok(p(input).rest, Some(p(input).value))
    ensures p(input).Err? ==> r == Ok(input, None)
  {
    match p(input)
    case Ok(next, v) => Ok(next, Some(v))
    case Err(_) => Ok(input, None)
  }

  /** `optional` reports its parser's remainder or its own input, so it keeps the suffix invariant. */
  lemma OptionalSuffix<A>(p: Parser<A>, input: string)
    requires SuffixParser(p)
    ensures IsSuffix(Optional(p, input).rest, input)
  {
    assert IsSuffix(p(input).rest, input);
  }
}
