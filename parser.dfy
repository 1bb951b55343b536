/**
 * The parse result type and the three derived combinators of the parser
 * trait: `map`, `and_then` and `pred`.
 *
 * A parser is a total function from the input text to a result. A success
 * carries the unconsumed remainder and a value; a failure carries the text
 * at which the parse stopped. Both forms expose the remainder as `rest`.
 */
module Parser {

  datatype PResult<+A> = Ok(rest: string, value: A) | Err(rest: string)

  datatype Option<+T> = None | Some(value: T)

  type Parser<A> = string -> PResult<A>

  /** `r` is a suffix of `s`: what is left after dropping a prefix of `s`. */
  predicate IsSuffix(r: string, s: string) {
    |r| <= |s| && r == s[|s| - |r|..]
  }

  /** Every remainder the parser reports, on success or failure, is a suffix of its input. */
  ghost predicate SuffixParser<A>(p: Parser<A>) {
    forall s: string :: IsSuffix(p(s).rest, s)
  }

  /** A successful parse always consumes at least one character. */
  ghost predicate Progress<A>(p: Parser<A>) {
    forall s: string :: p(s).Ok? ==> |p(s).rest| < |s|
  }

  lemma SuffixTransitive(r: string, m: string, s: string)
    requires IsSuffix(r, m) && IsSuffix(m, s)
    ensures IsSuffix(r, s)
  {
    assert s[|s| - |m|..][|m| - |r|..] == s[|s| - |r|..];
  }

  /** `map`: transforms the value of a success; a failure passes through unchanged. */
  function Map<A, B>(p: Parser<A>, f: A -> B, input: string): (r: PResult<B>)
    ensures r.Ok? <==> p(input).Ok?
    ensures r.rest == p(input).rest
    ensures r.Ok? ==> r.value == f(p(input).value)
  {
    match p(input)
    case Ok(rest, v) => Ok(rest, f(v))
    case Err(rest) => Err(rest)
  }

  /** `map` reports the remainder of its parser, so it keeps the suffix invariant. */
  lemma MapSuffix<A, B>(p: Parser<A>, f: A -> B, input: string)
    requires SuffixParser(p)
    ensures IsSuffix(Map(p, f, input).rest, input)
  {
    assert IsSuffix(p(input).rest, input);
  }

  /**
   * `and_then`: runs `p`, builds the next parser from its value and runs it
   * on `p`'s remainder. Nothing is rewound when the second parser fails.
   */
  function AndThen<A, B>(p: Parser<A>, f: A -> Parser<B>, input: string): (r: PResult<B>)
    ensures p(input).Err? ==> r == Err(p(input).rest)
    ensures p(input).Ok? ==> r == f(p(input).value)(p(input).rest)
  {
    match p(input)
    case Ok(next, v) => f(v)(next)
    case Err(rest) => Err(rest)
  }

  /** When `p` and every parser `f` can build report suffixes, so does `and_then`. */
  lemma AndThenSuffix<A, B>(p: Parser<A>, f: A -> Parser<B>, input: string)
    requires SuffixParser(p) && forall a :: SuffixParser(f(a))
    ensures IsSuffix(AndThen(p, f, input).rest, input)
  {
    match p(input)
    case Ok(next, v) =>
      assert IsSuffix(f(v)(next).rest, next);
      SuffixTransitive(f(v)(next).rest, next, input);
    case Err(_) =>
  }

  /**
   * `pred`: keeps a success of `p` only when its value satisfies `f`;
   * otherwise fails at the original input, consuming nothing.
   */
  function Pred<A>(p: Parser<A>, f: A -> bool, input: string): (r: PResult<A>)
    ensures r.Ok? <==> p(input).Ok? && f(p(input).value)
    ensures r.Ok? ==> r == p(input)
    ensures r.Err? ==> r.rest == input
  {
    match p(input)
    case Ok(next, v) => if f(v) then Ok(next, v) else Err(input)
    case Err(_) => Err(input)
  }

  /** `pred` reports either its parser's remainder or its own input, so it keeps the suffix invariant. */
  lemma PredSuffix<A>(p: Parser<A>, f: A -> bool, input: string)
    requires SuffixParser(p)
    ensures IsSuffix(Pred(p, f, input).rest, input)
  {
    assert IsSuffix(p(input).rest, input);
  }
}
