/**
 * Repetition: `n(p, range)`, bounded by a range, and the three loops
 * `zero_or_more`, `one_or_more` and `two_or_more`.
 *
 * Each loop of the source is a method here, proved equal to a function that
 * specifies it (`Repeat`, `Many`, `Many1`, `Many2`); grammar rules, being
 * functions, use those.
 */
module Repetition {
  import opened Parser

  /** One end of a range, as Rust's `std::ops::Bound` of `usize`. */
  datatype Bound = Unbounded | Included(v: nat) | Excluded(v: nat)

  /** A range argument of `n`: `2..` is `Range(Included(2), Unbounded)`, `0..3` is `Range(Included(0), Excluded(3))`. */
  datatype Range = Range(startBound: Bound, endBound: Bound)

  /** The number of applications `n` allows when the range has no end. */
  const UnboundedEnd: nat := 999999

  /** The least number of applications `n` accepts. */
  function StartOf(b: Bound): nat {
    match b
    case Unbounded => 0
    case Included(v) => v
    case Excluded(v) => v + 1
  }

  /** The number of applications `n` attempts at most. */
  function EndOf(b: Bound): nat {
    match b
    case Unbounded => UnboundedEnd
    case Included(v) => v + 1
    case Excluded(v) => v
  }

  /** Membership of a count in a range, as `RangeBounds::contains` defines it. */
  predicate Contains(range: Range, k: nat) {
    && (match range.startBound
        case Unbounded => true
        case Included(s) => s <= k
        case Excluded(s) => s < k)
    && (match range.endBound
        case Unbounded => true
        case Included(e) => k <= e
        case Excluded(e) => k < e)
  }

  /**
   * The decoded bounds describe the range: below the cap of an unbounded
   * end, a count lies in the range exactly when it is at least the start
   * and below the end.
   */
  lemma DecodedBoundsMatchRange(range: Range, k: nat)
    requires k < UnboundedEnd
    ensures Contains(range, k) <==> StartOf(range.startBound) <= k < EndOf(range.endBound)
  {
  }

  /** The remainder and the values of a run of applications. */
  datatype Run<A> = Run(rest: string, values: seq<A>)

  /**
   * Applies `p` greedily, at most `bound` times, stopping at its first
   * failure. The run stops short of `bound` only where `p` fails.
   */
  function Greedy<A>(p: Parser<A>, bound: nat, input: string): (g: Run<A>)
    ensures |g.values| <= bound
    ensures |g.values| < bound ==> p(g.rest).Err?
    decreases bound
  {
    if bound == 0 then Run(input, [])
    else
      match p(input)
      case Err(_) => Run(input, [])
      case Ok(next, v) =>
        var g := Greedy(p, bound - 1, next);
        Run(g.rest, [v] + g.values)
  }

  /** One step of a greedy run. */
  lemma GreedyStep<A>(p: Parser<A>, bound: nat, input: string)
    requires bound > 0 && p(input).Ok?
    ensures var g := Greedy(p, bound - 1, p(input).rest);
      Greedy(p, bound, input) == Run(g.rest, [p(input).value] + g.values)
  {
  }

  /** A greedy run stops where `p` fails. */
  lemma GreedyStop<A>(p: Parser<A>, bound: nat, input: string)
    requires p(input).Err?
    ensures Greedy(p, bound, input) == Run(input, [])
  {
  }

  /**
   * A chain of successes read off one after another: when `p` takes each
   * text of `texts` to the next with the values `vs`, and fails on the last,
   * a greedy run from the first text collects exactly `vs`.
   */
  lemma {:induction false} GreedyChain<A>(p: Parser<A>, texts: seq<string>, vs: seq<A>, bound: nat)
    requires |texts| == |vs| + 1 && |vs| < bound
    requires forall i :: 0 <= i < |vs| ==> p(texts[i]) == Ok(texts[i + 1], vs[i])
    requires p(texts[|vs|]).Err?
    ensures Greedy(p, bound, texts[0]) == Run(texts[|vs|], vs)
    decreases |vs|
  {
    if vs != [] {
      var later := texts[1..];
      GreedyChain(p, later, vs[1..], bound - 1);
      assert [vs[0]] + vs[1..] == vs;
    }
  }

  /**
   * Exactly `k` applications of `p` in sequence, values in application
   * order. A failure is reported at the input of the application that
   * failed: what the earlier applications consumed is not given back.
   */
  function Iterate<A>(p: Parser<A>, k: nat, input: string): PResult<seq<A>>
    decreases k
  {
    if k == 0 then Ok(input, [])
    else
      match Iterate(p, k - 1, input)
      case Err(e) => Err(e)
      case Ok(mid, vs) =>
        match p(mid)
        case Ok(next, v) => Ok(next, vs + [v])
        case Err(_) => Err(mid)
  }

  /** Peeling off the first application of `Iterate`. */
  lemma {:induction false} IterateFirst<A>(p: Parser<A>, k: nat, input: string)
    requires p(input).Ok?
    ensures Iterate(p, k + 1, input) ==
      match Iterate(p, k, p(input).rest)
      case Ok(r, vs) => Ok(r, [p(input).value] + vs)
      case Err(e) => Err(e)
  {
    var next, v := p(input).rest, p(input).value;
    if k == 0 {
      assert [] + [v] == [v] + [];
    } else {
      IterateFirst(p, k - 1, input);
      match Iterate(p, k - 1, next)
      case Err(e) =>
      case Ok(mid, vs) =>
        if p(mid).Ok? {
          assert [v] + vs + [p(mid).value] == [v] + (vs + [p(mid).value]);
        }
    }
  }

  /** When the first application fails, every positive number of applications fails there. */
  lemma {:induction false} IterateFailsAtOnce<A>(p: Parser<A>, k: nat, input: string)
    requires p(input).Err? && k > 0
    ensures Iterate(p, k, input) == Err(input)
  {
    if k > 1 {
      IterateFailsAtOnce(p, k - 1, input);
    }
  }

  /** Fewer applications succeed whenever more do. */
  lemma {:induction false} IteratePrefixOk<A>(p: Parser<A>, j: nat, k: nat, input: string)
    requires j <= k && Iterate(p, k, input).Ok?
    ensures Iterate(p, j, input).Ok?
    decreases k
  {
    if j < k {
      IteratePrefixOk(p, j, k - 1, input);
    }
  }

  /** A greedy run is the sequence of its applications, in order. */
  lemma {:induction false} GreedyIsIterate<A>(p: Parser<A>, bound: nat, input: string)
    ensures var g := Greedy(p, bound, input); Iterate(p, |g.values|, input) == Ok(g.rest, g.values)
    decreases bound
  {
    if bound > 0 && p(input).Ok? {
      var g' := Greedy(p, bound - 1, p(input).rest);
      GreedyIsIterate(p, bound - 1, p(input).rest);
      IterateFirst(p, |g'.values|, input);
    }
  }

  /**
   * A run stopped by a failure cannot be extended: any longer sequence of
   * applications fails exactly where the run stopped.
   */
  lemma {:induction false} GreedyStopsIterate<A>(p: Parser<A>, bound: nat, input: string, k: nat)
    requires |Greedy(p, bound, input).values| < bound
    requires |Greedy(p, bound, input).values| < k
    ensures Iterate(p, k, input) == Err(Greedy(p, bound, input).rest)
    decreases bound
  {
    match p(input)
    case Err(_) =>
      IterateFailsAtOnce(p, k, input);
    case Ok(next, v) =>
      GreedyStopsIterate(p, bound - 1, next, k - 1);
      IterateFirst(p, k - 1, input);
  }

  /** A greedy run of a suffix parser ends at a suffix of its input. */
  lemma {:induction false} GreedySuffix<A>(p: Parser<A>, bound: nat, input: string)
    requires SuffixParser(p)
    ensures IsSuffix(Greedy(p, bound, input).rest, input)
    decreases bound
  {
    if bound > 0 && p(input).Ok? {
      var next := p(input).rest;
      GreedySuffix(p, bound - 1, next);
      SuffixTransitive(Greedy(p, bound - 1, next).rest, next, input);
    }
  }

  /** Every value of a greedy run satisfies what every success of `p` satisfies. */
  lemma {:induction false} GreedyValues<A>(p: Parser<A>, q: A -> bool, bound: nat, input: string)
    requires forall s: string :: p(s).Ok? ==> q(p(s).value)
    ensures forall i :: 0 <= i < |Greedy(p, bound, input).values| ==> q(Greedy(p, bound, input).values[i])
    decreases bound
  {
    if bound > 0 && p(input).Ok? {
      GreedyValues(p, q, bound - 1, p(input).rest);
    }
  }

  /**
   * `n(p, range)`: applies `p` greedily up to the end of the range. Falling
   * short of the start is a failure reported at the start of the application
   * that failed: the text the earlier matches consumed is not given back, and
   * the position inside the failed application is not kept either.
   */
  function Repeat<A>(p: Parser<A>, range: Range, input: string): (r: PResult<seq<A>>)
    ensures r.Ok? ==> |r.value| <= EndOf(range.endBound)
    ensures r.Ok? ==> |r.value| >= StartOf(range.startBound) || |r.value| == EndOf(range.endBound)
    ensures r.Ok? && |r.value| < EndOf(range.endBound) ==> p(r.rest).Err?
    ensures r.Err? ==> p(r.rest).Err?
    ensures StartOf(range.startBound) == 0 ==> r.Ok?
  {
    var start, end := StartOf(range.startBound), EndOf(range.endBound);
    var g := Greedy(p, end, input);
    if |g.values| < start && |g.values| < end then Err(g.rest) else Ok(g.rest, g.values)
  }

  /**
   * What `n` returns is the sequence of its applications in order; it fails
   * exactly when `start` applications in a row fail, and then at the same
   * position.
   */
  lemma RepeatIsIterate<A>(p: Parser<A>, range: Range, input: string)
    ensures var r := Repeat(p, range, input);
      && (r.Ok? ==> Iterate(p, |r.value|, input) == r)
      && (r.Err? ==> r == Iterate(p, StartOf(range.startBound), input))
      && (StartOf(range.startBound) <= EndOf(range.endBound) ==>
            (r.Err? <==> Iterate(p, StartOf(range.startBound), input).Err?))
  {
    var start, end := StartOf(range.startBound), EndOf(range.endBound);
    var g := Greedy(p, end, input);
    GreedyIsIterate(p, end, input);
    if |g.values| < start && |g.values| < end {
      GreedyStopsIterate(p, end, input, start);
    } else if start <= end {
      IteratePrefixOk(p, start, |g.values|, input);
    }
  }

  /** With no minimum, `n` returns the whole greedy run. */
  lemma RepeatFromZero<A>(p: Parser<A>, range: Range, input: string)
    requires StartOf(range.startBound) == 0
    ensures var g := Greedy(p, EndOf(range.endBound), input);
      Repeat(p, range, input) == Ok(g.rest, g.values)
  {
  }

  /** Every value `n` returns satisfies what every success of `p` satisfies. */
  lemma RepeatValues<A>(p: Parser<A>, q: A -> bool, range: Range, input: string)
    requires forall s: string :: p(s).Ok? ==> q(p(s).value)
    ensures var r := Repeat(p, range, input);
      r.Ok? ==> forall i :: 0 <= i < |r.value| ==> q(r.value[i])
  {
    GreedyValues(p, q, EndOf(range.endBound), input);
  }

  /** `n` keeps the suffix invariant of `p`, on success and on failure. */
  lemma RepeatSuffix<A>(p: Parser<A>, range: Range, input: string)
    requires SuffixParser(p)
    ensures IsSuffix(Repeat(p, range, input).rest, input)
  {
    GreedySuffix(p, EndOf(range.endBound), input);
  }

  /** The loop of `n`, with its early return on a shortfall and its `break`. */
  method N<A>(p: Parser<A>, range: Range, input: string) returns (r: PResult<seq<A>>)
    ensures r == Repeat(p, range, input)
  {
    var start := StartOf(range.startBound);
    var end := EndOf(range.endBound);
    ghost var g := Greedy(p, end, input);
    var rest := input;
    var result: seq<A> := [];
    assert result + g.values == g.values;
    for num := 0 to end
      invariant |result| == num
      invariant Greedy(p, end - num, rest).rest == g.rest
      invariant result + Greedy(p, end - num, rest).values == g.values
    {
      match p(rest)
      case Ok(next, v) =>
        assert result + [v] + Greedy(p, end - num - 1, next).values == result + Greedy(p, end - num, rest).values;
        rest := next;
        result := result + [v];
      case Err(_) =>
        if num < start {
          return Err(rest);
        } else {
          break;
        }
    }
    assert rest == g.rest && result == g.values;
    return Ok(rest, result);
  }

  /**
   * `zero_or_more`: applies `p` until it first fails. Terminates only
   * because every success of `p` consumes input.
   */
  function Many<A>(p: Parser<A>, input: string): (r: PResult<seq<A>>)
    requires Progress(p)
    ensures r.Ok?
    ensures p(r.rest).Err?
    decreases |input|
  {
    match p(input)
    case Err(_) => Ok(input, [])
    case Ok(next, v) =>
      var m := Many(p, next);
      Ok(m.rest, [v] + m.value)
  }

  /** One step of `zero_or_more`. */
  lemma ManyStep<A>(p: Parser<A>, input: string)
    requires Progress(p) && p(input).Ok?
    ensures var m := Many(p, p(input).rest);
      Many(p, input) == Ok(m.rest, [p(input).value] + m.value)
  {
  }

  /** `zero_or_more` of a suffix parser ends at a suffix of its input. */
  lemma {:induction false} ManySuffix<A>(p: Parser<A>, input: string)
    requires Progress(p) && SuffixParser(p)
    ensures IsSuffix(Many(p, input).rest, input)
    decreases |input|
  {
    if p(input).Ok? {
      var next := p(input).rest;
      ManySuffix(p, next);
      SuffixTransitive(Many(p, next).rest, next, input);
    }
  }

  /** Below the cap, `zero_or_more` and a greedy run agree. */
  lemma {:induction false} ManyIsGreedy<A>(p: Parser<A>, bound: nat, input: string)
    requires Progress(p)
    requires |Many(p, input).value| <= bound
    ensures Greedy(p, bound, input) == Run(Many(p, input).rest, Many(p, input).value)
    decreases |input|
  {
    if p(input).Ok? {
      ManyIsGreedy(p, bound - 1, p(input).rest);
    }
  }

  /** `zero_or_more` is `n(p, 0..)` whenever at most 999999 matches follow. */
  lemma ZeroOrMoreIsN<A>(p: Parser<A>, input: string)
    requires Progress(p)
    requires |Many(p, input).value| <= UnboundedEnd
    ensures Many(p, input) == Repeat(p, Range(Included(0), Unbounded), input)
  {
    ManyIsGreedy(p, UnboundedEnd, input);
  }

  /** The `while let` loop of `zero_or_more`. */
  method ZeroOrMore<A>(p: Parser<A>, input: string) returns (r: PResult<seq<A>>)
    requires Progress(p)
    ensures r == Many(p, input)
  {
    var rest := input;
    var result: seq<A> := [];
    var next := p(rest);
    assert result + Many(p, rest).value == Many(p, rest).value;
    while next.Ok?
      invariant next == p(rest)
      invariant Many(p, input) == (var m := Many(p, rest); Ok(m.rest, result + m.value))
      decreases |rest|
    {
      ghost var m := Many(p, next.rest);
      assert result + [next.value] + m.value == result + ([next.value] + m.value);
      rest := next.rest;
      result := result + [next.value];
      next := p(rest);
    }
    assert result + Many(p, rest).value == result;
    r := Ok(rest, result);
  }

  /** `one_or_more`: fails at the original input unless `p` succeeds at least once. */
  function Many1<A>(p: Parser<A>, input: string): (r: PResult<seq<A>>)
    requires Progress(p)
    ensures r.Ok? <==> p(input).Ok?
    ensures r.Err? ==> r.rest == input
    ensures r.Ok? ==> |r.value| >= 1 && p(r.rest).Err?
  {
    match p(input)
    case Err(_) => Err(input)
    case Ok(next, v) =>
      var m := Many(p, next);
      Ok(m.rest, [v] + m.value)
  }

  /** `one_or_more` of a suffix parser reports suffixes of its input, on success and on failure. */
  lemma Many1Suffix<A>(p: Parser<A>, input: string)
    requires Progress(p) && SuffixParser(p)
    ensures IsSuffix(Many1(p, input).rest, input)
  {
    match p(input)
    case Err(_) =>
    case Ok(next, _) =>
      ManySuffix(p, next);
      SuffixTransitive(Many(p, next).rest, next, input);
  }

  /** `one_or_more` is `n(p, 1..)` whenever at most 999999 matches follow. */
  lemma OneOrMoreIsN<A>(p: Parser<A>, input: string)
    requires Progress(p)
    requires |Many(p, input).value| <= UnboundedEnd
    ensures Many1(p, input) == Repeat(p, Range(Included(1), Unbounded), input)
  {
    ManyIsGreedy(p, UnboundedEnd, input);
  }

  /** The first application and then the `while let` loop of `one_or_more`. */
  method OneOrMore<A>(p: Parser<A>, input: string) returns (r: PResult<seq<A>>)
    requires Progress(p)
    ensures r == Many1(p, input)
  {
    var rest := input;
    var result: seq<A> := [];
    var first := p(rest);
    if first.Ok? {
      rest := first.rest;
      result := result + [first.value];
    } else {
      return Err(rest);
    }
    var tail := ZeroOrMore(p, rest);
    assert result + tail.value == [first.value] + tail.value;
    r := Ok(tail.rest, result + tail.value);
  }

  /**
   * `two_or_more`: fails at the original input when `p` fails at once, and
   * after the first match when `p` succeeds only once.
   */
  function Many2<A>(p: Parser<A>, input: string): (r: PResult<seq<A>>)
    requires Progress(p)
    ensures r.Ok? <==> p(input).Ok? && p(p(input).rest).Ok?
    ensures p(input).Err? ==> r == Err(input)
    ensures p(input).Ok? && p(p(input).rest).Err? ==> r == Err(p(input).rest)
    ensures r.Ok? ==> |r.value| >= 2 && p(r.rest).Err?
  {
    match p(input)
    case Err(_) => Err(input)
    case Ok(next1, v1) =>
      match p(next1)
      case Err(_) => Err(next1)
      case Ok(next2, v2) =>
        var m := Many(p, next2);
        Ok(m.rest, [v1, v2] + m.value)
  }

  /** `two_or_more` of a suffix parser reports suffixes of its input, on success and on failure. */
  lemma Many2Suffix<A>(p: Parser<A>, input: string)
    requires Progress(p) && SuffixParser(p)
    ensures IsSuffix(Many2(p, input).rest, input)
  {
    match p(input)
    case Err(_) =>
    case Ok(next1, _) =>
      assert IsSuffix(next1, input);
      match p(next1)
      case Err(_) =>
      case Ok(next2, _) =>
        assert IsSuffix(next2, next1);
        ManySuffix(p, next2);
        SuffixTransitive(Many(p, next2).rest, next2, next1);
        SuffixTransitive(Many(p, next2).rest, next1, input);
  }

  /** `two_or_more` is `n(p, 2..)` whenever at most 999999 matches follow. */
  lemma TwoOrMoreIsN<A>(p: Parser<A>, input: string)
    requires Progress(p)
    requires |Many(p, input).value| <= UnboundedEnd
    ensures Many2(p, input) == Repeat(p, Range(Included(2), Unbounded), input)
  {
    ManyIsGreedy(p, UnboundedEnd, input);
    if p(input).Ok? {
      var next1 := p(input).rest;
      if p(next1).Ok? {
        var next2 := p(next1).rest;
        assert Many(p, input).value == [p(input).value] + ([p(next1).value] + Many(p, next2).value);
        assert [p(input).value] + ([p(next1).value] + Many(p, next2).value)
            == [p(input).value, p(next1).value] + Many(p, next2).value;
      } else {
        assert Many(p, next1) == Ok(next1, []);
      }
    }
  }

  /** The two guarded applications and then the `while let` loop of `two_or_more`. */
  method TwoOrMore<A>(p: Parser<A>, input: string) returns (r: PResult<seq<A>>)
    requires Progress(p)
    ensures r == Many2(p, input)
  {
    var rest := input;
    var result: seq<A> := [];
    var first := p(rest);
    if first.Ok? {
      rest := first.rest;
      result := result + [first.value];
    } else {
      return Err(rest);
    }
    var second := p(rest);
    if second.Ok? {
      rest := second.rest;
      result := result + [second.value];
    } else {
      return Err(rest);
    }
    var tail := ZeroOrMore(p, rest);
    assert result + tail.value == [first.value, second.value] + tail.value;
    r := Ok(tail.rest, result + tail.value);
  }
}
