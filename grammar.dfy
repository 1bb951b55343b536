/**
 * The job grammar: processes with their `?` (on success) and `:` (on
 * failure) successors and `@` log monitors, bracketed groups of concurrent
 * processes, tasks and jobs.
 *
 *   job         := (ws task ws)*
 *   task        := concurrent | single
 *   concurrent  := ws "[" ws single single single* ws "]" ws
 *   single      := ws name predicate ";" ws monitor*
 *   predicate   := (ws "?" ws name)? (ws ":" ws name)?
 *   monitor     := ws "@" name ws
 */
module JobGrammar {
  import opened Parser
  import opened Matchers
  import opened Combinators
  import opened Repetition
  import opened Whitespace

  /** A process to run, what to run after it succeeds or fails, and the monitors on its log. */
  datatype Process = Process(logMonitors: seq<string>, name: string, onfail: Option<string>, onsucceed: Option<string>)

  /** Processes run together: one process, or a bracketed group of them. */
  datatype Task = Task(processes: seq<Process>)

  /** Tasks run one after the other. */
  datatype Job = Job(tasks: seq<Task>)

  predicate IsAsciiAlphanumeric(c: char) {
    'a' <= c <= 'z' || 'A' <= c <= 'Z' || '0' <= c <= '9'
  }

  /** A character a process name may contain. */
  predicate IsNameChar(c: char) {
    IsAsciiAlphanumeric(c) || c == '-' || c == '_'
  }

  predicate AllNameChars(s: string) {
    forall i :: 0 <= i < |s| ==> IsNameChar(s[i])
  }

  /** A name character in front of a name, and the rest of the text after it. */
  lemma NameCharsCons(input: string, name: string, rest: string)
    requires input != [] && IsNameChar(input[0])
    requires name + rest == input[1..] && AllNameChars(name)
    ensures [input[0]] + name + rest == input && AllNameChars([input[0]] + name)
  {
    assert input == [input[0]] + input[1..];
  }

  /**
   * `process_name`: never fails; takes the longest prefix of name
   * characters, which may be empty.
   */
  function ProcessName(input: string): (r: PResult<string>)
    ensures r.Ok? && r.value + r.rest == input
    ensures AllNameChars(r.value)
    ensures r.rest == [] || !IsNameChar(r.rest[0])
    decreases |input|
  {
    if |input| > 0 && IsNameChar(input[0]) then
      var t := ProcessName(input[1..]);
      NameCharsCons(input, t.value, t.rest);
      Ok(t.rest, [input[0]] + t.value)
    else
      Ok(input, [])
  }

  /** The longest name prefix is unique: a name followed by a non-name character parses as that name. */
  lemma {:induction false} ProcessNameOf(name: string, tail: string)
    requires AllNameChars(name)
    requires tail == [] || !IsNameChar(tail[0])
    ensures ProcessName(name + tail) == Ok(tail, name)
    decreases |name|
  {
    var s := name + tail;
    if name == [] {
      assert s == tail;
    } else {
      assert s[0] == name[0] && s[1..] == name[1..] + tail;
      ProcessNameOf(name[1..], tail);
      assert [name[0]] + name[1..] == name;
    }
  }

  /** The character loop of `process_name`, which stops at the first character that is not a name character. */
  method ScanProcessName(input: string) returns (r: PResult<string>)
    ensures r == ProcessName(input)
  {
    var matched: string := [];
    var i := 0;
    while i < |input|
      invariant i <= |input| && matched == input[..i]
      invariant AllNameChars(matched)
    {
      var next := input[i];
      if IsNameChar(next) {
        matched := matched + [next];
        i := i + 1;
      } else {
        break;
      }
    }
    var nextIndex := |matched|;
    assert input == matched + input[nextIndex..];
    ProcessNameOf(matched, input[nextIndex..]);
    r := Ok(input[nextIndex..], matched);
  }

  /**
   * A successor clause: `mark` after optional whitespace, then optional
   * whitespace and a name. Without the mark it fails after the leading
   * whitespace.
   */
  function Successor(mark: string, input: string): (r: PResult<string>)
    ensures var s1 := Space0(input).rest;
      && (r.Ok? <==> mark <= s1)
      && (r.Err? ==> r.rest == s1)
      && (r.Ok? ==> r == ProcessName(Space0(s1[|mark|..]).rest))
  {
    Right((s: string) => WhitespaceWrap((s': string) => Literal(mark, s'), s), ProcessName, input)
  }

  /** `onsucceed`: the successor clause marked by `?`. */
  function OnSucceed(input: string): (r: PResult<string>)
    ensures var s1 := Space0(input).rest;
      && (r.Ok? <==> "?" <= s1)
      && (r.Err? ==> r.rest == s1)
      && (r.Ok? ==> r == ProcessName(Space0(s1[1..]).rest))
  {
    Successor("?", input)
  }

  /** `onfail`: the successor clause marked by `:`. */
  function OnFail(input: string): (r: PResult<string>)
    ensures var s1 := Space0(input).rest;
      && (r.Ok? <==> ":" <= s1)
      && (r.Err? ==> r.rest == s1)
      && (r.Ok? ==> r == ProcessName(Space0(s1[1..]).rest))
  {
    Successor(":", input)
  }

  /** Where a parse that may be skipped leaves the input. */
  function After<A>(r: PResult<A>, input: string): string {
    if r.Ok? then r.rest else input
  }

  function ValueOf<A>(r: PResult<A>): Option<A> {
    if r.Ok? then Some(r.value) else None
  }

  /**
   * `process_predicate`: never fails; an optional `onsucceed` followed by
   * an optional `onfail`, each independent of the other, in that order.
   */
  function ProcessPredicate(input: string): (r: PResult<(Option<string>, Option<string>)>)
    ensures r.Ok?
    ensures r.value.0 == ValueOf(OnSucceed(input))
    ensures var s := After(OnSucceed(input), input);
      r.value.1 == ValueOf(OnFail(s)) && r.rest == After(OnFail(s), s)
  {
    Pair((s: string) => Optional(OnSucceed, s), (s: string) => Optional(OnFail, s), input)
  }

  /**
   * `terminating_semicolon(p)`: `p` immediately followed by `;`, with no
   * whitespace allowed in between. Either failure is reported where `p`
   * stopped.
   */
  function TerminatingSemicolon<A>(p: Parser<A>, input: string): (r: PResult<A>)
    ensures r.Ok? <==> p(input).Ok? && ";" <= p(input).rest
    ensures r.Ok? ==> r.value == p(input).value && ";" + r.rest == p(input).rest
    ensures r.Err? ==> r.rest == p(input).rest
  {
    Left(p, (s: string) => Literal(";", s), input)
  }

  /** The result of `process_without_log_monitors`: always exactly one process. */
  type OneProcess = s: seq<Process> | |s| == 1 witness [Process([], [], None, None)]

  function NewProcess(np: (string, (Option<string>, Option<string>))): OneProcess {
    [Process([], np.0, np.1.1, np.1.0)]
  }

  /**
   * `process_without_log_monitors`: a name, its predicate and the
   * terminating `;`, with whitespace around; yields one process with no
   * log monitors.
   */
  function ProcessWithoutLogMonitors(input: string): (r: PResult<OneProcess>)
    ensures var s1 := Space0(input).rest;
      var n := ProcessName(s1);
      var pr := ProcessPredicate(n.rest);
      && (r.Ok? <==> ";" <= pr.rest)
      && (r.Err? ==> r.rest == pr.rest)
      && (r.Ok? ==> r.value[0] == Process([], n.value, pr.value.1, pr.value.0) && r.rest == Space0(pr.rest[1..]).rest)
  {
    WhitespaceWrap(
      (s: string) => Map(
        (s': string) => TerminatingSemicolon((s'': string) => Pair(ProcessName, ProcessPredicate, s''), s'),
        NewProcess, s),
      input)
  }

  /** One log monitor: `@` and a name, with whitespace around. */
  function LogMonitor(input: string): (r: PResult<string>)
    ensures var s1 := Space0(input).rest;
      && (r.Ok? <==> "@" <= s1)
      && (r.Err? ==> r.rest == s1)
      && (r.Ok? ==> r.value == ProcessName(s1[1..]).value && r.rest == Space0(ProcessName(s1[1..]).rest).rest)
  {
    WhitespaceWrap((s: string) => Right((s': string) => Literal("@", s'), ProcessName, s), input)
  }

  /**
   * `log_monitors`: never fails; the `@name` tokens in source order, up to
   * the first position where no further one follows.
   */
  function LogMonitors(input: string): (r: PResult<seq<string>>)
    ensures r.Ok?
    ensures |r.value| < UnboundedEnd ==> !("@" <= Space0(r.rest).rest)
  {
    Repeat(LogMonitor, Range(Included(0), Unbounded), input)
  }

  function AttachMonitors(pm: (OneProcess, seq<string>)): seq<Process> {
    [pm.0[0].(logMonitors := pm.1)]
  }

  /**
   * `single_process`: one process, with the log monitors that follow its
   * `;`. The value always holds exactly one process, so the source's
   * fallback for an empty list is unreachable.
   */
  function SingleProcess(input: string): (r: PResult<seq<Process>>)
    ensures r.Ok? <==> ProcessWithoutLogMonitors(input).Ok?
    ensures r.Err? ==> r.rest == ProcessWithoutLogMonitors(input).rest
    ensures r.Ok? ==>
      var pw := ProcessWithoutLogMonitors(input);
      var lm := LogMonitors(pw.rest);
      && |r.value| == 1
      && r.value[0] == pw.value[0].(logMonitors := lm.value)
      && r.rest == lm.rest
  {
    Map((s: string) => Pair(ProcessWithoutLogMonitors, LogMonitors, s), AttachMonitors, input)
  }

  /** The concatenation of a sequence of sequences. */
  function Flatten<T>(xss: seq<seq<T>>): (r: seq<T>)
    ensures (forall i :: 0 <= i < |xss| ==> |xss[i]| == 1) ==>
      |r| == |xss| && forall i :: 0 <= i < |xss| ==> r[i] == xss[i][0]
  {
    if xss == [] then [] else xss[0] + Flatten(xss[1..])
  }

  /** Every success of `single_process` holds exactly one process. */
  lemma SingleProcessIsOne()
    ensures forall s: string :: SingleProcess(s).Ok? ==> |SingleProcess(s).value| == 1
  {
  }

  /** Repeated `single_process` collects one-process lists only. */
  lemma RepeatSingles(range: Range, input: string)
    ensures var r := Repeat(SingleProcess, range, input);
      r.Ok? ==> forall i :: 0 <= i < |r.value| ==> |r.value[i]| == 1
  {
    SingleProcessIsOne();
    RepeatValues(SingleProcess, (ps: seq<Process>) => |ps| == 1, range, input);
  }

  /** The processes of a group: `single_process` two or more times. */
  function GroupMembers(input: string): (r: PResult<seq<seq<Process>>>)
    ensures r.Ok? ==> |r.value| >= 2 && forall i :: 0 <= i < |r.value| ==> |r.value[i]| == 1
  {
    RepeatSingles(Range(Included(2), Unbounded), input);
    Repeat(SingleProcess, Range(Included(2), Unbounded), input)
  }

  /** A bracket with whitespace around it. */
  function Bracket(b: string, input: string): (r: PResult<()>)
    ensures var s1 := Space0(input).rest;
      && (r.Ok? <==> b <= s1)
      && (r.Err? ==> r.rest == s1)
      && (r.Ok? ==> r.rest == Space0(s1[|b|..]).rest)
  {
    WhitespaceWrap((s: string) => Literal(b, s), input)
  }

  /** The members of a group and its closing bracket. */
  function GroupBody(input: string): (r: PResult<seq<Process>>)
    ensures var g := GroupMembers(input);
      && (g.Err? ==> r == Err(g.rest))
      && (g.Ok? ==> (r.Ok? <==> "]" <= Space0(g.rest).rest))
      && (g.Ok? && r.Err? ==> r.rest == Space0(g.rest).rest)
      && (r.Ok? ==>
            && |r.value| == |g.value| >= 2
            && (forall i :: 0 <= i < |g.value| ==> r.value[i] == g.value[i][0])
            && r.rest == Space0(Space0(g.rest).rest[1..]).rest)
  {
    Left((s: string) => Map(GroupMembers, Flatten, s), (s: string) => Bracket("]", s), input)
  }

  /**
   * `concurrent_processes`: `[`, two or more single processes, `]`, with
   * whitespace around the brackets. The processes come in source order,
   * one per `single_process`.
   */
  function ConcurrentProcesses(input: string): (r: PResult<seq<Process>>)
    ensures var s1 := Space0(input).rest;
      && (!("[" <= s1) ==> r == Err(s1))
      && ("[" <= s1 ==>
            var g := GroupMembers(Space0(s1[1..]).rest);
            && (g.Err? ==> r == Err(g.rest))
            && (g.Ok? ==> (r.Ok? <==> "]" <= Space0(g.rest).rest))
            && (g.Ok? && r.Err? ==> r.rest == Space0(g.rest).rest)
            && (r.Ok? ==>
                  && |r.value| == |g.value| >= 2
                  && (forall i :: 0 <= i < |g.value| ==> r.value[i] == g.value[i][0])
                  && r.rest == Space0(Space0(g.rest).rest[1..]).rest))
  {
    Right((s: string) => Bracket("[", s), GroupBody, input)
  }

  /**
   * `task`: a bracketed group if one parses, otherwise a single process
   * from the same input; the processes are kept unchanged.
   */
  function ParseTask(input: string): (r: PResult<Task>)
    ensures r.Ok? <==> ConcurrentProcesses(input).Ok? || SingleProcess(input).Ok?
    ensures ConcurrentProcesses(input).Ok? ==>
      r == Ok(ConcurrentProcesses(input).rest, Task(ConcurrentProcesses(input).value))
    ensures ConcurrentProcesses(input).Err? ==>
      r.rest == SingleProcess(input).rest && (r.Ok? ==> r.value == Task(SingleProcess(input).value))
    ensures r.Ok? ==> |r.value.processes| >= 1
  {
    Map((s: string) => Either(ConcurrentProcesses, SingleProcess, s), (ps: seq<Process>) => Task(ps), input)
  }

  /** One task of a job, with whitespace around it. */
  function JobItem(input: string): (r: PResult<Task>)
    ensures r.Ok? ==> |r.value.processes| >= 1
  {
    WhitespaceWrap(ParseTask, input)
  }

  /**
   * `job`: never fails; the tasks in source order up to the first position
   * where no further task parses, which need not be the end of the input.
   */
  function ParseJob(input: string): (r: PResult<Job>)
    ensures r.Ok?
    ensures forall i :: 0 <= i < |r.value.tasks| ==> |r.value.tasks[i].processes| >= 1
    ensures |r.value.tasks| < UnboundedEnd ==> JobItem(r.rest).Err?
  {
    RepeatValues(JobItem, (t: Task) => |t.processes| >= 1, Range(Included(0), Unbounded), input);
    Map((s: string) => Repeat(JobItem, Range(Included(0), Unbounded), s), (ts: seq<Task>) => Job(ts), input)
  }

  /** Where no task parses, `job` yields no tasks and consumes nothing. */
  lemma NoTaskJob(input: string)
    requires JobItem(input).Err?
    ensures ParseJob(input) == Ok(input, Job([]))
  {
    RepeatFromZero(JobItem, Range(Included(0), Unbounded), input);
    GreedyStop(JobItem, UnboundedEnd, input);
  }
}
