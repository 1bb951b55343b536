/**
 * Job text in canonical form, and the grammar read back on it.
 *
 * A process is written `name ? onsucceed : onfail; @monitor @monitor`,
 * leaving out the parts it does not have; a group is `[`, its processes and
 * `]`. Any whitespace may follow a process, a group or the opening bracket
 * of a group, and is given explicitly as part of the layout. The lemmas
 * state that parsing such a text gives back exactly the job, task or
 * process it was written from, and what follows it untouched.
 */
module Canonical {
  import opened Parser
  import opened Matchers
  import opened Combinators
  import opened Repetition
  import opened Whitespace
  import opened JobGrammar

  /** A name the grammar reads back as written: non-empty, of name characters only. */
  predicate ValidName(n: string) {
    n != [] && AllNameChars(n)
  }

  predicate ValidOptName(o: Option<string>) {
    o.Some? ==> ValidName(o.value)
  }

  predicate ValidProcess(p: Process) {
    && ValidName(p.name)
    && ValidOptName(p.onsucceed)
    && ValidOptName(p.onfail)
    && |p.logMonitors| < UnboundedEnd
    && forall i :: 0 <= i < |p.logMonitors| ==> ValidName(p.logMonitors[i])
  }

  /**
   * What may follow the whitespace `ws` after a process: nothing, or a
   * character that starts neither whitespace nor a log monitor, and that
   * does not extend a name when no whitespace separates them.
   */
  predicate Boundary(ws: string, tail: string) {
    tail == [] || (!IsWhitespace(tail[0]) && tail[0] != '@' && (ws != [] || !IsNameChar(tail[0])))
  }

  /** A text no process can start: `single_process` fails on it. */
  predicate NoProcessAt(s: string) {
    s == [] || (!IsWhitespace(s[0]) && !IsNameChar(s[0]) && s[0] != '?' && s[0] != ':' && s[0] != ';')
  }

  function OptText(mark: string, o: Option<string>): string {
    if o.Some? then mark + o.value else ""
  }

  /** The `?` and `:` parts of a process. */
  function PredicateText(onsucceed: Option<string>, onfail: Option<string>): string {
    OptText(" ? ", onsucceed) + OptText(" : ", onfail)
  }

  /** The log monitors of a process, each as ` @name`, then the whitespace `ws`. */
  function MonitorsText(ms: seq<string>, ws: string): string {
    if ms == [] then ws else " @" + ms[0] + MonitorsText(ms[1..], ws)
  }

  /** A process followed by the whitespace `ws`. */
  function ProcessText(p: Process, ws: string): string {
    p.name + PredicateText(p.onsucceed, p.onfail) + ";" + MonitorsText(p.logMonitors, ws)
  }

  /** The processes of a group, each followed by its own whitespace. */
  function GroupText(ps: seq<Process>, seps: seq<string>): string
    requires |seps| == |ps|
  {
    if ps == [] then [] else ProcessText(ps[0], seps[0]) + GroupText(ps[1..], seps[1..])
  }

  /** Where the whitespace of a task goes: after it, and inside it when it is a group. */
  datatype TaskLayout = TaskLayout(after: string, groupLead: string, groupSeps: seq<string>)

  /** A task: its one process, or its group in brackets; then the whitespace after it. */
  function TaskText(t: Task, l: TaskLayout): string
    requires |t.processes| == 1 || |l.groupSeps| == |t.processes|
  {
    if |t.processes| == 1 then ProcessText(t.processes[0], l.after)
    else "[" + l.groupLead + GroupText(t.processes, l.groupSeps) + "]" + l.after
  }

  predicate ValidGroupLayout(ps: seq<Process>, l: TaskLayout) {
    && 2 <= |ps| < UnboundedEnd
    && |l.groupSeps| == |ps|
    && AllWhitespace(l.groupLead)
    && (forall i :: 0 <= i < |l.groupSeps| ==> AllWhitespace(l.groupSeps[i]))
    && (forall i :: 0 <= i < |l.groupSeps| - 1 ==> l.groupSeps[i] != [])
  }

  predicate ValidLayout(t: Task, l: TaskLayout, last: bool) {
    && AllWhitespace(l.after)
    && (!last ==> l.after != [])
    && (|t.processes| == 1 || ValidGroupLayout(t.processes, l))
  }

  predicate ValidTask(t: Task, l: TaskLayout, last: bool) {
    && ValidLayout(t, l, last)
    && forall i :: 0 <= i < |t.processes| ==> ValidProcess(t.processes[i])
  }

  function JobText(ts: seq<Task>, ls: seq<TaskLayout>): string
    requires |ls| == |ts|
    requires forall i :: 0 <= i < |ts| ==> |ts[i].processes| == 1 || |ls[i].groupSeps| == |ts[i].processes|
  {
    if ts == [] then [] else TaskText(ts[0], ls[0]) + JobText(ts[1..], ls[1..])
  }

  predicate ValidJob(ts: seq<Task>, ls: seq<TaskLayout>) {
    && |ls| == |ts| < UnboundedEnd
    && forall i :: 0 <= i < |ts| ==> ValidTask(ts[i], ls[i], i == |ts| - 1)
  }

  /** Processes and the whitespace after each as a group holds them: only the last may have none. */
  predicate GroupSeps(ps: seq<Process>, seps: seq<string>) {
    && |seps| == |ps|
    && (forall i :: 0 <= i < |ps| ==> ValidProcess(ps[i]))
    && (forall i :: 0 <= i < |seps| ==> AllWhitespace(seps[i]))
    && (forall i :: 0 <= i < |seps| - 1 ==> seps[i] != [])
  }

  /** The values of a group's members: one single-process list per process. */
  function Singletons(ps: seq<Process>): (r: seq<seq<Process>>)
    ensures |r| == |ps| && forall i :: 0 <= i < |ps| ==> r[i] == [ps[i]]
  {
    if ps == [] then [] else [[ps[0]]] + Singletons(ps[1..])
  }

  // ---------------------------------------------------------------------
  // Tokens

  /** Regrouping a concatenation of three pieces to the right, kept apart from the grammar facts. */
  lemma ConcatAssoc(a: string, b: string, c: string)
    ensures (a + b) + c == a + (b + c)
  {
  }

  /** Regrouping a concatenation of five pieces to the right, kept apart from the grammar facts. */
  lemma ConcatRight(a: string, b: string, c: string, d: string, e: string)
    ensures (a + b + c + d) + e == a + (b + (c + (d + e)))
  {
  }

  /** A one-character mark in front of a text: it starts the text, and dropping it leaves the text. */
  lemma MarkText(mark: string, x: string)
    requires |mark| == 1
    ensures (mark + x)[0] == mark[0] && mark <= mark + x && (mark + x)[1..] == x
  {
  }

  /** A text whose first character differs from a one-character mark does not start with it. */
  lemma NotMarked(mark: string, x: string)
    requires |mark| == 1 && x != [] && x[0] != mark[0]
    ensures !(mark <= x)
  {
    assert x[..1][0] != mark[0];
  }

  /** A literal followed by anything is matched and dropped. */
  lemma LiteralOf(lit: string, tail: string)
    ensures Literal(lit, lit + tail) == Ok(tail, ())
  {
    var r := Literal(lit, lit + tail);
    assert lit <= lit + tail;
    assert (lit + r.rest)[|lit|..] == r.rest;
    assert (lit + tail)[|lit|..] == tail;
  }

  /** Text that starts with a character other than whitespace is left alone by `space0`. */
  lemma Space0None(s: string)
    requires s == [] || !IsWhitespace(s[0])
    ensures Space0(s) == Ok(s, [])
  {
    Space0Of([], s);
    assert [] + s == s;
  }

  lemma OnSucceedOf(name: string, tail: string)
    requires ValidName(name)
    requires tail == [] || !IsNameChar(tail[0])
    ensures OnSucceed(" ? " + name + tail) == Ok(tail, name)
  {
    var s := " ? " + name + tail;
    assert s == " " + ("?" + (" " + (name + tail)));
    Space0Of(" ", "?" + (" " + (name + tail)));
    assert ("?" + (" " + (name + tail)))[1..] == " " + (name + tail);
    Space0Of(" ", name + tail);
    ProcessNameOf(name, tail);
  }

  lemma OnFailOf(name: string, tail: string)
    requires ValidName(name)
    requires tail == [] || !IsNameChar(tail[0])
    ensures OnFail(" : " + name + tail) == Ok(tail, name)
  {
    var s := " : " + name + tail;
    assert s == " " + (":" + (" " + (name + tail)));
    Space0Of(" ", ":" + (" " + (name + tail)));
    assert (":" + (" " + (name + tail)))[1..] == " " + (name + tail);
    Space0Of(" ", name + tail);
    ProcessNameOf(name, tail);
  }

  /** An optional `?` clause reads back as written, before a `:` clause or the `;`. */
  lemma OnSucceedOpt(onsucceed: Option<string>, rest: string)
    requires ValidOptName(onsucceed)
    requires rest != [] && (rest[0] == ';' || (rest[0] == ' ' && |rest| > 1 && rest[1] == ':'))
    ensures var s := OptText(" ? ", onsucceed) + rest;
      ValueOf(OnSucceed(s)) == onsucceed && After(OnSucceed(s), s) == rest
  {
    if onsucceed.Some? {
      assert OptText(" ? ", onsucceed) + rest == " ? " + onsucceed.value + rest;
      OnSucceedOf(onsucceed.value, rest);
    } else {
      assert OptText(" ? ", onsucceed) + rest == rest;
      if rest[0] == ' ' {
        assert rest == " " + rest[1..];
        Space0Of(" ", rest[1..]);
      } else {
        Space0None(rest);
      }
    }
  }

  /** An optional `:` clause reads back as written, before the `;`. */
  lemma OnFailOpt(onfail: Option<string>, tail: string)
    requires ValidOptName(onfail)
    requires tail != [] && tail[0] == ';'
    ensures var s := OptText(" : ", onfail) + tail;
      ValueOf(OnFail(s)) == onfail && After(OnFail(s), s) == tail
  {
    if onfail.Some? {
      assert OptText(" : ", onfail) + tail == " : " + onfail.value + tail;
      OnFailOf(onfail.value, tail);
    } else {
      assert OptText(" : ", onfail) + tail == tail;
      Space0None(tail);
    }
  }

  /** What follows an optional `?` clause starts with `;` or with ` :`. */
  lemma OnFailTextStart(onfail: Option<string>, tail: string)
    requires tail != [] && tail[0] == ';'
    ensures var rest := OptText(" : ", onfail) + tail;
      rest != [] && (rest[0] == ';' || (rest[0] == ' ' && |rest| > 1 && rest[1] == ':'))
  {
    if onfail.Some? {
      assert OptText(" : ", onfail) + tail == " : " + (onfail.value + tail);
    } else {
      assert OptText(" : ", onfail) + tail == tail;
    }
  }

  /** `?` and `:` clauses read back as written. */
  lemma PredicateOf(onsucceed: Option<string>, onfail: Option<string>, tail: string)
    requires ValidOptName(onsucceed) && ValidOptName(onfail)
    requires tail != [] && tail[0] == ';'
    ensures ProcessPredicate(PredicateText(onsucceed, onfail) + tail) == Ok(tail, (onsucceed, onfail))
  {
    var rest := OptText(" : ", onfail) + tail;
    ConcatAssoc(OptText(" ? ", onsucceed), OptText(" : ", onfail), tail);
    OnFailTextStart(onfail, tail);
    OnFailOpt(onfail, tail);
    OnSucceedOpt(onsucceed, rest);
  }

  // ---------------------------------------------------------------------
  // Processes

  /** A log monitor `@name`, then whitespace, reads back as the name. */
  lemma LogMonitorOf(m: string, rest: string)
    requires ValidName(m)
    requires rest == [] || !IsNameChar(rest[0])
    ensures LogMonitor("@" + m + rest) == Ok(Space0(rest).rest, m)
  {
    MarkText("@", m + rest);
    assert "@" + m + rest == "@" + (m + rest);
    Space0None("@" + (m + rest));
    ProcessNameOf(m, rest);
  }

  /** What follows the monitors text cannot extend a name. */
  lemma MonitorsTextStart(ms: seq<string>, ws: string, tail: string)
    requires AllWhitespace(ws) && Boundary(ws, tail)
    ensures var x := MonitorsText(ms, ws) + tail; x == [] || !IsNameChar(x[0])
  {
    if ms != [] {
      assert (MonitorsText(ms, ws) + tail)[0] == ' ';
    } else if ws != [] {
      assert (ws + tail)[0] == ws[0];
    } else {
      assert ws + tail == tail;
    }
  }

  /** The first monitor, after the space before it, reads back as its name. */
  lemma MonitorStep(ms: seq<string>, ws: string, tail: string)
    requires ms != [] && ValidName(ms[0])
    requires AllWhitespace(ws) && Boundary(ws, tail)
    ensures var x := MonitorsText(ms[1..], ws) + tail;
      && Space0(MonitorsText(ms, ws) + tail).rest == "@" + ms[0] + x
      && LogMonitor("@" + ms[0] + x) == Ok(Space0(x).rest, ms[0])
  {
    var x := MonitorsText(ms[1..], ws) + tail;
    assert MonitorsText(ms, ws) + tail == " " + ("@" + ms[0] + x);
    Space0Of(" ", "@" + ms[0] + x);
    MonitorsTextStart(ms[1..], ws, tail);
    LogMonitorOf(ms[0], x);
  }

  /** After the whitespace that precedes them, the monitors of a process read back in order. */
  lemma MonitorsOf(ms: seq<string>, ws: string, tail: string, bound: nat)
    requires forall i :: 0 <= i < |ms| ==> ValidName(ms[i])
    requires |ms| < bound
    requires AllWhitespace(ws) && Boundary(ws, tail)
    ensures Greedy(LogMonitor, bound, Space0(MonitorsText(ms, ws) + tail).rest) == Run(tail, ms)
  {
    var texts := seq(|ms| + 1, i requires 0 <= i <= |ms| => Space0(MonitorsText(ms[i..], ws) + tail).rest);
    forall i | 0 <= i < |ms|
      ensures LogMonitor(texts[i]) == Ok(texts[i + 1], ms[i])
    {
      assert ms[i..][1..] == ms[i + 1..];
      MonitorStep(ms[i..], ws, tail);
    }
    assert MonitorsText(ms[|ms|..], ws) + tail == ws + tail;
    Space0Of(ws, tail);
    Space0None(tail);
    assert ms[0..] == ms;
    GreedyChain(LogMonitor, texts, ms, bound);
  }

  /** How a process text splits: its name, its clauses, `;` and what follows. */
  lemma ProcessTextShape(p: Process, ws: string, tail: string)
    requires p.name != []
    ensures var m := MonitorsText(p.logMonitors, ws) + tail;
      var pred := PredicateText(p.onsucceed, p.onfail);
      && ProcessText(p, ws) + tail == p.name + (pred + (";" + m))
      && (ProcessText(p, ws) + tail)[0] == p.name[0]
      && (pred + (";" + m))[0] == (if pred == [] then ';' else ' ')
      && ";" <= ";" + m && (";" + m)[1..] == m
  {
    var ms := MonitorsText(p.logMonitors, ws);
    var m := ms + tail;
    var pred := PredicateText(p.onsucceed, p.onfail);
    calc {
      ProcessText(p, ws) + tail;
      (p.name + pred + ";" + ms) + tail;
      { ConcatRight(p.name, pred, ";", ms, tail); }
      p.name + (pred + (";" + m));
    }
    assert (";" + m)[0] == ';';
  }

  /** The body of a process, up to its `;` and the whitespace after it, reads back as written. */
  lemma ProcessWithoutLogMonitorsOf(p: Process, ws: string, tail: string)
    requires ValidProcess(p)
    ensures var m := MonitorsText(p.logMonitors, ws) + tail;
      ProcessWithoutLogMonitors(ProcessText(p, ws) + tail) == Ok(Space0(m).rest, [Process([], p.name, p.onfail, p.onsucceed)])
  {
    var m := MonitorsText(p.logMonitors, ws) + tail;
    var pred := PredicateText(p.onsucceed, p.onfail);
    ProcessTextShape(p, ws, tail);
    Space0None(ProcessText(p, ws) + tail);
    ProcessNameOf(p.name, pred + (";" + m));
    PredicateOf(p.onsucceed, p.onfail, ";" + m);
  }

  /** The log monitors after a process read back in order. */
  lemma LogMonitorsOf(ms: seq<string>, ws: string, tail: string)
    requires |ms| < UnboundedEnd && forall i :: 0 <= i < |ms| ==> ValidName(ms[i])
    requires AllWhitespace(ws) && Boundary(ws, tail)
    ensures LogMonitors(Space0(MonitorsText(ms, ws) + tail).rest) == Ok(tail, ms)
  {
    MonitorsOf(ms, ws, tail, UnboundedEnd);
  }

  /** A process followed by whitespace reads back as that process. */
  lemma SingleProcessOf(p: Process, ws: string, tail: string)
    requires ValidProcess(p)
    requires AllWhitespace(ws) && Boundary(ws, tail)
    ensures SingleProcess(ProcessText(p, ws) + tail) == Ok(tail, [p])
  {
    ProcessWithoutLogMonitorsOf(p, ws, tail);
    LogMonitorsOf(p.logMonitors, ws, tail);
  }

  /** Nothing that starts with a closing bracket or the end of the text parses as a process. */
  lemma SingleProcessFails(s: string)
    requires NoProcessAt(s)
    ensures SingleProcess(s).Err?
  {
    Space0None(s);
    ProcessNameOf([], s);
    assert [] + s == s;
    NoPredicateAt(s);
  }

  /** Where no process can start, neither `?` nor `:` follows. */
  lemma NoPredicateAt(s: string)
    requires NoProcessAt(s)
    ensures ProcessPredicate(s) == Ok(s, (None, None))
  {
    Space0None(s);
    assert OnSucceed(s).Err? && OnFail(s).Err?;
  }

  /** A process text starts with the process name. */
  lemma ProcessTextStart(p: Process, ws: string, tail: string)
    requires p.name != []
    ensures (ProcessText(p, ws) + tail)[0] == p.name[0]
  {
    var more := PredicateText(p.onsucceed, p.onfail) + ";" + MonitorsText(p.logMonitors, ws) + tail;
    assert ProcessText(p, ws) + tail == p.name + more;
  }

  /** A group text starts with the name of its first process. */
  lemma GroupTextStart(ps: seq<Process>, seps: seq<string>, tail: string)
    requires |seps| == |ps| > 0 && ps[0].name != []
    ensures (GroupText(ps, seps) + tail)[0] == ps[0].name[0]
  {
    var more := GroupText(ps[1..], seps[1..]) + tail;
    assert GroupText(ps, seps) + tail == ProcessText(ps[0], seps[0]) + more;
    ProcessTextStart(ps[0], seps[0], more);
  }

  /** What follows the first process of a group is a boundary for it. */
  lemma GroupBoundary(ps: seq<Process>, seps: seq<string>, tail: string)
    requires GroupSeps(ps, seps) && |ps| > 0
    requires NoProcessAt(tail) && tail != [] && tail[0] != '@'
    ensures Boundary(seps[0], GroupText(ps[1..], seps[1..]) + tail)
  {
    if |ps| == 1 {
      assert GroupText(ps[1..], seps[1..]) + tail == tail;
    } else {
      GroupTextStart(ps[1..], seps[1..], tail);
      assert seps[0] != [];
    }
  }

  /** The process at position `i` of a group reads back, leaving the rest of the group. */
  lemma GroupStep(ps: seq<Process>, seps: seq<string>, tail: string, i: nat)
    requires GroupSeps(ps, seps) && i < |ps|
    requires NoProcessAt(tail) && tail != [] && tail[0] != '@'
    ensures SingleProcess(GroupText(ps[i..], seps[i..]) + tail) == Ok(GroupText(ps[i + 1..], seps[i + 1..]) + tail, [ps[i]])
  {
    var qs, qseps := ps[i..], seps[i..];
    assert qs[1..] == ps[i + 1..] && qseps[1..] == seps[i + 1..];
    GroupBoundary(qs, qseps, tail);
    var rest := GroupText(qs[1..], qseps[1..]) + tail;
    assert GroupText(qs, qseps) + tail == ProcessText(qs[0], qseps[0]) + rest;
    SingleProcessOf(qs[0], qseps[0], rest);
  }

  /** The processes of a group, each followed by its own whitespace, read back in order. */
  lemma GroupOf(ps: seq<Process>, seps: seq<string>, tail: string, bound: nat)
    requires GroupSeps(ps, seps) && |ps| < bound
    requires NoProcessAt(tail) && tail != [] && tail[0] != '@'
    ensures Greedy(SingleProcess, bound, GroupText(ps, seps) + tail) == Run(tail, Singletons(ps))
  {
    var texts := seq(|ps| + 1, i requires 0 <= i <= |ps| => GroupText(ps[i..], seps[i..]) + tail);
    var vs := Singletons(ps);
    forall i | 0 <= i < |ps|
      ensures SingleProcess(texts[i]) == Ok(texts[i + 1], vs[i])
    {
      GroupStep(ps, seps, tail, i);
    }
    assert texts[|ps|] == tail;
    SingleProcessFails(tail);
    assert ps[0..] == ps && seps[0..] == seps;
    GreedyChain(SingleProcess, texts, vs, bound);
  }

  // ---------------------------------------------------------------------
  // Tasks and jobs

  /** Two or more processes in canonical form are the members of a group. */
  lemma GroupMembersOf(ps: seq<Process>, seps: seq<string>, tail: string)
    requires GroupSeps(ps, seps) && 2 <= |ps| < UnboundedEnd
    requires NoProcessAt(tail) && tail != [] && tail[0] != '@'
    ensures GroupMembers(GroupText(ps, seps) + tail) == Ok(tail, Singletons(ps))
  {
    GroupOf(ps, seps, tail, UnboundedEnd);
  }

  /** A closing bracket and the whitespace after it: what `space0`, `]` and `space0` leave. */
  lemma CloseOf(after: string, tail: string)
    requires AllWhitespace(after) && (tail == [] || !IsWhitespace(tail[0]))
    ensures var close := "]" + after + tail;
      && close != [] && close[0] == ']' && "]" <= close
      && Space0(close).rest == close
      && Space0(close[1..]).rest == tail
  {
    ConcatAssoc("]", after, tail);
    MarkText("]", after + tail);
    Space0None("]" + (after + tail));
    Space0Of(after, tail);
  }

  /** Taking the one element out of each singleton gives back the processes. */
  lemma UnwrapSingletons(ps: seq<Process>, vs: seq<Process>)
    requires |vs| == |ps| && forall i :: 0 <= i < |ps| ==> vs[i] == Singletons(ps)[i][0]
    ensures vs == ps
  {
  }

  /** The members of a group, its closing bracket and the whitespace after it read back as the processes. */
  lemma GroupBodyOf(ps: seq<Process>, seps: seq<string>, after: string, tail: string)
    requires GroupSeps(ps, seps) && 2 <= |ps| < UnboundedEnd
    requires AllWhitespace(after) && (tail == [] || !IsWhitespace(tail[0]))
    ensures GroupBody(GroupText(ps, seps) + ("]" + after + tail)) == Ok(tail, ps)
  {
    var close := "]" + after + tail;
    CloseOf(after, tail);
    GroupMembersOf(ps, seps, close);
    var r := GroupBody(GroupText(ps, seps) + close);
    UnwrapSingletons(ps, r.value);
  }

  /** How a bracketed text splits into its opening bracket, its leading whitespace and the rest. */
  lemma BracketsText(lead: string, g: string, after: string, tail: string)
    ensures var s := "[" + lead + g + "]" + after + tail;
      && s[0] == '[' && "[" <= s && s[1..] == lead + (g + ("]" + after + tail))
  {
    var s := "[" + lead + g + "]" + after + tail;
    assert s == "[" + (lead + (g + ("]" + after + tail)));
  }

  /** What `space0` and the brackets leave of a bracketed group. */
  lemma BracketsShape(ps: seq<Process>, lead: string, seps: seq<string>, after: string, tail: string)
    requires GroupSeps(ps, seps) && |ps| > 0
    requires AllWhitespace(lead) && AllWhitespace(after)
    requires tail == [] || !IsWhitespace(tail[0])
    ensures var close := "]" + after + tail;
      var body := GroupText(ps, seps) + close;
      var s := "[" + lead + GroupText(ps, seps) + "]" + after + tail;
      && Space0(s).rest == s && "[" <= s && Space0(s[1..]).rest == body
      && close != [] && close[0] == ']' && NoProcessAt(close)
      && "]" <= close && Space0(close).rest == close && Space0(close[1..]).rest == tail
  {
    var close := "]" + after + tail;
    var body := GroupText(ps, seps) + close;
    var s := "[" + lead + GroupText(ps, seps) + "]" + after + tail;
    BracketsText(lead, GroupText(ps, seps), after, tail);
    GroupTextStart(ps, seps, close);
    Space0None(s);
    Space0Of(lead, body);
    CloseOf(after, tail);
  }

  /** A bracketed group followed by whitespace reads back as its processes. */
  lemma ConcurrentProcessesOf(ps: seq<Process>, lead: string, seps: seq<string>, after: string, tail: string)
    requires GroupSeps(ps, seps) && 2 <= |ps| < UnboundedEnd
    requires AllWhitespace(lead) && AllWhitespace(after)
    requires tail == [] || !IsWhitespace(tail[0])
    ensures ConcurrentProcesses("[" + lead + GroupText(ps, seps) + "]" + after + tail) == Ok(tail, ps)
  {
    BracketsShape(ps, lead, seps, after, tail);
    GroupMembersOf(ps, seps, "]" + after + tail);
    var r := ConcurrentProcesses("[" + lead + GroupText(ps, seps) + "]" + after + tail);
    UnwrapSingletons(ps, r.value);
  }

  /** A task text starts with the name of its process, or with the bracket of its group. */
  lemma TaskTextStart(t: Task, l: TaskLayout, last: bool, tail: string)
    requires ValidTask(t, l, last)
    ensures var x := TaskText(t, l) + tail;
      && x != [] && !IsWhitespace(x[0])
      && (if |t.processes| == 1 then IsNameChar(x[0]) && !("[" <= x) else x[0] == '[')
  {
    var x := TaskText(t, l) + tail;
    if |t.processes| == 1 {
      ProcessTextStart(t.processes[0], l.after, tail);
      NotMarked("[", x);
    } else {
      assert (TaskText(t, l) + tail)[0] == '[';
    }
  }

  /** A single-process task reads back as that task. */
  lemma TaskSingleOf(t: Task, l: TaskLayout, tail: string)
    requires ValidTask(t, l, true) && Boundary(l.after, tail) && |t.processes| == 1
    ensures ParseTask(TaskText(t, l) + tail) == Ok(tail, t)
  {
    TaskTextStart(t, l, true, tail);
    Space0None(TaskText(t, l) + tail);
    SingleProcessOf(t.processes[0], l.after, tail);
    assert [t.processes[0]] == t.processes;
  }

  /** A group task reads back as that task. */
  lemma TaskGroupOf(t: Task, l: TaskLayout, tail: string)
    requires ValidTask(t, l, true) && Boundary(l.after, tail) && |t.processes| != 1
    ensures ParseTask(TaskText(t, l) + tail) == Ok(tail, t)
  {
    ConcurrentProcessesOf(t.processes, l.groupLead, l.groupSeps, l.after, tail);
  }

  /** A task followed by whitespace reads back as that task. */
  lemma TaskOf(t: Task, l: TaskLayout, tail: string)
    requires ValidTask(t, l, true) && Boundary(l.after, tail)
    ensures ParseTask(TaskText(t, l) + tail) == Ok(tail, t)
  {
    if |t.processes| == 1 {
      TaskSingleOf(t, l, tail);
    } else {
      TaskGroupOf(t, l, tail);
    }
  }

  /** What may follow a job: nothing, or a character that starts no task and no log monitor. */
  predicate JobEnd(tail: string) {
    NoProcessAt(tail) && (tail == [] || (tail[0] != '[' && tail[0] != '@'))
  }

  /** Whitespace, then the end of a job: no task parses there. */
  lemma NoJobItem(ws: string, tail: string)
    requires AllWhitespace(ws) && JobEnd(tail)
    ensures JobItem(ws + tail).Err?
  {
    Space0Of(ws, tail);
    Space0None(tail);
    SingleProcessFails(tail);
  }

  /** The tasks from position `i` on split into the first of them and the rest. */
  lemma JobTextCons(ts: seq<Task>, ls: seq<TaskLayout>, i: nat, tail: string)
    requires ValidJob(ts, ls) && i < |ts|
    ensures JobText(ts[i..], ls[i..]) + tail == TaskText(ts[i], ls[i]) + (JobText(ts[i + 1..], ls[i + 1..]) + tail)
  {
    assert ts[i..][1..] == ts[i + 1..] && ls[i..][1..] == ls[i + 1..];
  }

  /** What follows a task of a job, up to the end of the job, is a boundary for that task. */
  lemma JobBoundary(ts: seq<Task>, ls: seq<TaskLayout>, i: nat, tail: string)
    requires ValidJob(ts, ls) && i < |ts| && JobEnd(tail)
    ensures var y := JobText(ts[i + 1..], ls[i + 1..]) + tail;
      (y == [] || !IsWhitespace(y[0])) && Boundary(ls[i].after, y)
  {
    if i + 1 < |ts| {
      JobTextCons(ts, ls, i + 1, tail);
      TaskTextStart(ts[i + 1], ls[i + 1], i + 1 == |ts| - 1, JobText(ts[i + 2..], ls[i + 2..]) + tail);
      assert ls[i].after != [];
    } else {
      assert JobText(ts[i + 1..], ls[i + 1..]) + tail == tail;
    }
  }

  /**
   * The text a job's tasks are read from once `i` of them are read: the
   * leading whitespace belongs to the first task only.
   */
  function JobSuffix(lead: string, ts: seq<Task>, ls: seq<TaskLayout>, i: nat, tail: string): string
    requires |ls| == |ts| && i <= |ts|
    requires forall i :: 0 <= i < |ts| ==> |ts[i].processes| == 1 || |ls[i].groupSeps| == |ts[i].processes|
  {
    if i == 0 then lead + (JobText(ts, ls) + tail) else JobText(ts[i..], ls[i..]) + tail
  }

  /** Where the reading of a job's tasks starts and where it ends. */
  lemma JobSuffixEnds(lead: string, ts: seq<Task>, ls: seq<TaskLayout>, tail: string)
    requires ValidJob(ts, ls)
    ensures JobSuffix(lead, ts, ls, 0, tail) == lead + JobText(ts, ls) + tail
    ensures JobSuffix(lead, ts, ls, |ts|, tail) == (if ts == [] then lead else []) + tail
  {
    if ts == [] {
      assert JobText(ts, ls) + tail == tail;
    } else {
      assert JobText(ts[|ts|..], ls[|ts|..]) == [];
      assert [] + tail == tail;
    }
  }

  /** The task at position `i` of a job reads back, leaving the tasks after it. */
  lemma JobStep(lead: string, ts: seq<Task>, ls: seq<TaskLayout>, i: nat, tail: string)
    requires ValidJob(ts, ls) && i < |ts| && JobEnd(tail) && AllWhitespace(lead)
    ensures JobItem(JobSuffix(lead, ts, ls, i, tail)) == Ok(JobSuffix(lead, ts, ls, i + 1, tail), ts[i])
  {
    var y := JobText(ts[i + 1..], ls[i + 1..]) + tail;
    var x := TaskText(ts[i], ls[i]) + y;
    JobTextCons(ts, ls, i, tail);
    JobBoundary(ts, ls, i, tail);
    assert ValidTask(ts[i], ls[i], true);
    TaskTextStart(ts[i], ls[i], true, y);
    if i == 0 {
      assert ts[0..] == ts && ls[0..] == ls;
      Space0Of(lead, x);
    } else {
      Space0None(x);
    }
    TaskOf(ts[i], ls[i], y);
    Space0None(y);
  }

  /** The texts a job's tasks are read from, one before each task and one after the last. */
  function JobSuffixes(lead: string, ts: seq<Task>, ls: seq<TaskLayout>, tail: string): (r: seq<string>)
    requires |ls| == |ts|
    requires forall i :: 0 <= i < |ts| ==> |ts[i].processes| == 1 || |ls[i].groupSeps| == |ts[i].processes|
    ensures |r| == |ts| + 1 && forall i :: 0 <= i <= |ts| ==> r[i] == JobSuffix(lead, ts, ls, i, tail)
  {
    seq(|ts| + 1, i requires 0 <= i <= |ts| => JobSuffix(lead, ts, ls, i, tail))
  }

  /** Every task of a job reads back in turn. */
  lemma JobSteps(lead: string, ts: seq<Task>, ls: seq<TaskLayout>, tail: string)
    requires AllWhitespace(lead) && ValidJob(ts, ls) && JobEnd(tail)
    ensures var texts := JobSuffixes(lead, ts, ls, tail);
      forall i :: 0 <= i < |ts| ==> JobItem(texts[i]) == Ok(texts[i + 1], ts[i])
  {
    var texts := JobSuffixes(lead, ts, ls, tail);
    forall i | 0 <= i < |ts|
      ensures JobItem(texts[i]) == Ok(texts[i + 1], ts[i])
    {
      JobStep(lead, ts, ls, i, tail);
    }
  }

  /**
   * The tasks of a job, after any leading whitespace, read back in order;
   * the run stops at the end of the job, or before the leading whitespace
   * when there is no task at all.
   */
  lemma JobTasksOf(lead: string, ts: seq<Task>, ls: seq<TaskLayout>, tail: string)
    requires AllWhitespace(lead) && ValidJob(ts, ls) && JobEnd(tail)
    ensures Greedy(JobItem, UnboundedEnd, lead + JobText(ts, ls) + tail) == Run((if ts == [] then lead else []) + tail, ts)
  {
    var texts := JobSuffixes(lead, ts, ls, tail);
    JobSteps(lead, ts, ls, tail);
    JobSuffixEnds(lead, ts, ls, tail);
    NoJobItem(if ts == [] then lead else [], tail);
    GreedyChain(JobItem, texts, ts, UnboundedEnd);
  }

  /**
   * A job in canonical form, after any leading whitespace, reads back as
   * that job, and parsing stops exactly where the job text ends (before
   * the leading whitespace when the job has no task).
   */
  lemma JobOf(lead: string, ts: seq<Task>, ls: seq<TaskLayout>, tail: string)
    requires AllWhitespace(lead) && ValidJob(ts, ls) && JobEnd(tail)
    ensures ParseJob(lead + JobText(ts, ls) + tail) == Ok((if ts == [] then lead else []) + tail, Job(ts))
  {
    JobTasksOf(lead, ts, ls, tail);
    RepeatFromZero(JobItem, Range(Included(0), Unbounded), lead + JobText(ts, ls) + tail);
  }

  /** How a name, whitespace, `;` and a tail split, and which marks that text does not start with. */
  lemma SpacedSemicolonShape(name: string, ws: string, tail: string)
    requires name != [] && ws != [] && AllWhitespace(ws)
    ensures var x := ws + (";" + tail);
      && name + ws + ";" + tail == name + x
      && (name + x)[0] == name[0] && x[0] == ws[0]
      && !(";" <= x)
    ensures !("?" <= ";" + tail) && !(":" <= ";" + tail)
  {
    var x := ws + (";" + tail);
    assert name + ws + ";" + tail == name + x;
    assert (";" + tail)[0] == ';';
  }

  /** `;` must follow the last name directly: with whitespace in between, no process parses. */
  lemma SemicolonMustBeAdjacent(name: string, ws: string, tail: string)
    requires ValidName(name) && ws != [] && AllWhitespace(ws)
    ensures SingleProcess(name + ws + ";" + tail).Err?
  {
    var x := ws + (";" + tail);
    SpacedSemicolonShape(name, ws, tail);
    Space0None(name + x);
    ProcessNameOf(name, x);
    Space0Of(ws, ";" + tail);
  }
}
