/** What running a pipeline means (waf-tools/shellcmd.py): a recursive evaluator over segments.
    Processes and files are events; the k-th process started exits with an arbitrary status. */
module ShellEval {
  import opened Options
  import opened ShellSyntax

  datatype Source = ParentInput | FileInput(fd: nat) | OutputOf(pid: nat)
  datatype Sink = ParentOutput | FileOutput(fd: nat) | DevNull | NewPipe | SameAsStdout

  datatype Event =
    | Opened(fd: nat, name: string, writing: bool)
    | Started(pid: nat, argv: seq<string>, stdin: Source, stdout: Sink, stderr: Sink,
              env: Option<EnvVars>, cwd: Option<string>)
    | Waited(pid: nat)
    | FileClosed(fd: nat)

  // How many processes were started and files opened so far.
  datatype World = World(pids: nat, fds: nat)

  datatype Outcome = Returned(status: int) | IndexError | TypeError | UnboundLocalError

  // ----- Programs

  predicate IsOp(n: Node) {
    n.Pipe? || n.And? || n.Or?
  }

  // What `run` relies on: commands and operators alternate, starting and ending with a command,
  // and a directory change is last or followed by &&.
  predicate Shaped(p: seq<Node>)
    decreases |p|
  {
    && p != []
    && (p[0].Command? || p[0].Chdir?)
    && (|p| > 1 ==> IsOp(p[1]) && (p[0].Chdir? ==> p[1].And?) && Shaped(p[2..]))
  }

  // Directory changes, then a command; no command if the pipeline ends in a directory change.
  datatype Stage = Stage(dirs: seq<Option<string>>, cmd: Option<Node>)

  datatype Program =
    | Final(stages: seq<Stage>)
    | Chain(stages: seq<Stage>, op: Node, rest: Program)

  function WithFirst(prog: Program, stages: seq<Stage>): Program {
    prog.(stages := stages)
  }

  function WithDir(stages: seq<Stage>, dir: Option<string>): seq<Stage>
    requires stages != []
  {
    [Stage([dir] + stages[0].dirs, stages[0].cmd)] + stages[1..]
  }

  function ToProgram(p: seq<Node>): (prog: Program)
    requires Shaped(p)
    ensures prog.stages != []
    decreases |p|
  {
    if p[0].Chdir? then
      if |p| == 1 then Final([Stage([], None)])
      else
        var rest := ToProgram(p[2..]);
        WithFirst(rest, WithDir(rest.stages, p[0].dir))
    else if |p| == 1 then Final([Stage([], Some(p[0]))])
    else if p[1].Pipe? then
      var rest := ToProgram(p[2..]);
      WithFirst(rest, [Stage([], Some(p[0]))] + rest.stages)
    else Chain([Stage([], Some(p[0]))], p[1], ToProgram(p[2..]))
  }

  // ----- Starting commands

  // posixpath.join
  function Join(a: string, b: string): string {
    if b != [] && b[0] == '/' then b
    else if a == [] || a[|a| - 1] == '/' then a + b
    else a + "/" + b
  }

  function ChangeDirs(cwd: string, dirs: seq<Option<string>>): Option<string>
    decreases |dirs|
  {
    if dirs == [] then Some(cwd)
    else if dirs[0].None? then None
    else ChangeDirs(Join(cwd, dirs[0].value), dirs[1..])
  }

  predicate IsDevNull(name: string) {
    name == "NUL:" || name == "/dev/null"
  }

  // The input of a command; inside a pipe its own redirection is ignored.
  function InputOf(c: Node, previous: Option<nat>, fd: nat): (Source, seq<Event>)
    requires c.Command?
  {
    if previous.Some? then (OutputOf(previous.value), [])
    else if c.stdin.Some? then (FileInput(fd), [Opened(fd, c.stdin.value, false)])
    else (ParentInput, [])
  }

  function OutputTo(r: Redirect, fd: nat): (Sink, seq<Event>) {
    match r
    case Inherit => (ParentOutput, [])
    case ToPipe => (NewPipe, [])
    case ToStdout => (SameAsStdout, [])
    case ToFile(name) => if IsDevNull(name) then (DevNull, []) else (FileOutput(fd), [Opened(fd, name, true)])
  }

  // What the streams of a command are connected to, and the files opened for it, in this order.
  datatype Streams = Streams(stdin: Source, stdout: Sink, stderr: Sink, opens: seq<Event>)

  function StreamsOf(c: Node, previous: Option<nat>, w: World): Streams
    requires c.Command?
  {
    var ins := InputOf(c, previous, w.fds);
    var outs := OutputTo(c.stdout, w.fds + |ins.1|);
    var errs := OutputTo(c.stderr, w.fds + |ins.1| + |outs.1|);
    Streams(ins.0, outs.0, errs.0, ins.1 + outs.1 + errs.1)
  }

  function Opens(c: Node, previous: Option<nat>, w: World): seq<Event>
    requires c.Command?
  {
    StreamsOf(c, previous, w).opens
  }

  // ----- What the streams are, by the fields of the command

  // Inherited, a pipe, the same as stdout, the null device under either name, or a file that was
  // opened for writing.
  predicate OutputIs(r: Redirect, sink: Sink, before: seq<Event>) {
    match r
    case Inherit => sink == ParentOutput
    case ToPipe => sink == NewPipe
    case ToStdout => sink == SameAsStdout
    case ToFile(name) =>
      if name == "NUL:" || name == "/dev/null" then sink == DevNull
      else sink.FileOutput? && Opened(sink.fd, name, true) in before
  }

  // The output of the process before in a pipe, otherwise a file that was opened for reading, or
  // inherited.
  predicate InputIs(c: Node, previous: Option<nat>, source: Source, before: seq<Event>)
    requires c.Command?
  {
    if previous.Some? then source == OutputOf(previous.value)
    else if c.stdin.Some? then source.FileInput? && Opened(source.fd, c.stdin.value, false) in before
    else source == ParentInput
  }

  // The file opened is one of the three streams.
  predicate IsStream(c: Node, stdin: Source, stdout: Sink, stderr: Sink, o: Event)
    requires c.Command?
  {
    o.Opened? &&
    (|| (stdin == FileInput(o.fd) && c.stdin == Some(o.name) && !o.writing)
     || (stdout == FileOutput(o.fd) && c.stdout == ToFile(o.name) && o.writing)
     || (stderr == FileOutput(o.fd) && c.stderr == ToFile(o.name) && o.writing))
  }

  // No file is two streams.
  predicate StreamsApart(stdin: Source, stdout: Sink, stderr: Sink) {
    && (stdin.FileInput? && stdout.FileOutput? ==> stdin.fd != stdout.fd)
    && (stdin.FileInput? && stderr.FileOutput? ==> stdin.fd != stderr.fd)
    && (stdout.FileOutput? && stderr.FileOutput? ==> stdout.fd != stderr.fd)
  }

  // Each stream is what its field asks for, and nothing else is opened.
  ghost predicate StreamsAre(c: Node, previous: Option<nat>, s: Streams)
    requires c.Command?
  {
    && InputIs(c, previous, s.stdin, s.opens) && OutputIs(c.stdout, s.stdout, s.opens)
    && OutputIs(c.stderr, s.stderr, s.opens) && StreamsApart(s.stdin, s.stdout, s.stderr)
    && forall o :: o in s.opens ==> IsStream(c, s.stdin, s.stdout, s.stderr, o)
  }

  // One output: what it is, and at most one event, which opens it.
  predicate OutputPart(r: Redirect, fd: nat, sink: Sink, opens: seq<Event>) {
    && OutputIs(r, sink, opens)
    && if sink.FileOutput? then r.ToFile? && sink.fd == fd && opens == [Opened(fd, r.name, true)] else opens == []
  }

  predicate InputPart(c: Node, previous: Option<nat>, fd: nat, source: Source, opens: seq<Event>)
    requires c.Command?
  {
    && InputIs(c, previous, source, opens)
    && if source.FileInput? then c.stdin.Some? && source.fd == fd && opens == [Opened(fd, c.stdin.value, false)]
       else opens == []
  }

  lemma OutputAsAsked(r: Redirect, fd: nat)
    ensures OutputPart(r, fd, OutputTo(r, fd).0, OutputTo(r, fd).1)
  {
  }

  lemma InputAsAsked(c: Node, previous: Option<nat>, fd: nat)
    requires c.Command?
    ensures InputPart(c, previous, fd, InputOf(c, previous, fd).0, InputOf(c, previous, fd).1)
  {
  }

  lemma StreamsAsAsked(c: Node, previous: Option<nat>, w: World, s: Streams)
    requires c.Command? && s == StreamsOf(c, previous, w)
    ensures StreamsAre(c, previous, s)
  {
    var ins := InputOf(c, previous, w.fds);
    var outs := OutputTo(c.stdout, w.fds + |ins.1|);
    var errs := OutputTo(c.stderr, w.fds + |ins.1| + |outs.1|);
    InputAsAsked(c, previous, w.fds);
    OutputAsAsked(c.stdout, w.fds + |ins.1|);
    OutputAsAsked(c.stderr, w.fds + |ins.1| + |outs.1|);
    PartsTogether(c, previous, w.fds, ins, outs, errs);
    assert s == Streams(ins.0, outs.0, errs.0, ins.1 + outs.1 + errs.1);
  }

  lemma PartsTogether(c: Node, previous: Option<nat>, fd: nat, ins: (Source, seq<Event>), outs: (Sink, seq<Event>),
                      errs: (Sink, seq<Event>))
    requires c.Command? && InputPart(c, previous, fd, ins.0, ins.1)
    requires OutputPart(c.stdout, fd + |ins.1|, outs.0, outs.1)
    requires OutputPart(c.stderr, fd + |ins.1| + |outs.1|, errs.0, errs.1)
    ensures StreamsAre(c, previous, Streams(ins.0, outs.0, errs.0, ins.1 + outs.1 + errs.1))
  {
    var opens := ins.1 + outs.1 + errs.1;
    InputLater(c, previous, ins.0, ins.1, opens);
    OutputLater(c.stdout, outs.0, outs.1, opens);
    OutputLater(c.stderr, errs.0, errs.1, opens);
    forall o | o in opens ensures IsStream(c, ins.0, outs.0, errs.0, o) {
      assert o in ins.1 || o in outs.1 || o in errs.1;
    }
  }

  lemma InputLater(c: Node, previous: Option<nat>, source: Source, before: seq<Event>, later: seq<Event>)
    requires c.Command? && InputIs(c, previous, source, before) && forall o :: o in before ==> o in later
    ensures InputIs(c, previous, source, later)
  {
  }

  lemma OutputLater(r: Redirect, sink: Sink, before: seq<Event>, later: seq<Event>)
    requires OutputIs(r, sink, before) && forall o :: o in before ==> o in later
    ensures OutputIs(r, sink, later)
  {
  }

  function StartOf(c: Node, previous: Option<nat>, cwd: string, w: World): Event
    requires c.Command?
  {
    var s := StreamsOf(c, previous, w);
    Started(w.pids, c.argv, s.stdin, s.stdout, s.stderr,
            if c.envVars.Some? && c.envVars.value != map[] then c.envVars else None,
            if cwd == "." then None else Some(cwd))
  }

  function AfterLaunch(c: Node, previous: Option<nat>, w: World): World
    requires c.Command?
  {
    World(w.pids + 1, w.fds + |Opens(c, previous, w)|)
  }

  // The process started before this one in the same segment.
  function Previous(start: World, w: World): Option<nat> {
    if start.pids < w.pids then Some(w.pids - 1) else None
  }

  // ----- Segments

  datatype SegmentRun = SegmentRun(events: seq<Event>, cwd: string, w: World, failed: Option<Outcome>)

  function LaunchAll(stages: seq<Stage>, cwd: string, start: World, w: World): (r: SegmentRun)
    requires start.pids <= w.pids
    ensures w.pids <= r.w.pids
    ensures stages != [] && r.failed.None? ==> w.pids < r.w.pids
    ensures r.failed.Some? ==> r.failed.value.TypeError? || r.failed.value.IndexError?
  {
    if stages == [] then SegmentRun([], cwd, w, None)
    else
      var dir := ChangeDirs(cwd, stages[0].dirs);
      if dir.None? then SegmentRun([], "", w, Some(TypeError))
      else if stages[0].cmd.None? || !stages[0].cmd.value.Command? then SegmentRun([], dir.value, w, Some(IndexError))
      else
        var c, previous := stages[0].cmd.value, Previous(start, w);
        var later := LaunchAll(stages[1..], dir.value, start, AfterLaunch(c, previous, w));
        later.(events := Opens(c, previous, w) + [StartOf(c, previous, dir.value, w)] + later.events)
  }

  function Range(lo: nat, hi: nat): seq<nat> {
    if hi <= lo then [] else Range(lo, hi - 1) + [hi - 1]
  }

  function WaitsFor(pids: seq<nat>): seq<Event> {
    seq(|pids|, i requires 0 <= i < |pids| => Waited(pids[i]))
  }

  function ClosesFor(fds: seq<nat>): seq<Event> {
    seq(|fds|, i requires 0 <= i < |fds| => FileClosed(fds[i]))
  }

  // Wait for the processes and close the files of a segment.
  function Finish(start: World, w: World): seq<Event> {
    WaitsFor(Range(start.pids, w.pids)) + ClosesFor(Range(start.fds, w.fds))
  }

  function After(events: seq<Event>, r: (Outcome, seq<Event>)): (Outcome, seq<Event>) {
    (r.0, events + r.1)
  }

  // ----- The evaluator

  /* Run the first segment, whose processes and files are numbered from `start` and of which
     those below `w` exist already; wait for all of it; close its files; then either stop with
     the status of its last command or go on with the rest. */
  function Eval(prog: Program, status: nat -> int, verbose: bool, cwd: string, start: World, w: World)
    : (Outcome, seq<Event>)
    requires start.pids <= w.pids
    decreases prog, 1
  {
    EndSegment(prog, LaunchAll(prog.stages, cwd, start, w), status, verbose, start)
  }

  // What happens once all commands of the first segment were started.
  function EndSegment(prog: Program, s: SegmentRun, status: nat -> int, verbose: bool, start: World)
    : (Outcome, seq<Event>)
    decreases prog, 0
  {
    if s.failed.Some? then (s.failed.value, s.events)
    else
      var events := s.events + Finish(start, s.w);
      var last := if s.w.pids == 0 then 0 else status(s.w.pids - 1);
      match prog
      case Final(_) => (Returned(last), events)
      case Chain(_, op, rest) =>
        if verbose then (UnboundLocalError, events)
        else if Stops(op, last) then (Returned(last), events)
        else After(events, Eval(rest, status, verbose, s.cwd, s.w, s.w))
  }

  // && stops on failure, || on success.
  predicate Stops(op: Node, status: int) {
    if op.And? then status != 0 else status == 0
  }

  // ----- The evaluator, one node at a time

  lemma AfterTwice(a: seq<Event>, b: seq<Event>, r: (Outcome, seq<Event>))
    ensures After(a, After(b, r)) == After(a + b, r)
  {
    assert a + (b + r.1) == a + b + r.1;
  }

  lemma AfterNothing(r: (Outcome, seq<Event>))
    ensures After([], r) == r
  {
    assert [] + r.1 == r.1;
  }

  function Launch(c: Node, cwd: string, start: World, w: World): seq<Event>
    requires c.Command?
  {
    Opens(c, Previous(start, w), w) + [StartOf(c, Previous(start, w), cwd, w)]
  }

  function Launched(c: Node, start: World, w: World): World
    requires c.Command?
  {
    AfterLaunch(c, Previous(start, w), w)
  }

  // The last event starts the command as its fields ask; the others open its files.
  ghost predicate StartsAsAsked(c: Node, cwd: string, previous: Option<nat>, pid: nat, events: seq<Event>)
    requires c.Command?
  {
    events != [] && events[|events| - 1].Started? &&
    var e, opens := events[|events| - 1], events[..|events| - 1];
    && e.pid == pid && e.argv == c.argv
    && e.env == (if c.envVars.Some? && c.envVars.value != map[] then c.envVars else None)
    && e.cwd == (if cwd == "." then None else Some(cwd))
    && StreamsAre(c, previous, Streams(e.stdin, e.stdout, e.stderr, opens))
  }

  lemma LaunchAsAsked(c: Node, cwd: string, start: World, w: World)
    requires c.Command?
    ensures StartsAsAsked(c, cwd, Previous(start, w), w.pids, Launch(c, cwd, start, w))
  {
    StreamsAsAsked(c, Previous(start, w), w, StreamsOf(c, Previous(start, w), w));
    var events := Launch(c, cwd, start, w);
    assert events[..|events| - 1] == Opens(c, Previous(start, w), w);
  }

  lemma LaunchOne(c: Node, more: seq<Stage>, cwd: string, start: World, w: World)
    requires c.Command? && start.pids <= w.pids
    ensures LaunchAll([Stage([], Some(c))] + more, cwd, start, w) ==
      var later := LaunchAll(more, cwd, start, Launched(c, start, w));
      later.(events := Launch(c, cwd, start, w) + later.events)
  {
    var stages := [Stage([], Some(c))] + more;
    assert stages[1..] == more;
  }

  lemma EvalLast(p: seq<Node>, status: nat -> int, verbose: bool, cwd: string, start: World, w: World)
    requires Shaped(p) && |p| == 1 && p[0].Command? && start.pids <= w.pids
    ensures Eval(ToProgram(p), status, verbose, cwd, start, w) ==
      (Returned(status(w.pids)), Launch(p[0], cwd, start, w) + Finish(start, Launched(p[0], start, w)))
  {
    LaunchOne(p[0], [], cwd, start, w);
    assert [Stage([], Some(p[0]))] + [] == [Stage([], Some(p[0]))];
    assert Launch(p[0], cwd, start, w) + [] == Launch(p[0], cwd, start, w);
  }

  lemma EvalPipe(p: seq<Node>, status: nat -> int, verbose: bool, cwd: string, start: World, w: World)
    requires Shaped(p) && |p| > 1 && p[0].Command? && p[1].Pipe? && start.pids <= w.pids
    ensures Eval(ToProgram(p), status, verbose, cwd, start, w) ==
      After(Launch(p[0], cwd, start, w), Eval(ToProgram(p[2..]), status, verbose, cwd, start, Launched(p[0], start, w)))
  {
    EvalWithCommand(ToProgram(p[2..]), p[0], status, verbose, cwd, start, w);
  }

  // A command put in front of the first segment of a program.
  lemma EvalWithCommand(prog: Program, c: Node, status: nat -> int, verbose: bool, cwd: string, start: World, w: World)
    requires c.Command? && start.pids <= w.pids
    ensures Eval(WithFirst(prog, [Stage([], Some(c))] + prog.stages), status, verbose, cwd, start, w) ==
      After(Launch(c, cwd, start, w), Eval(prog, status, verbose, cwd, start, Launched(c, start, w)))
  {
    LaunchOne(c, prog.stages, cwd, start, w);
    var s := LaunchAll(prog.stages, cwd, start, Launched(c, start, w));
    EndSegmentLater(prog, s, Launch(c, cwd, start, w), status, verbose, start);
    EndSegmentSame(prog, [Stage([], Some(c))] + prog.stages, s.(events := Launch(c, cwd, start, w) + s.events),
                   status, verbose, start);
  }

  lemma EndSegmentSame(prog: Program, stages: seq<Stage>, s: SegmentRun,
                       status: nat -> int, verbose: bool, start: World)
    ensures EndSegment(WithFirst(prog, stages), s, status, verbose, start)
      == EndSegment(prog, s, status, verbose, start)
  {
  }

  lemma EndSegmentLater(prog: Program, s: SegmentRun, events: seq<Event>,
                        status: nat -> int, verbose: bool, start: World)
    ensures EndSegment(prog, s.(events := events + s.events), status, verbose, start) ==
      After(events, EndSegment(prog, s, status, verbose, start))
  {
    if s.failed.None? {
      assert events + s.events + Finish(start, s.w) == events + (s.events + Finish(start, s.w));
      if prog.Chain? {
        AfterTwice(events, s.events + Finish(start, s.w), Eval(prog.rest, status, verbose, s.cwd, s.w, s.w));
      }
    }
  }

  lemma EvalOperator(p: seq<Node>, status: nat -> int, verbose: bool, cwd: string, start: World, w: World)
    requires Shaped(p) && |p| > 1 && p[0].Command? && !p[1].Pipe? && start.pids <= w.pids
    ensures var w' := Launched(p[0], start, w);
      var events := Launch(p[0], cwd, start, w) + Finish(start, w');
      Eval(ToProgram(p), status, verbose, cwd, start, w) ==
        if verbose then (UnboundLocalError, events)
        else if (p[1].And? && status(w.pids) == 0) || (p[1].Or? && status(w.pids) != 0) then
          After(events, Eval(ToProgram(p[2..]), status, verbose, cwd, w', w'))
        else (Returned(status(w.pids)), events)
  {
    LaunchOne(p[0], [], cwd, start, w);
    assert [Stage([], Some(p[0]))] + [] == [Stage([], Some(p[0]))];
    assert Launch(p[0], cwd, start, w) + [] == Launch(p[0], cwd, start, w);
  }

  lemma EvalChdir(p: seq<Node>, status: nat -> int, verbose: bool, cwd: string, start: World, w: World)
    requires Shaped(p) && p[0].Chdir? && start.pids <= w.pids
    ensures Eval(ToProgram(p), status, verbose, cwd, start, w) ==
      if |p| == 1 then (IndexError, [])
      else if p[0].dir.None? then (TypeError, [])
      else Eval(ToProgram(p[2..]), status, verbose, Join(cwd, p[0].dir.value), start, w)
  {
    if |p| > 1 {
      var rest := ToProgram(p[2..]);
      var stages := WithDir(rest.stages, p[0].dir);
      LaunchWithDir(rest.stages, p[0].dir, cwd, start, w);
      EndSegmentSame(rest, stages, LaunchAll(stages, cwd, start, w), status, verbose, start);
    }
  }

  lemma LaunchWithDir(stages: seq<Stage>, dir: Option<string>, cwd: string, start: World, w: World)
    requires stages != [] && start.pids <= w.pids
    ensures LaunchAll(WithDir(stages, dir), cwd, start, w) ==
      if dir.None? then SegmentRun([], "", w, Some(TypeError)) else LaunchAll(stages, Join(cwd, dir.value), start, w)
  {
    assert ([dir] + stages[0].dirs)[1..] == stages[0].dirs;
    assert WithDir(stages, dir)[1..] == stages[1..];
  }
}
