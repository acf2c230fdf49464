/** The mini shell's `Pipeline` object (waf-tools/shellcmd.py): `parse` fills it from a list of
    tokens, `run` executes it.  Starting, opening, waiting and closing become events of a log. */
module Shell {
  import opened Options
  import opened ShellSyntax
  import opened ShellEval

  // An entry of files_to_close: the shared null device, which is never closed, or a file.
  datatype OpenFile = TheNullFile | RealFile(fd: nat)

  function RealFiles(files: seq<OpenFile>): seq<nat> {
    if files == [] then []
    else
      var last := files[|files| - 1];
      RealFiles(files[..|files| - 1]) + if last.RealFile? then [last.fd] else []
  }

  lemma RealFilesAppend(files: seq<OpenFile>, file: OpenFile)
    ensures RealFiles(files + [file]) == RealFiles(files) + if file.RealFile? then [file.fd] else []
  {
    assert (files + [file])[..|files|] == files;
  }

  // The processes and files of the current segment.
  ghost predicate SegmentState(start: World, w: World, pipedCommands: seq<nat>, filesToClose: seq<OpenFile>) {
    && start.pids <= w.pids && start.fds <= w.fds
    && pipedCommands == Range(start.pids, w.pids)
    && RealFiles(filesToClose) == Range(start.fds, w.fds)
  }

  lemma {:induction false} RangeLast(lo: nat, hi: nat)
    ensures |Range(lo, hi)| == if lo <= hi then hi - lo else 0
    ensures lo < hi ==> Range(lo, hi)[|Range(lo, hi)| - 1] == hi - 1
  {
    if lo < hi {
      RangeLast(lo, hi - 1);
    }
  }

  class Pipeline {
    var currentCommand: Option<Node>
    var pipeline: seq<Node>

    constructor ()
      ensures currentCommand == None && pipeline == []
    {
      currentCommand, pipeline := None, [];
    }

    method CommitCommand()
      requires currentCommand.Some?
      modifies this
      ensures pipeline == old(pipeline) + [old(currentCommand.value)] && currentCommand == None
    {
      pipeline := pipeline + [currentCommand.value];
      currentCommand := None;
    }

    // The grammar decides both success and result.
    method Parse(command: seq<string>) returns (r: ParseResult)
      modifies this
      ensures r == match ParseList(map[], command) { case Some(nodes) => Parsed(nodes) case None => AssertionError }
      ensures r.Parsed? ==> pipeline == r.nodes && currentCommand == None
    {
      currentCommand, pipeline := None, [];
      var tokens := command;
      var state := BEGIN;
      var envVars: EnvVars := map[];
      PrependNothing(ParseList(map[], command));
      while tokens != []
        invariant StateFits(state, currentCommand)
        invariant !state.BEGIN? ==> envVars == map[]
        invariant ParseList(map[], command) == Prepend(pipeline, Resume(state, currentCommand, envVars, tokens))
        decreases |tokens|
      {
        var token, left := tokens[0], tokens[1..];
        match state {
          case BEGIN =>
            var envVarMatch := EnvVar(token);
            if envVarMatch.Some? {
              envVars := envVars[envVarMatch.value.0 := envVarMatch.value.1];
            } else if token == "cd" {
              if envVars != map[] {
                return AssertionError;
              }
              currentCommand := Some(Chdir(None));
              state := CHDIR;
            } else {
              currentCommand := Some(NewCommand(token, envVars));
              envVars := map[];
              state := COMMAND;
            }
          case COMMAND =>
            var c := currentCommand.value;
            if token == ">" {
              ItemStep(c, tokens);
              state := STDOUT;
            } else if token == "2>" {
              ItemStep(c, tokens);
              state := STDERR;
            } else if token == "2>&1" {
              ItemStep(c, tokens);
              if c.stderr != Inherit {
                return AssertionError;
              }
              currentCommand := Some(c.(stderr := ToStdout));
            } else if token == "<" {
              ItemStep(c, tokens);
              state := STDIN;
            } else if token == "|" {
              if c.stdout != Inherit {
                return AssertionError;
              }
              currentCommand := Some(c.(stdout := ToPipe));
              PrependTwice(pipeline, [c.(stdout := ToPipe), Pipe], ParseList(map[], left));
              CommitOperator(Pipe);
              state := BEGIN;
            } else if token == "&&" {
              PrependTwice(pipeline, [c, And], ParseList(map[], left));
              CommitOperator(And);
              state := BEGIN;
            } else if token == "||" {
              PrependTwice(pipeline, [c, Or], ParseList(map[], left));
              CommitOperator(Or);
              state := BEGIN;
            } else {
              ItemStep(c, tokens);
              currentCommand := Some(c.(argv := c.argv + [token]));
            }
          case CHDIR =>
            var c := currentCommand.value;
            if token == "&&" {
              PrependTwice(pipeline, [c, And], ParseList(map[], left));
              CommitOperator(And);
              state := BEGIN;
            } else {
              if c.dir != None {
                return AssertionError;
              }
              currentCommand := Some(c.(dir := Some(token)));
            }
          case STDOUT =>
            if currentCommand.value.stdout != Inherit {
              return AssertionError;
            }
            currentCommand := Some(currentCommand.value.(stdout := ToFile(token)));
            state := COMMAND;
          case STDERR =>
            if currentCommand.value.stderr != Inherit {
              return AssertionError;
            }
            currentCommand := Some(currentCommand.value.(stderr := ToFile(token)));
            state := COMMAND;
          case STDIN =>
            if currentCommand.value.stdin != None {
              return AssertionError;
            }
            currentCommand := Some(currentCommand.value.(stdin := Some(token)));
            state := COMMAND;
        }
        tokens := left;
      }
      if currentCommand == None {
        return AssertionError;
      }
      CommitCommand();
      return Parsed(pipeline);
    }

    // Commit the current command and append the operator after it.
    method CommitOperator(op: Node)
      requires currentCommand.Some?
      modifies this
      ensures pipeline == old(pipeline) + [old(currentCommand.value), op] && currentCommand == None
    {
      CommitCommand();
      pipeline := pipeline + [op];
    }

    // _exec_piped_commands: wait for every process; the status is that of the last one as soon
    // as any of them failed.
    method ExecPipedCommands(commands: seq<nat>, status: nat -> int) returns (retval: int, events: seq<Event>)
      requires commands != []
      ensures retval == status(commands[|commands| - 1])
      ensures events == WaitsFor(commands)
    {
      var retvals: seq<int> := [];
      events := [];
      for i := 0 to |commands|
        invariant |retvals| == |events| == i
        invariant forall j :: 0 <= j < i ==> retvals[j] == status(commands[j]) && events[j] == Waited(commands[j])
      {
        events := events + [Waited(commands[i])];
        retvals := retvals + [status(commands[i])];
      }
      retval := 0;
      for i := 0 to |retvals|
        invariant retval == 0
        invariant forall j :: 0 <= j < i ==> retvals[j] == 0
      {
        if retvals[i] != 0 {
          retval := retvals[|retvals| - 1];
          break;
        }
      }
    }

    method CloseFiles(files: seq<OpenFile>) returns (events: seq<Event>)
      ensures events == ClosesFor(RealFiles(files))
    {
      events := [];
      for i := 0 to |files|
        invariant events == ClosesFor(RealFiles(files[..i]))
      {
        assert files[..i + 1] == files[..i] + [files[i]];
        if files[i] != TheNullFile {
          events := events + [FileClosed(files[i].fd)];
        }
      }
      assert files[..|files|] == files;
    }

    // Wait for the segment and close its files, whatever its status.
    method FinishSegment(commands: seq<nat>, files: seq<OpenFile>, status: nat -> int, ghost start: World, w: World)
      returns (retval: int, events: seq<Event>)
      requires SegmentState(start, w, commands, files) && start.pids < w.pids
      ensures retval == status(w.pids - 1) && events == Finish(start, w)
    {
      RangeLast(start.pids, w.pids);
      var waits, closes;
      retval, waits := ExecPipedCommands(commands, status);
      closes := CloseFiles(files);
      events := waits + closes;
    }

    // _open_out_file
    method OpenOutFile(r: Redirect, ghost lo: nat, fd: nat, files0: seq<OpenFile>)
      returns (sink: Sink, files: seq<OpenFile>, events: seq<Event>)
      requires lo <= fd && RealFiles(files0) == Range(lo, fd)
      ensures (sink, events) == OutputTo(r, fd)
      ensures RealFiles(files) == Range(lo, fd + |events|)
    {
      files, events := files0, [];
      match r
      case Inherit => sink := ParentOutput;
      case ToPipe => sink := NewPipe;
      case ToStdout => sink := SameAsStdout;
      case ToFile(name) =>
        if IsDevNull(name) {
          sink := DevNull;
          files := files + [TheNullFile];
          RealFilesAppend(files0, TheNullFile);
        } else {
          sink := FileOutput(fd);
          files := files + [RealFile(fd)];
          events := [Opened(fd, name, true)];
          RealFilesAppend(files0, RealFile(fd));
        }
    }

    // Inside a pipe read from the previous process, otherwise from the named file, if any.
    method OpenInFile(cmd: Node, previous: Option<nat>, ghost lo: nat, fd: nat, files0: seq<OpenFile>)
      returns (stdin: Source, files: seq<OpenFile>, events: seq<Event>)
      requires cmd.Command? && lo <= fd && RealFiles(files0) == Range(lo, fd)
      ensures (stdin, events) == InputOf(cmd, previous, fd)
      ensures RealFiles(files) == Range(lo, fd + |events|)
    {
      stdin, files, events := ParentInput, files0, [];
      if previous.Some? {
        stdin := OutputOf(previous.value);
      } else if cmd.stdin != None {
        stdin, events := FileInput(fd), [Opened(fd, cmd.stdin.value, false)];
        files := files + [RealFile(fd)];
        RealFilesAppend(files0, RealFile(fd));
      }
    }

    // Open the files of a command, in the order stdin, stdout, stderr.
    method OpenFiles(cmd: Node, previous: Option<nat>, ghost lo: nat, w: World, files0: seq<OpenFile>)
      returns (streams: Streams, files: seq<OpenFile>)
      requires cmd.Command? && lo <= w.fds && RealFiles(files0) == Range(lo, w.fds)
      ensures streams == StreamsOf(cmd, previous, w) && StreamsAre(cmd, previous, streams)
      ensures RealFiles(files) == Range(lo, w.fds + |streams.opens|)
    {
      var stdin, stdout, stderr, ins, outs, errs;
      stdin, files, ins := OpenInFile(cmd, previous, lo, w.fds, files0);
      stdout, files, outs := OpenOutFile(cmd.stdout, lo, w.fds + |ins|, files);
      stderr, files, errs := OpenOutFile(cmd.stderr, lo, w.fds + |ins| + |outs|, files);
      streams := Streams(stdin, stdout, stderr, ins + outs + errs);
      assert |streams.opens| == |ins| + |outs| + |errs|;
      StreamsAsAsked(cmd, previous, w, streams);
    }

    // Open the files of a command and start its process.
    method StartCommand(cmd: Node, previous: Option<nat>, cwd: string, ghost lo: nat, w: World, files0: seq<OpenFile>)
      returns (w': World, files: seq<OpenFile>, events: seq<Event>)
      requires cmd.Command? && lo <= w.fds && RealFiles(files0) == Range(lo, w.fds)
      ensures events == Opens(cmd, previous, w) + [StartOf(cmd, previous, cwd, w)]
      ensures w' == AfterLaunch(cmd, previous, w) && RealFiles(files) == Range(lo, w'.fds)
    {
      var s;
      s, files := OpenFiles(cmd, previous, lo, w, files0);
      var env := if cmd.envVars != None && cmd.envVars.value != map[] then cmd.envVars else None;
      var procCwd := if cwd == "." then None else Some(cwd);
      events := s.opens + [Started(w.pids, cmd.argv, s.stdin, s.stdout, s.stderr, env, procCwd)];
      w' := World(w.pids + 1, w.fds + |s.opens|);
    }

    // Start a command of the current segment, reading from the previous one if there is a pipe.
    method LaunchNode(cmd: Node, inPipe: bool, cwd: string, ghost start: World, w: World,
                      pipedCommands0: seq<nat>, files0: seq<OpenFile>)
      returns (w': World, pipedCommands: seq<nat>, files: seq<OpenFile>, events: seq<Event>)
      requires cmd.Command? && SegmentState(start, w, pipedCommands0, files0) && (inPipe <==> pipedCommands0 != [])
      ensures w' == Launched(cmd, start, w) && events == Launch(cmd, cwd, start, w)
      ensures SegmentState(start, w', pipedCommands, files)
    {
      RangeLast(start.pids, w.pids);
      var previous := if inPipe then Some(pipedCommands0[|pipedCommands0| - 1]) else None;
      w', files, events := StartCommand(cmd, previous, cwd, start.fds, w, files0);
      pipedCommands := pipedCommands0 + [w.pids];
    }

    // The exit status, or the exception, and the log of what was done.
    method Run(status: nat -> int, verbose: bool) returns (outcome: Outcome, log: seq<Event>)
      requires Shaped(pipeline)
      ensures (outcome, log) == Eval(ToProgram(pipeline), status, verbose, ".", World(0, 0), World(0, 0))
    {
      var todo := pipeline;
      var filesToClose: seq<OpenFile>, pipedCommands: seq<nat> := [], [];
      var inPipe, cwd := false, ".";
      log := [];
      var w := World(0, 0);
      ghost var start := w;
      ghost var whole := Eval(ToProgram(pipeline), status, verbose, ".", w, w);
      AfterNothing(whole);
      while true
        invariant SegmentState(start, w, pipedCommands, filesToClose)
        invariant inPipe <==> pipedCommands != []
        invariant StillToCome(whole, log, todo, status, verbose, cwd, start, w)
        decreases |todo|
      {
        ghost var list := todo;
        var node := todo[0];
        todo := todo[1..];
        if node.Chdir? {
          ComeChdir(whole, log, list, status, verbose, cwd, start, w);
          if todo == [] {
            return IndexError, log;
          }
          todo := todo[1..];
          if node.dir == None {
            return TypeError, log;
          }
          cwd := Join(cwd, node.dir.value);
          continue;
        }
        var launch, finish, retval;
        ghost var before := w;
        w, pipedCommands, filesToClose, launch := LaunchNode(node, inPipe, cwd, start, w, pipedCommands, filesToClose);
        if todo == [] {
          ComeLast(whole, log, list, status, verbose, cwd, start, before);
          retval, finish := FinishSegment(pipedCommands, filesToClose, status, start, w);
          return Returned(retval), log + (launch + finish);
        }
        var nextNode := todo[0];
        todo := todo[1..];
        if nextNode.Pipe? {
          ComePipe(whole, log, list, status, verbose, cwd, start, before);
          log := log + launch;
          inPipe := true;
        } else {
          ComeOperator(whole, log, list, status, verbose, cwd, start, before);
          retval, finish := FinishSegment(pipedCommands, filesToClose, status, start, w);
          log := log + (launch + finish);
          if nextNode.Or? {
            if retval == 0 {
              if verbose {
                return UnboundLocalError, log;
              }
              return Returned(retval), log;
            }
          } else {
            if retval != 0 {
              if verbose {
                return UnboundLocalError, log;
              }
              return Returned(retval), log;
            }
          }
          if verbose {
            return UnboundLocalError, log;
          }
          inPipe, pipedCommands, filesToClose := false, [], [];
          start := w;
        }
      }
    }
  }

  // ----- What the evaluator still has to say, given the log so far

  ghost predicate StillToCome(whole: (Outcome, seq<Event>), log: seq<Event>, todo: seq<Node>,
                              status: nat -> int, verbose: bool, cwd: string, start: World, w: World) {
    Shaped(todo) && start.pids <= w.pids && whole == After(log, Eval(ToProgram(todo), status, verbose, cwd, start, w))
  }

  lemma ComeChdir(whole: (Outcome, seq<Event>), log: seq<Event>, p: seq<Node>,
                  status: nat -> int, verbose: bool, cwd: string, start: World, w: World)
    requires StillToCome(whole, log, p, status, verbose, cwd, start, w) && p[0].Chdir?
    ensures |p| == 1 ==> whole == (IndexError, log)
    ensures |p| > 1 && p[0].dir.None? ==> whole == (TypeError, log)
    ensures |p| > 1 && p[0].dir.Some? ==>
      p[1..][1..] == p[2..] && StillToCome(whole, log, p[2..], status, verbose, Join(cwd, p[0].dir.value), start, w)
  {
    EvalChdir(p, status, verbose, cwd, start, w);
    assert log + [] == log;
  }

  lemma ComeLast(whole: (Outcome, seq<Event>), log: seq<Event>, p: seq<Node>,
                 status: nat -> int, verbose: bool, cwd: string, start: World, w: World)
    requires StillToCome(whole, log, p, status, verbose, cwd, start, w) && p[0].Command? && |p| == 1
    ensures whole ==
      (Returned(status(w.pids)), log + (Launch(p[0], cwd, start, w) + Finish(start, Launched(p[0], start, w))))
  {
    EvalLast(p, status, verbose, cwd, start, w);
  }

  lemma ComePipe(whole: (Outcome, seq<Event>), log: seq<Event>, p: seq<Node>,
                 status: nat -> int, verbose: bool, cwd: string, start: World, w: World)
    requires StillToCome(whole, log, p, status, verbose, cwd, start, w) && p[0].Command? && |p| > 1 && p[1].Pipe?
    ensures p[1..][1..] == p[2..]
    ensures StillToCome(whole, log + Launch(p[0], cwd, start, w), p[2..], status, verbose, cwd, start,
                        Launched(p[0], start, w))
  {
    EvalPipe(p, status, verbose, cwd, start, w);
    AfterTwice(log, Launch(p[0], cwd, start, w),
               Eval(ToProgram(p[2..]), status, verbose, cwd, start, Launched(p[0], start, w)));
  }

  lemma ComeOperator(whole: (Outcome, seq<Event>), log: seq<Event>, p: seq<Node>,
                     status: nat -> int, verbose: bool, cwd: string, start: World, w: World)
    requires StillToCome(whole, log, p, status, verbose, cwd, start, w) && p[0].Command? && |p| > 1 && !p[1].Pipe?
    ensures p[1..][1..] == p[2..] && IsOp(p[1])
    ensures var w' := Launched(p[0], start, w);
      var log' := log + (Launch(p[0], cwd, start, w) + Finish(start, w'));
      if verbose then whole == (UnboundLocalError, log')
      else if (p[1].And? && status(w.pids) == 0) || (p[1].Or? && status(w.pids) != 0) then
        StillToCome(whole, log', p[2..], status, verbose, cwd, w', w')
      else whole == (Returned(status(w.pids)), log')
  {
    EvalOperator(p, status, verbose, cwd, start, w);
    var w' := Launched(p[0], start, w);
    AfterTwice(log, Launch(p[0], cwd, start, w) + Finish(start, w'),
               Eval(ToProgram(p[2..]), status, verbose, cwd, w', w'));
  }
}
