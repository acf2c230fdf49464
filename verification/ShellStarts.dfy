/** Which commands of a pipeline a run starts (waf-tools/shellcmd.py), by the exit statuses. */
module ShellStarts {
  import opened Options
  import opened Sequences
  import opened ShellSyntax
  import opened ShellEval
  import opened ShellRuns

  // From a command or directory change the run goes on to what stands after the next operator:
  // always after a pipe, on status 0 after &&, on any other status after ||.
  predicate GoesOnFrom(p: seq<Node>, m: nat, status: nat -> int, verbose: bool)
    requires m + 1 < |p|
  {
    if p[m].Chdir? then p[m].dir.Some?
    else
      || p[m + 1].Pipe?
      || (p[m + 1].And? && !verbose && status(CommandsBefore(p, m)) == 0)
      || (p[m + 1].Or? && !verbose && status(CommandsBefore(p, m)) != 0)
  }

  predicate ComesFrom(p: seq<Node>, m: nat, n: nat, status: nat -> int, verbose: bool)
    requires n < |p|
  {
    n == m || (n >= m + 2 && ComesFrom(p, m, n - 2, status, verbose) && GoesOnFrom(p, n - 2, status, verbose))
  }

  ghost predicate Starts(log: seq<Event>, pid: nat) {
    exists i :: 0 <= i < |log| && log[i].Started? && log[i].pid == pid
  }

  lemma {:induction false} ComesFirst(p: seq<Node>, m: nat, n: nat, status: nat -> int, verbose: bool)
    requires m < n < |p|
    ensures ComesFrom(p, m, n, status, verbose) <==>
      n >= m + 2 && GoesOnFrom(p, m, status, verbose) && ComesFrom(p, m + 2, n, status, verbose)
    decreases n
  {
    if n > m + 2 {
      ComesFirst(p, m, n - 2, status, verbose);
    }
  }

  lemma {:induction false} CommandsGrow(p: seq<Node>, m: nat, n: nat)
    requires m <= n <= |p|
    ensures CommandsBefore(p, m) <= CommandsBefore(p, n)
    decreases n
  {
    if m < n {
      CommandsGrow(p, m, n - 1);
    }
  }

  lemma StartsConcat(a: seq<Event>, b: seq<Event>, pid: nat)
    ensures Starts(a + b, pid) <==> Starts(a, pid) || Starts(b, pid)
  {
    assert forall i :: 0 <= i < |a| ==> (a + b)[i] == a[i];
    assert forall i :: 0 <= i < |b| ==> (a + b)[|a| + i] == b[i];
  }

  lemma LaunchStarts(c: Node, cwd: string, start: World, w: World, pid: nat)
    requires c.Command?
    ensures Starts(Launch(c, cwd, start, w), pid) <==> pid == w.pids
  {
    var opens := Opens(c, Previous(start, w), w);
    OpensNumbered(c, Previous(start, w), w);
    StartsConcat(opens, [StartOf(c, Previous(start, w), cwd, w)], pid);
    assert [StartOf(c, Previous(start, w), cwd, w)][0].pid == w.pids;
  }

  lemma FinishStarts(start: World, w: World, pid: nat)
    ensures !Starts(Finish(start, w), pid)
  {
  }

  lemma {:induction false} RestStarts(p: seq<Node>, m: nat, n: nat, status: nat -> int, verbose: bool,
                                      start: World, w: World, log: seq<Event>)
    requires At(p, m, start, w) && m <= n < |p| && p[n].Command?
    requires log == Eval(ToProgram(p[m..]), status, verbose, DirsBefore(p, m), start, w).1
    ensures Starts(log, CommandsBefore(p, n)) <==> ComesFrom(p, m, n, status, verbose)
    decreases |p| - m, 1
  {
    var list := p[m..];
    if n > m {
      ComesFirst(p, m, n, status, verbose);
      Second(p, m, n);
    }
    if list[0].Chdir? {
      EvalChdir(list, status, verbose, DirsBefore(p, m), start, w);
      TwoOn(p, m);
      if list[0].dir.Some? {
        RestStarts(p, m + 2, n, status, verbose, start, w, log);
      }
    } else {
      CommandStarts(p, m, n, status, verbose, start, w, log);
    }
  }

  // After a command or directory change stands an operator.
  lemma Second(p: seq<Node>, m: nat, n: nat)
    requires m < n < |p| && Shaped(p[m..]) && p[n].Command?
    ensures n >= m + 2
  {
    assert p[m..][1] == p[m + 1];
  }

  lemma CommandStarts(p: seq<Node>, m: nat, n: nat, status: nat -> int, verbose: bool,
                      start: World, w: World, log: seq<Event>)
    requires At(p, m, start, w) && p[m].Command? && m <= n < |p| && p[n].Command?
    requires log == Eval(ToProgram(p[m..]), status, verbose, DirsBefore(p, m), start, w).1
    ensures Starts(log, CommandsBefore(p, n)) <==> ComesFrom(p, m, n, status, verbose)
    decreases |p| - m, 0
  {
    var list, cwd, w', pid := p[m..], DirsBefore(p, m), Launched(p[m], start, w), CommandsBefore(p, n);
    var launch, finish := Launch(p[m], cwd, start, w), Finish(start, w');
    LaunchStarts(p[m], cwd, start, w, pid);
    FinishStarts(start, w', pid);
    StartsConcat(launch, finish, pid);
    if n > m {
      ComesFirst(p, m, n, status, verbose);
      Second(p, m, n);
      CommandsGrow(p, m + 1, n);
    }
    if |list| == 1 {
      EvalLast(list, status, verbose, cwd, start, w);
    } else {
      TwoOn(p, m);
      assert list[1] == p[m + 1];
      if list[1].Pipe? {
        var later := Eval(ToProgram(p[m + 2..]), status, verbose, cwd, start, w').1;
        EvalPipe(list, status, verbose, cwd, start, w);
        StartsConcat(launch, later, pid);
        LaterStarts(p, m, n, status, verbose, start, w', later);
      } else {
        var later := Eval(ToProgram(p[m + 2..]), status, verbose, cwd, w', w').1;
        EvalOperator(list, status, verbose, cwd, start, w);
        StartsConcat(launch + finish, later, pid);
        LaterStarts(p, m, n, status, verbose, w', w', later);
      }
    }
  }

  // What the rest of the run starts, as seen from the command before it.
  lemma LaterStarts(p: seq<Node>, m: nat, n: nat, status: nat -> int, verbose: bool, start: World, w: World,
                    log: seq<Event>)
    requires m + 2 < |p| && At(p, m + 2, start, w) && m <= n < |p| && p[n].Command? && (n == m || n >= m + 2)
    requires log == Eval(ToProgram(p[m + 2..]), status, verbose, DirsBefore(p, m + 2), start, w).1
    ensures n >= m + 2 ==> (Starts(log, CommandsBefore(p, n)) <==> ComesFrom(p, m + 2, n, status, verbose))
    decreases |p| - m - 1
  {
    if n >= m + 2 {
      RestStarts(p, m + 2, n, status, verbose, start, w, log);
    }
  }

  // The run comes to a node along operators that let it go on.
  predicate ComesTo(p: seq<Node>, n: nat, status: nat -> int, verbose: bool)
    requires n < |p|
  {
    ComesFrom(p, 0, n, status, verbose)
  }

  // In every run, a command is started if and only if the run comes to it.
  lemma StartedIff(p: seq<Node>, status: nat -> int, verbose: bool, n: nat)
    requires Shaped(p) && n < |p| && p[n].Command?
    ensures Starts(Eval(ToProgram(p), status, verbose, ".", World(0, 0), World(0, 0)).1, CommandsBefore(p, n)) <==>
      ComesTo(p, n, status, verbose)
  {
    assert p[0..] == p;
    RestStarts(p, 0, n, status, verbose, World(0, 0), World(0, 0),
               Eval(ToProgram(p), status, verbose, ".", World(0, 0), World(0, 0)).1);
  }

  // The command after && starts if and only if the one before it was started and returned 0, that
  // after || if and only if it returned anything else, and that after a pipe in any case.
  lemma NextStartedIff(p: seq<Node>, status: nat -> int, n: nat)
    requires Shaped(p) && n + 2 < |p| && p[n].Command? && p[n + 2].Command?
    ensures var log, k := Eval(ToProgram(p), status, false, ".", World(0, 0), World(0, 0)).1, CommandsBefore(p, n);
      Starts(log, k + 1) <==>
        Starts(log, k) && (p[n + 1].Pipe? || (p[n + 1].And? && status(k) == 0) || (p[n + 1].Or? && status(k) != 0))
  {
    StartedIff(p, status, false, n);
    StartedIff(p, status, false, n + 2);
    OperatorBetween(p, n);
    assert CommandsBefore(p, n + 1) == CommandsBefore(p, n) + 1;
  }

  lemma {:induction false} OperatorBetween(p: seq<Node>, n: nat)
    requires Shaped(p) && n + 1 < |p| && p[n].Command?
    ensures IsOp(p[n + 1])
    decreases |p|
  {
    if n >= 2 {
      OperatorBetween(p[2..], n - 2);
    }
  }
}
