/** The shell's `run` against the AND-OR lists of section 2.9.3 of the POSIX.1-2017 Shell Command
    Language, which group from the left.  A `cd` is there a command of its own, which succeeds. */
module ShellPosix {
  import opened Options
  import opened ShellSyntax
  import opened ShellEval

  // ----- Plain programs: directory changes only where a segment starts

  predicate PlainStages(stages: seq<Stage>) {
    && stages != []
    && (forall i :: 0 <= i < |stages| ==> stages[i].cmd.Some? && stages[i].cmd.value.Command?)
    && (forall i :: 0 < i < |stages| ==> stages[i].dirs == [])
    && (forall j :: 0 <= j < |stages[0].dirs| ==> stages[0].dirs[j].Some?)
  }

  predicate Plain(prog: Program) {
    PlainStages(prog.stages) && (prog.Chain? ==> (prog.op.And? || prog.op.Or?) && Plain(prog.rest))
  }

  lemma {:induction false} GoodDirsChange(cwd: string, dirs: seq<Option<string>>)
    requires forall j :: 0 <= j < |dirs| ==> dirs[j].Some?
    ensures ChangeDirs(cwd, dirs).Some?
    decreases |dirs|
  {
    if dirs != [] {
      GoodDirsChange(Join(cwd, dirs[0].value), dirs[1..]);
    }
  }

  lemma {:induction false} LaterLaunch(stages: seq<Stage>, cwd: string, start: World, w: World)
    requires start.pids <= w.pids
    requires forall i :: 0 <= i < |stages| ==>
      stages[i].dirs == [] && stages[i].cmd.Some? && stages[i].cmd.value.Command?
    ensures var s := LaunchAll(stages, cwd, start, w);
      s.failed.None? && s.w.pids == w.pids + |stages|
    decreases |stages|
  {
    if stages != [] {
      LaterLaunch(stages[1..], cwd, start, Launched(stages[0].cmd.value, start, w));
    }
  }

  lemma PlainLaunch(stages: seq<Stage>, cwd: string, start: World, w: World)
    requires start.pids <= w.pids && PlainStages(stages)
    ensures var s := LaunchAll(stages, cwd, start, w);
      s.failed.None? && s.w.pids == w.pids + |stages| && s.events != []
  {
    GoodDirsChange(cwd, stages[0].dirs);
    var dir := ChangeDirs(cwd, stages[0].dirs).value;
    LaterLaunch(stages[1..], dir, start, Launched(stages[0].cmd.value, start, w));
  }

  // ----- AND-OR lists, grouped from the left

  function Segments(prog: Program): nat {
    if prog.Chain? then 1 + Segments(prog.rest) else 1
  }

  function Dirs(prog: Program): seq<Option<string>> {
    if prog.stages == [] then [] else prog.stages[0].dirs
  }

  // The program after its first directory change.
  function DropDir(prog: Program): (later: Program)
    requires Dirs(prog) != []
    ensures Segments(later) == Segments(prog) && Dirs(later) == Dirs(prog)[1..]
  {
    WithFirst(prog, [Stage(Dirs(prog)[1..], prog.stages[0].cmd)] + prog.stages[1..])
  }

  // The status of the last command of the first segment.
  function LastStatus(prog: Program, status: nat -> int, cwd: string, w: World): int {
    var s := LaunchAll(prog.stages, cwd, w, w);
    if s.w.pids == 0 then 0 else status(s.w.pids - 1)
  }

  // Run the directory changes and the commands of the first segment, then decide about the next.
  function PosixRun(prog: Program, status: nat -> int, cwd: string, w: World): (Outcome, seq<Event>)
    decreases Segments(prog), |Dirs(prog)|, 0
  {
    var s := LaunchAll(prog.stages, cwd, w, w);
    var events, last := s.events + Finish(w, s.w), LastStatus(prog, status, cwd, w);
    match prog
    case Final(_) => (Returned(last), events)
    case Chain(_, op, rest) => After(events, PosixNext(rest, op, last, status, s.cwd, s.w))
  }

  // After && what follows runs if the status is zero, after || if it is not (section 2.9.3).
  predicate GoesOn(op: Node, last: int) {
    (op.And? && last == 0) || (op.Or? && last != 0)
  }

  // The status so far decides whether what comes next runs, a directory change or commands;
  // skipped, it passes the status on, and a skipped directory change is followed by &&.
  function PosixNext(prog: Program, op: Node, last: int, status: nat -> int, cwd: string, w: World)
    : (Outcome, seq<Event>)
    decreases Segments(prog), |Dirs(prog)|, 1
  {
    if GoesOn(op, last) then PosixRun(prog, status, cwd, w)
    else if Dirs(prog) != [] then PosixNext(DropDir(prog), And, last, status, cwd, w)
    else match prog
      case Final(_) => (Returned(last), [])
      case Chain(_, op', rest) => PosixNext(rest, op', last, status, cwd, w)
  }

  // ----- When the two agree

  // Every operator is op, also the && after a directory change.
  predicate AllOps(prog: Program, op: Node) {
    (Dirs(prog) != [] ==> op == And) && (prog.Chain? ==> prog.op == op && AllOps(prog.rest, op))
  }

  predicate SingleKind(prog: Program) {
    prog.Chain? ==> AllOps(prog.rest, prog.op)
  }

  // On this run, every operator after the one that stops it is of the same kind.
  predicate SameAfterStop(prog: Program, status: nat -> int, cwd: string, w: World) {
    prog.Chain? ==>
      var s := LaunchAll(prog.stages, cwd, w, w);
      if Stops(prog.op, LastStatus(prog, status, cwd, w)) then AllOps(prog.rest, prog.op)
      else SameAfterStop(prog.rest, status, s.cwd, s.w)
  }

  lemma DropDirPlain(prog: Program)
    requires Plain(prog) && Dirs(prog) != []
    ensures Plain(DropDir(prog)) && (AllOps(DropDir(prog), And) <==> AllOps(prog, And))
  {
    var stages := DropDir(prog).stages;
    assert forall i :: 0 < i < |stages| ==> stages[i] == prog.stages[i];
  }

  lemma {:induction false} SkipToEnd(prog: Program, op: Node, last: int, status: nat -> int, cwd: string, w: World)
    requires Plain(prog) && (op.And? || op.Or?) && Stops(op, last)
    ensures AllOps(prog, op) ==> PosixNext(prog, op, last, status, cwd, w) == (Returned(last), [])
    ensures !AllOps(prog, op) ==> PosixNext(prog, op, last, status, cwd, w).1 != []
    decreases Segments(prog), |Dirs(prog)|
  {
    if Dirs(prog) != [] {
      DropDirPlain(prog);
      if op == And {
        SkipToEnd(DropDir(prog), And, last, status, cwd, w);
      } else {
        RunLogs(DropDir(prog), status, cwd, w);
      }
    } else if prog.Chain? {
      if prog.op == op {
        SkipToEnd(prog.rest, op, last, status, cwd, w);
      } else {
        RunLogs(prog.rest, status, cwd, w);
      }
    }
  }

  lemma RunLogs(prog: Program, status: nat -> int, cwd: string, w: World)
    requires Plain(prog)
    ensures PosixRun(prog, status, cwd, w).1 != []
  {
    PlainLaunch(prog.stages, cwd, w, w);
  }

  lemma AfterSame(events: seq<Event>, a: (Outcome, seq<Event>), b: (Outcome, seq<Event>))
    ensures After(events, a) == After(events, b) <==> a == b
  {
    if After(events, a) == After(events, b) {
      assert a.1 == (events + a.1)[|events|..];
      assert b.1 == (events + b.1)[|events|..];
    }
  }

  lemma AfterReturn(events: seq<Event>, last: int, next: (Outcome, seq<Event>))
    ensures (Returned(last), events) == After(events, next) <==> next == (Returned(last), [])
  {
    AfterSame(events, (Returned(last), []), next);
    assert events + [] == events;
  }

  lemma StoppedAgreesIff(prog: Program, status: nat -> int, cwd: string, w: World)
    requires Plain(prog) && prog.Chain? && Stops(prog.op, LastStatus(prog, status, cwd, w))
    ensures Eval(prog, status, false, cwd, w, w) == PosixRun(prog, status, cwd, w) <==> AllOps(prog.rest, prog.op)
  {
    PlainLaunch(prog.stages, cwd, w, w);
    var s, last := LaunchAll(prog.stages, cwd, w, w), LastStatus(prog, status, cwd, w);
    SkipToEnd(prog.rest, prog.op, last, status, s.cwd, s.w);
    AfterReturn(s.events + Finish(w, s.w), last, PosixNext(prog.rest, prog.op, last, status, s.cwd, s.w));
  }

  lemma GoingOnAgreesIff(prog: Program, status: nat -> int, cwd: string, w: World)
    requires Plain(prog) && prog.Chain? && !Stops(prog.op, LastStatus(prog, status, cwd, w))
    ensures var s := LaunchAll(prog.stages, cwd, w, w);
      Eval(prog, status, false, cwd, w, w) == PosixRun(prog, status, cwd, w) <==>
      Eval(prog.rest, status, false, s.cwd, s.w, s.w) == PosixRun(prog.rest, status, s.cwd, s.w)
  {
    PlainLaunch(prog.stages, cwd, w, w);
    var s := LaunchAll(prog.stages, cwd, w, w);
    AfterSame(s.events + Finish(w, s.w), Eval(prog.rest, status, false, s.cwd, s.w, s.w),
              PosixRun(prog.rest, status, s.cwd, s.w));
  }

  // One run agrees with POSIX, in status and in everything executed, exactly when nothing of the
  // other kind follows the operator that stops it.
  lemma {:induction false} RunAgreesIff(prog: Program, status: nat -> int, cwd: string, w: World)
    requires Plain(prog)
    ensures Eval(prog, status, false, cwd, w, w) == PosixRun(prog, status, cwd, w)
      <==> SameAfterStop(prog, status, cwd, w)
    decreases prog
  {
    if prog.Final? {
      PlainLaunch(prog.stages, cwd, w, w);
    } else if Stops(prog.op, LastStatus(prog, status, cwd, w)) {
      StoppedAgreesIff(prog, status, cwd, w);
    } else {
      var s := LaunchAll(prog.stages, cwd, w, w);
      GoingOnAgreesIff(prog, status, cwd, w);
      RunAgreesIff(prog.rest, status, s.cwd, s.w);
    }
  }

  lemma {:induction false} SingleKindNeverDiffers(prog: Program, op: Node, status: nat -> int, cwd: string, w: World)
    requires Plain(prog) && (prog.Chain? ==> prog.op == op && AllOps(prog.rest, op))
    ensures SameAfterStop(prog, status, cwd, w)
    decreases prog
  {
    if prog.Chain? {
      PlainLaunch(prog.stages, cwd, w, w);
      var s := LaunchAll(prog.stages, cwd, w, w);
      SingleKindNeverDiffers(prog.rest, op, status, s.cwd, s.w);
    }
  }

  // The same, in status and events, for all exit statuses.
  ghost predicate AlwaysAgrees(prog: Program) {
    forall status: nat -> int :: Agrees(prog, status)
  }

  predicate Agrees(prog: Program, status: nat -> int) {
    Eval(prog, status, false, ".", World(0, 0), World(0, 0)) == PosixRun(prog, status, ".", World(0, 0))
  }

  // Whatever its commands return, a list behaves as in POSIX exactly when its operators are && only
  // or || only; directory changes in front of the whole do not count.
  lemma AgreesWithPosixIff(prog: Program)
    requires Plain(prog)
    ensures AlwaysAgrees(prog) <==> SingleKind(prog)
  {
    var w := World(0, 0);
    if SingleKind(prog) {
      forall status: nat -> int ensures Agrees(prog, status) {
        SingleKindNeverDiffers(prog, if prog.Chain? then prog.op else And, status, ".", w);
        RunAgreesIff(prog, status, ".", w);
      }
    } else {
      var stopping := if prog.op.And? then 1 else 0;
      var status: nat -> int := pid => stopping;
      PlainLaunch(prog.stages, ".", w, w);
      RunAgreesIff(prog, status, ".", w);
      assert !Agrees(prog, status);
    }
  }

  // ----- The same on node lists

  predicate IsAndOr(n: Node) {
    n.And? || n.Or?
  }

  predicate OnlyOp(p: seq<Node>, op: Node) {
    forall i :: 0 <= i < |p| && IsAndOr(p[i]) ==> p[i] == op
  }

  predicate SameOps(p: seq<Node>) {
    forall i, j :: 0 <= i < j < |p| && IsAndOr(p[i]) && IsAndOr(p[j]) ==> p[i] == p[j]
  }

  // Directory changes have their directory, are not last and do not stand after a pipe.
  predicate CdsStartSegments(p: seq<Node>) {
    forall i :: 0 <= i < |p| && p[i].Chdir? ==> p[i].dir.Some? && i + 1 < |p| && (i > 0 ==> !p[i - 1].Pipe?)
  }

  predicate NoChdir(p: seq<Node>) {
    forall i :: 0 <= i < |p| ==> !p[i].Chdir?
  }

  // What follows the directory changes in front.
  function AfterCds(p: seq<Node>): seq<Node>
    decreases |p|
  {
    if |p| > 1 && p[0].Chdir? then AfterCds(p[2..]) else p
  }

  lemma TwoFewer(p: seq<Node>, op: Node)
    requires Shaped(p) && |p| > 1 && CdsStartSegments(p)
    ensures CdsStartSegments(p[2..]) && |p| > 2 && (p[1].Pipe? ==> p[2].Command?)
    ensures OnlyOp(p, op) <==> (IsAndOr(p[1]) ==> p[1] == op) && OnlyOp(p[2..], op)
    ensures SameOps(p) <==> if IsAndOr(p[1]) then OnlyOp(p[2..], p[1]) else SameOps(p[2..])
  {
    var rest := p[2..];
    assert |rest| > 0 && rest[0] == p[2];
    assert forall i :: 0 <= i < |rest| ==> rest[i] == p[i + 2];
    assert forall i :: 2 <= i < |p| ==> p[i] == rest[i - 2];
    forall i | 0 <= i < |rest| && rest[i].Chdir?
      ensures rest[i].dir.Some? && i + 1 < |rest| && (i > 0 ==> !rest[i - 1].Pipe?)
    {
      assert p[i + 2].Chdir? && p[i + 1] == if i > 0 then rest[i - 1] else p[1];
    }
  }

  // Such a pipeline makes a plain program.
  lemma {:induction false} CdsFirstIsPlain(p: seq<Node>)
    requires Shaped(p) && CdsStartSegments(p)
    ensures Plain(ToProgram(p)) && (p[0].Command? ==> Dirs(ToProgram(p)) == [])
    ensures p[0].Chdir? ==> Dirs(ToProgram(p)) != []
    decreases |p|
  {
    if |p| > 1 {
      TwoFewer(p, And);
      CdsFirstIsPlain(p[2..]);
      var rest := ToProgram(p[2..]);
      if p[0].Chdir? {
        PlainWithDir(rest, p[0].dir);
      } else if p[1].Pipe? {
        PlainWithCommand(rest, p[0]);
      }
    }
  }

  lemma PlainWithDir(prog: Program, dir: Option<string>)
    requires Plain(prog) && dir.Some?
    ensures Plain(WithFirst(prog, WithDir(prog.stages, dir)))
  {
  }

  lemma PlainWithCommand(prog: Program, c: Node)
    requires Plain(prog) && Dirs(prog) == [] && c.Command?
    ensures Plain(WithFirst(prog, [Stage([], Some(c))] + prog.stages))
  {
  }

  // So does a pipeline without `cd`.
  lemma WithoutCdIsPlain(p: seq<Node>)
    requires Shaped(p) && NoChdir(p)
    ensures Plain(ToProgram(p)) && CdsStartSegments(p) && AfterCds(p) == p
  {
    CdsFirstIsPlain(p);
  }

  lemma {:induction false} AllOpsIff(p: seq<Node>, op: Node)
    requires Shaped(p) && CdsStartSegments(p)
    ensures AllOps(ToProgram(p), op) <==> OnlyOp(p, op)
    decreases |p|
  {
    if |p| > 1 {
      TwoFewer(p, op);
      AllOpsIff(p[2..], op);
      CdsFirstIsPlain(p[2..]);
    }
  }

  lemma {:induction false} SingleKindIff(p: seq<Node>)
    requires Shaped(p) && CdsStartSegments(p)
    ensures SingleKind(ToProgram(p)) <==> SameOps(AfterCds(p))
    decreases |p|
  {
    if |p| > 1 {
      TwoFewer(p, p[1]);
      SingleKindIff(p[2..]);
      AllOpsIff(p[2..], p[1]);
    }
  }

  // A pipeline whose directory changes start segments behaves as in POSIX, whatever its commands
  // return, exactly when all && and || are the same after the directory changes in front.
  lemma PipelineAgreesIff(p: seq<Node>)
    requires Shaped(p) && CdsStartSegments(p)
    ensures AlwaysAgrees(ToProgram(p)) <==> SameOps(AfterCds(p))
  {
    CdsFirstIsPlain(p);
    SingleKindIff(p);
    AgreesWithPosixIff(ToProgram(p));
  }

  // a || b && c with a succeeding: the shell stops after a, POSIX goes on to c.
  lemma OrThenAndDiffers(a: Node, b: Node, c: Node)
    requires a.Command? && b.Command? && c.Command?
    ensures var p := [a, Or, b, And, c];
      Shaped(p) && Plain(ToProgram(p)) && !SameOps(p) && !Agrees(ToProgram(p), pid => 0)
  {
    var p := [a, Or, b, And, c];
    assert p[2..] == [b, And, c] && p[2..][2..] == [c];
    assert Shaped([c]) && Shaped([b, And, c]) && Shaped(p);
    WithoutCdIsPlain(p);
    assert p[1] == Or && p[3] == And;
    var status: nat -> int := pid => 0;
    PlainLaunch(ToProgram(p).stages, ".", World(0, 0), World(0, 0));
    RunAgreesIff(ToProgram(p), status, ".", World(0, 0));
  }

  // x && cd d && y is the same in both; x || cd d && y is not.
  lemma CdAfterOperator(x: Node, d: string, y: Node, op: Node)
    requires x.Command? && y.Command? && IsAndOr(op)
    ensures var p := [x, op, Chdir(Some(d)), And, y];
      Shaped(p) && (AlwaysAgrees(ToProgram(p)) <==> op == And)
  {
    var p := [x, op, Chdir(Some(d)), And, y];
    assert p[2..] == [Chdir(Some(d)), And, y] && p[2..][2..] == [y];
    assert Shaped([y]) && Shaped([Chdir(Some(d)), And, y]) && Shaped(p);
    PipelineAgreesIff(p);
    assert p[1] == op && p[3] == And;
  }
}
