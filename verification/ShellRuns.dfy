/** What every run of a pipeline of the mini shell keeps (waf-tools/shellcmd.py). */
module ShellRuns {
  import opened Options
  import opened Sequences
  import opened ShellSyntax
  import opened ShellPrinting
  import opened ShellEval

  // Processes are waited for and files closed, each exactly once and in that order; pipes connect
  // neighbours; the status is that of the last command (section 2.9.2 of the POSIX.1-2017 Shell
  // Command Language).

  // ----- The ledger of a log

  // Processes started and waited for, files opened and closed, in order; whether the process
  // started last writes into a pipe that nothing reads yet; whether all was orderly.
  datatype Ledger =
    Ledger(starts: seq<nat>, waits: seq<nat>, opens: seq<nat>, closes: seq<nat>, piping: bool, orderly: bool)

  const NOTHING_YET := Ledger([], [], [], [], false, true)

  // What may come next: a process reads from a pipe exactly when one is open, namely that of its
  // predecessor; waiting is for started processes, with no pipe open; a file is closed once every
  // process started so far was waited for.
  predicate MayFollow(l: Ledger, e: Event) {
    match e
    case Opened(_, _, _) => true
    case Started(pid, _, stdin, _, _, _, _) =>
      if l.piping then pid > 0 && stdin == OutputOf(pid - 1) else !stdin.OutputOf?
    case Waited(pid) => pid in l.starts && !l.piping
    case FileClosed(fd) => fd in l.opens && l.waits == l.starts
  }

  function Record(l: Ledger, e: Event): Ledger {
    var ok := l.orderly && MayFollow(l, e);
    match e
    case Opened(fd, _, _) => l.(opens := l.opens + [fd], orderly := ok)
    case Started(pid, _, _, stdout, _, _, _) =>
      l.(starts := l.starts + [pid], piping := stdout == NewPipe, orderly := ok)
    case Waited(pid) => l.(waits := l.waits + [pid], orderly := ok)
    case FileClosed(fd) => l.(closes := l.closes + [fd], orderly := ok)
  }

  function RecordAll(l: Ledger, events: seq<Event>): Ledger {
    if events == [] then l else Record(RecordAll(l, events[..|events| - 1]), events[|events| - 1])
  }

  function LedgerOf(log: seq<Event>): Ledger {
    RecordAll(NOTHING_YET, log)
  }

  lemma RecordLast(l: Ledger, events: seq<Event>, e: Event)
    ensures RecordAll(l, events + [e]) == Record(RecordAll(l, events), e)
  {
    assert (events + [e])[..|events|] == events;
  }

  lemma {:induction false} RecordConcat(l: Ledger, a: seq<Event>, b: seq<Event>)
    ensures RecordAll(l, a + b) == RecordAll(RecordAll(l, a), b)
    decreases |b|
  {
    if b == [] {
      assert a + b == a;
    } else {
      var front, last := b[..|b| - 1], b[|b| - 1];
      RecordConcat(l, a, front);
      SplitLast(b);
      Reassociate(a, front, [last]);
      RecordLast(l, a + front, last);
    }
  }

  predicate Orderly(log: seq<Event>) {
    LedgerOf(log).orderly
  }

  lemma {:induction false} OrderlyEverywhere(log: seq<Event>, i: nat)
    requires Orderly(log) && i < |log|
    ensures Orderly(log[..i]) && MayFollow(LedgerOf(log[..i]), log[i])
    decreases |log|
  {
    if i < |log| - 1 {
      OrderlyEverywhere(log[..|log| - 1], i);
      assert log[..|log| - 1][..i] == log[..i];
    }
  }

  // ----- The books of a run

  // Everything started is numbered below w, what was waited for or closed below start.
  ghost predicate Books(l: Ledger, start: World, w: World) {
    && l.starts == Range(0, w.pids) && l.waits == Range(0, start.pids)
    && l.opens == Range(0, w.fds) && l.closes == Range(0, start.fds)
    && start.pids <= w.pids && start.fds <= w.fds
    && l.orderly
  }

  ghost predicate Booked(l: Ledger, start: World, w: World, piping: bool) {
    Books(l, start, w) && l.piping == piping
  }

  lemma {:induction false} BookOpens(l: Ledger, start: World, w: World, piping: bool, opens: seq<Event>)
    requires Booked(l, start, w, piping)
    requires forall i :: 0 <= i < |opens| ==> opens[i].Opened? && opens[i].fd == w.fds + i
    ensures Booked(RecordAll(l, opens), start, World(w.pids, w.fds + |opens|), piping)
    decreases |opens|
  {
    if opens != [] {
      BookOpens(l, start, w, piping, opens[..|opens| - 1]);
    }
  }

  lemma OpensNumbered(c: Node, previous: Option<nat>, w: World)
    requires c.Command?
    ensures var opens := Opens(c, previous, w);
      forall i :: 0 <= i < |opens| ==> opens[i].Opened? && opens[i].fd == w.fds + i
  {
  }

  lemma StartFits(c: Node, previous: Option<nat>, cwd: string, w: World)
    requires c.Command?
    ensures var e := StartOf(c, previous, cwd, w);
      && e.Started? && e.pid == w.pids && (e.stdout == NewPipe <==> c.stdout.ToPipe?)
      && if previous.Some? then e.stdin == OutputOf(previous.value) else !e.stdin.OutputOf?
  {
  }

  lemma BookStart(l: Ledger, start: World, w: World, piping: bool, e: Event)
    requires Booked(l, start, w, piping) && e.Started? && e.pid == w.pids
    requires if piping then e.pid > 0 && e.stdin == OutputOf(e.pid - 1) else !e.stdin.OutputOf?
    ensures Booked(Record(l, e), start, World(w.pids + 1, w.fds), e.stdout == NewPipe)
  {
  }

  // Starting one more command of the segment.
  lemma BookLaunch(l: Ledger, start: World, w: World, c: Node, cwd: string)
    requires Booked(l, start, w, start.pids < w.pids) && c.Command?
    ensures Booked(RecordAll(l, Launch(c, cwd, start, w)), start, Launched(c, start, w), c.stdout.ToPipe?)
  {
    var opens, e := Opens(c, Previous(start, w), w), StartOf(c, Previous(start, w), cwd, w);
    OpensNumbered(c, Previous(start, w), w);
    BookOpens(l, start, w, start.pids < w.pids, opens);
    StartFits(c, Previous(start, w), cwd, w);
    BookStart(RecordAll(l, opens), start, World(w.pids, w.fds + |opens|), start.pids < w.pids, e);
    RecordLast(l, opens, e);
  }

  lemma InRange(lo: nat, hi: nat, n: nat)
    requires lo <= n < hi
    ensures n in Range(lo, hi)
    decreases hi
  {
    if n < hi - 1 {
      InRange(lo, hi - 1, n);
    }
  }

  lemma BookWait(l: Ledger, start: World, w: World)
    requires Booked(l, start, w, false) && start.pids < w.pids
    ensures Booked(Record(l, Waited(start.pids)), World(start.pids + 1, start.fds), w, false)
  {
    InRange(0, w.pids, start.pids);
  }

  lemma WaitsForLast(lo: nat, hi: nat)
    requires lo < hi
    ensures WaitsFor(Range(lo, hi)) == WaitsFor(Range(lo, hi - 1)) + [Waited(hi - 1)]
  {
  }

  lemma {:induction false} BookWaits(l: Ledger, start: World, w: World, n: nat)
    requires Booked(l, start, w, false) && start.pids <= n <= w.pids
    ensures Booked(RecordAll(l, WaitsFor(Range(start.pids, n))), World(n, start.fds), w, false)
    decreases n
  {
    if n > start.pids {
      BookWaits(l, start, w, n - 1);
      var before := WaitsFor(Range(start.pids, n - 1));
      BookWait(RecordAll(l, before), World(n - 1, start.fds), w);
      RecordLast(l, before, Waited(n - 1));
      WaitsForLast(start.pids, n);
    }
  }

  lemma BookClose(l: Ledger, start: World, w: World)
    requires Booked(l, start, w, false) && start.pids == w.pids && start.fds < w.fds
    ensures Booked(Record(l, FileClosed(start.fds)), World(start.pids, start.fds + 1), w, false)
  {
    InRange(0, w.fds, start.fds);
  }

  lemma ClosesForLast(lo: nat, hi: nat)
    requires lo < hi
    ensures ClosesFor(Range(lo, hi)) == ClosesFor(Range(lo, hi - 1)) + [FileClosed(hi - 1)]
  {
  }

  lemma {:induction false} BookCloses(l: Ledger, start: World, w: World, n: nat)
    requires Booked(l, start, w, false) && start.pids == w.pids && start.fds <= n <= w.fds
    ensures Booked(RecordAll(l, ClosesFor(Range(start.fds, n))), World(start.pids, n), w, false)
    decreases n
  {
    if n > start.fds {
      BookCloses(l, start, w, n - 1);
      var before := ClosesFor(Range(start.fds, n - 1));
      BookClose(RecordAll(l, before), World(start.pids, n - 1), w);
      RecordLast(l, before, FileClosed(n - 1));
      ClosesForLast(start.fds, n);
    }
  }

  lemma BookFinish(l: Ledger, start: World, w: World)
    requires Booked(l, start, w, false)
    ensures Booked(RecordAll(l, Finish(start, w)), w, w, false)
  {
    var waits, closes := WaitsFor(Range(start.pids, w.pids)), ClosesFor(Range(start.fds, w.fds));
    BookWaits(l, start, w, w.pids);
    BookCloses(RecordAll(l, waits), World(w.pids, start.fds), w, w.fds);
    RecordConcat(l, waits, closes);
  }

  // ----- Segments and programs whose pipes match

  // A command writes into a pipe exactly when another stage follows in its segment.
  predicate PipesMatch(stages: seq<Stage>) {
    forall i :: 0 <= i < |stages| && stages[i].cmd.Some? && stages[i].cmd.value.Command? ==>
      (stages[i].cmd.value.stdout.ToPipe? <==> i + 1 < |stages|)
  }

  predicate AllPipesMatch(prog: Program) {
    prog.stages != [] && PipesMatch(prog.stages) && (prog.Chain? ==> AllPipesMatch(prog.rest))
  }

  lemma {:induction false} WellFormedPipesMatch(p: seq<Node>)
    requires WellFormed(p)
    ensures Shaped(p) && AllPipesMatch(ToProgram(p))
    decreases |p|
  {
    if |p| > 1 {
      WellFormedPipesMatch(p[2..]);
    }
  }

  lemma {:induction false} BookSegment(l: Ledger, stages: seq<Stage>, cwd: string, start: World, w: World)
    requires Booked(l, start, w, stages != [] && start.pids < w.pids) && PipesMatch(stages)
    ensures var s := LaunchAll(stages, cwd, start, w);
      Books(RecordAll(l, s.events), start, s.w) && (s.failed.None? ==> !RecordAll(l, s.events).piping)
    decreases |stages|
  {
    if stages == [] || ChangeDirs(cwd, stages[0].dirs).None? || stages[0].cmd.None? || !stages[0].cmd.value.Command? {
      assert LaunchAll(stages, cwd, start, w).events == [];
    } else {
      var c, dir := stages[0].cmd.value, ChangeDirs(cwd, stages[0].dirs).value;
      var launch, w' := Launch(c, dir, start, w), Launched(c, start, w);
      BookLaunch(l, start, w, c, dir);
      PipesMatchRest(stages);
      BookSegment(RecordAll(l, launch), stages[1..], dir, start, w');
      LaunchFirst(stages, cwd, start, w);
      RecordConcat(l, launch, LaunchAll(stages[1..], dir, start, w').events);
    }
  }

  lemma PipesMatchRest(stages: seq<Stage>)
    requires stages != [] && PipesMatch(stages)
    ensures PipesMatch(stages[1..])
  {
    forall i | 0 <= i < |stages[1..]| ensures stages[1..][i] == stages[i + 1] {
    }
  }

  lemma LaunchFirst(stages: seq<Stage>, cwd: string, start: World, w: World)
    requires start.pids <= w.pids && stages != []
    requires ChangeDirs(cwd, stages[0].dirs).Some? && stages[0].cmd.Some? && stages[0].cmd.value.Command?
    ensures var c, dir := stages[0].cmd.value, ChangeDirs(cwd, stages[0].dirs).value;
      var later := LaunchAll(stages[1..], dir, start, Launched(c, start, w));
      LaunchAll(stages, cwd, start, w) == later.(events := Launch(c, dir, start, w) + later.events)
  {
  }

  // ----- Every run

  // After a run: the books are closed, unless a directory change failed in the middle of a
  // segment; a returned status is that of the process started last.
  ghost predicate RunBooks(l: Ledger, outcome: Outcome, status: nat -> int) {
    exists start, w :: Closed(l, start, w, outcome, status)
  }

  ghost predicate Closed(l: Ledger, start: World, w: World, outcome: Outcome, status: nat -> int) {
    && Books(l, start, w) && (outcome.Returned? || outcome.UnboundLocalError? ==> start == w)
    && (outcome.Returned? ==> w.pids > 0 && outcome.status == status(w.pids - 1))
  }

  // A segment that starts completely is also finished completely.
  lemma BookWhole(l: Ledger, stages: seq<Stage>, cwd: string, w: World)
    requires Booked(l, w, w, false) && stages != [] && PipesMatch(stages)
    ensures var s := LaunchAll(stages, cwd, w, w);
      if s.failed.Some? then Books(RecordAll(l, s.events), w, s.w)
      else Booked(RecordAll(l, s.events + Finish(w, s.w)), s.w, s.w, false)
  {
    var s := LaunchAll(stages, cwd, w, w);
    BookSegment(l, stages, cwd, w, w);
    if s.failed.None? {
      BookFinish(RecordAll(l, s.events), w, s.w);
      RecordConcat(l, s.events, Finish(w, s.w));
    }
  }

  lemma {:induction false} BookEval(l: Ledger, prog: Program, status: nat -> int, verbose: bool, cwd: string, w: World)
    requires Booked(l, w, w, false) && AllPipesMatch(prog)
    ensures var r := Eval(prog, status, verbose, cwd, w, w); RunBooks(RecordAll(l, r.1), r.0, status)
    decreases prog, 1
  {
    var s := LaunchAll(prog.stages, cwd, w, w);
    BookWhole(l, prog.stages, cwd, w);
    EvalNext(prog, status, verbose, cwd, w);
    if s.failed.Some? {
      BooksAre(RecordAll(l, s.events), w, s.w, s.failed.value, status);
    } else {
      BookNext(l, s.events + Finish(w, s.w), prog, status, verbose, s.cwd, s.w);
    }
  }

  // The same from the end of the first segment on.
  lemma BookNext(l: Ledger, events: seq<Event>, prog: Program, status: nat -> int, verbose: bool, cwd: string, w: World)
    requires Booked(RecordAll(l, events), w, w, false) && AllPipesMatch(prog) && w.pids > 0
    ensures var r := Next(events, prog, status, verbose, cwd, w); RunBooks(RecordAll(l, r.1), r.0, status)
    decreases prog, 0
  {
    var last := status(w.pids - 1);
    if GoesOn(prog, last, verbose) {
      BookEval(RecordAll(l, events), prog.rest, status, verbose, cwd, w);
      BooksAfter(l, events, Eval(prog.rest, status, verbose, cwd, w, w), status);
    } else {
      BooksAre(RecordAll(l, events), w, w, OutcomeAt(prog, last, verbose), status);
    }
  }

  lemma BooksAre(l: Ledger, start: World, w: World, outcome: Outcome, status: nat -> int)
    requires Closed(l, start, w, outcome, status)
    ensures RunBooks(l, outcome, status)
  {
  }

  lemma BooksAfter(l: Ledger, events: seq<Event>, later: (Outcome, seq<Event>), status: nat -> int)
    requires RunBooks(RecordAll(RecordAll(l, events), later.1), later.0, status)
    ensures var r := After(events, later); RunBooks(RecordAll(l, r.1), r.0, status)
  {
    RecordConcat(l, events, later.1);
  }

  // What a segment with this status leads to.
  predicate GoesOn(prog: Program, last: int, verbose: bool) {
    prog.Chain? && !verbose && !Stops(prog.op, last)
  }

  function OutcomeAt(prog: Program, last: int, verbose: bool): Outcome {
    if prog.Chain? && verbose then UnboundLocalError else Returned(last)
  }

  function Next(events: seq<Event>, prog: Program, status: nat -> int, verbose: bool, cwd: string, w: World)
    : (Outcome, seq<Event>)
    requires w.pids > 0
  {
    var last := status(w.pids - 1);
    if GoesOn(prog, last, verbose) then After(events, Eval(prog.rest, status, verbose, cwd, w, w))
    else (OutcomeAt(prog, last, verbose), events)
  }

  // One step of the evaluator.
  lemma EvalNext(prog: Program, status: nat -> int, verbose: bool, cwd: string, w: World)
    requires prog.stages != []
    ensures var s, r := LaunchAll(prog.stages, cwd, w, w), Eval(prog, status, verbose, cwd, w, w);
      if s.failed.Some? then r == (s.failed.value, s.events)
      else r == Next(s.events + Finish(w, s.w), prog, status, verbose, s.cwd, s.w)
  {
  }

  // Processes are numbered from 0 in the order of their start, files in the order of opening; a
  // run that returned waited for every process and closed every file, each once and in order.
  ghost predicate CleanBooks(l: Ledger, outcome: Outcome, status: nat -> int) {
    && (exists n :: l.starts == Range(0, n)) && (exists m :: l.opens == Range(0, m))
    && l.waits <= l.starts && l.closes <= l.opens
    && (outcome.Returned? ==>
          && l.waits == l.starts != [] && l.closes == l.opens
          && outcome.status == status(l.starts[|l.starts| - 1]))
  }

  lemma BooksClean(l: Ledger, outcome: Outcome, status: nat -> int)
    requires RunBooks(l, outcome, status)
    ensures l.orderly && CleanBooks(l, outcome, status)
  {
    var start, end :| Closed(l, start, end, outcome, status);
    RangePrefix(start.pids, end.pids);
    RangePrefix(start.fds, end.fds);
  }

  // Every run of a parsed pipeline keeps its books; when it returns normally, the processes
  // waited for are those started, the files closed are those opened, each once.
  lemma EveryRunIsClean(p: seq<Node>, status: nat -> int, verbose: bool)
    requires WellFormed(p)
    ensures Shaped(p)
    ensures var r := Eval(ToProgram(p), status, verbose, ".", World(0, 0), World(0, 0));
      Orderly(r.1) && CleanBooks(LedgerOf(r.1), r.0, status)
  {
    WellFormedPipesMatch(p);
    var w := World(0, 0);
    BookEval(NOTHING_YET, ToProgram(p), status, verbose, ".", w);
    var r := Eval(ToProgram(p), status, verbose, ".", w, w);
    BooksClean(LedgerOf(r.1), r.0, status);
  }

  lemma {:induction false} RangePrefix(n: nat, m: nat)
    requires n <= m
    ensures Range(0, n) <= Range(0, m)
    decreases m
  {
    if n < m {
      RangePrefix(n, m - 1);
    }
  }

  // ----- Where commands run

  function CommandsBefore(p: seq<Node>, n: nat): nat
    requires n <= |p|
  {
    if n == 0 then 0 else CommandsBefore(p, n - 1) + if p[n - 1].Command? then 1 else 0
  }

  // An absolute directory stands alone; a relative one is put behind the other and one slash.
  lemma JoinMeans(a: string, b: string)
    ensures "/" <= b ==> Join(a, b) == b
    ensures !("/" <= b) ==>
      var n := |Join(a, b)| - |b|;
      && n >= 0 && Join(a, b)[n..] == b
      && Join(a, b)[..n] == if a == "" || a[|a| - 1] == '/' then a else a + "/"
  {
  }

  // All directory changes before node n, joined.
  function DirsBefore(p: seq<Node>, n: nat): string
    requires n <= |p|
  {
    if n == 0 then "."
    else if p[n - 1].Chdir? && p[n - 1].dir.Some? then Join(DirsBefore(p, n - 1), p[n - 1].dir.value)
    else DirsBefore(p, n - 1)
  }

  // The event starts the command at node n, in the directory in force there.
  predicate StartsNode(p: seq<Node>, n: nat, e: Event) {
    && n < |p| && p[n].Command? && e.Started?
    && e.pid == CommandsBefore(p, n) && e.argv == p[n].argv
    && e.cwd == if DirsBefore(p, n) == "." then None else Some(DirsBefore(p, n))
  }

  // The command reads from a pipe: one stands before it, or before the directory changes that do.
  predicate AfterPipe(p: seq<Node>, n: nat)
    requires n <= |p|
  {
    n >= 2 && (p[n - 1].Pipe? || (p[n - 2].Chdir? && AfterPipe(p, n - 2)))
  }

  // Its environment and streams are what the fields of the node ask for; what it needs was opened.
  predicate AsAsked(p: seq<Node>, n: nat, e: Event, before: seq<Event>)
    requires StartsNode(p, n, e)
  {
    && e.env == (if p[n].envVars.Some? && p[n].envVars.value != map[] then p[n].envVars else None)
    && (AfterPipe(p, n) ==> e.pid > 0)
    && InputIs(p[n], if AfterPipe(p, n) && e.pid > 0 then Some(e.pid - 1) else None, e.stdin, before)
    && OutputIs(p[n].stdout, e.stdout, before) && OutputIs(p[n].stderr, e.stderr, before)
    && StreamsApart(e.stdin, e.stdout, e.stderr)
  }

  ghost predicate InPlace(p: seq<Node>, events: seq<Event>, i: nat)
    requires i < |events|
  {
    exists n :: StartsNode(p, n, events[i]) && AsAsked(p, n, events[i], events[..i])
  }

  // The file is a stream of the command started by e.
  predicate OpenedFor(p: seq<Node>, n: nat, e: Event, o: Event) {
    StartsNode(p, n, e) && IsStream(p[n], e.stdin, e.stdout, e.stderr, o)
  }

  ghost predicate IsUsed(p: seq<Node>, events: seq<Event>, j: nat)
    requires j < |events|
  {
    exists i, n :: j < i < |events| && OpenedFor(p, n, events[i], events[j])
  }

  ghost predicate AllStarted(p: seq<Node>, events: seq<Event>) {
    forall i :: 0 <= i < |events| && events[i].Started? ==> InPlace(p, events, i)
  }

  ghost predicate AllUsed(p: seq<Node>, events: seq<Event>) {
    forall j :: 0 <= j < |events| && events[j].Opened? ==> IsUsed(p, events, j)
  }

  // Every process is in place, and every file opened is for one started later.
  ghost predicate AllInPlace(p: seq<Node>, events: seq<Event>) {
    AllStarted(p, events) && AllUsed(p, events)
  }

  lemma InPlaceConcat(p: seq<Node>, a: seq<Event>, b: seq<Event>)
    requires AllInPlace(p, a) && AllInPlace(p, b)
    ensures AllInPlace(p, a + b)
  {
    StartedConcat(p, a, b);
    UsedConcat(p, a, b);
  }

  lemma StartedConcat(p: seq<Node>, a: seq<Event>, b: seq<Event>)
    requires AllStarted(p, a) && AllStarted(p, b)
    ensures AllStarted(p, a + b)
  {
    var all := a + b;
    forall i | 0 <= i < |all| && all[i].Started? ensures InPlace(p, all, i) {
      if i < |a| {
        EarlierInPlace(p, a, b, i);
      } else {
        LaterInPlace(p, a, b, i - |a|);
      }
    }
  }

  lemma UsedConcat(p: seq<Node>, a: seq<Event>, b: seq<Event>)
    requires AllUsed(p, a) && AllUsed(p, b)
    ensures AllUsed(p, a + b)
  {
    var all := a + b;
    forall j | 0 <= j < |all| && all[j].Opened? ensures IsUsed(p, all, j) {
      if j < |a| {
        EarlierUsed(p, a, b, j);
      } else {
        LaterUsed(p, a, b, j - |a|);
      }
    }
  }

  lemma EarlierInPlace(p: seq<Node>, a: seq<Event>, b: seq<Event>, i: nat)
    requires i < |a| && InPlace(p, a, i)
    ensures InPlace(p, a + b, i)
  {
    var n: nat :| StartsNode(p, n, a[i]) && AsAsked(p, n, a[i], a[..i]);
    assert (a + b)[i] == a[i] && (a + b)[..i] == a[..i];
  }

  lemma EarlierUsed(p: seq<Node>, a: seq<Event>, b: seq<Event>, j: nat)
    requires j < |a| && IsUsed(p, a, j)
    ensures IsUsed(p, a + b, j)
  {
    var i, n :| j < i < |a| && OpenedFor(p, n, a[i], a[j]);
    assert (a + b)[i] == a[i] && (a + b)[j] == a[j];
  }

  lemma LaterUsed(p: seq<Node>, a: seq<Event>, b: seq<Event>, j: nat)
    requires j < |b| && IsUsed(p, b, j)
    ensures IsUsed(p, a + b, |a| + j)
  {
    var i, n :| j < i < |b| && OpenedFor(p, n, b[i], b[j]);
    assert (a + b)[|a| + i] == b[i] && (a + b)[|a| + j] == b[j];
  }

  lemma LaterInPlace(p: seq<Node>, a: seq<Event>, b: seq<Event>, i: nat)
    requires i < |b| && InPlace(p, b, i)
    ensures InPlace(p, a + b, |a| + i)
  {
    var n: nat :| StartsNode(p, n, b[i]) && AsAsked(p, n, b[i], b[..i]);
    var e := b[i];
    assert (a + b)[|a| + i] == e && (a + b)[..|a| + i] == a + b[..i];
    forall o | o in b[..i] ensures o in a + b[..i] {
    }
    InputLater(p[n], if AfterPipe(p, n) && e.pid > 0 then Some(e.pid - 1) else None, e.stdin, b[..i], a + b[..i]);
    OutputLater(p[n].stdout, e.stdout, b[..i], a + b[..i]);
    OutputLater(p[n].stderr, e.stderr, b[..i], a + b[..i]);
  }

  lemma LaunchInPlace(p: seq<Node>, n: nat, start: World, w: World)
    requires n < |p| && p[n].Command? && w.pids == CommandsBefore(p, n) && (start.pids < w.pids <==> AfterPipe(p, n))
    ensures AllInPlace(p, Launch(p[n], DirsBefore(p, n), start, w))
  {
    var events := Launch(p[n], DirsBefore(p, n), start, w);
    var last := |events| - 1;
    var e := events[last];
    LaunchAsAsked(p[n], DirsBefore(p, n), start, w);
    assert StartsNode(p, n, e) && AsAsked(p, n, e, events[..last]);
    OpensNumbered(p[n], Previous(start, w), w);
    forall j | 0 <= j < |events| && events[j].Opened? ensures IsUsed(p, events, j) {
      assert events[j] in events[..last];
      assert OpenedFor(p, n, events[last], events[j]);
    }
  }

  lemma FinishInPlace(p: seq<Node>, start: World, w: World)
    ensures AllInPlace(p, Finish(start, w))
  {
  }

  // Where the run stands when it comes to node n.
  predicate At(p: seq<Node>, n: nat, start: World, w: World) {
    && n < |p| && Shaped(p[n..]) && start.pids <= w.pids == CommandsBefore(p, n)
    && (start.pids < w.pids <==> AfterPipe(p, n))
  }

  lemma {:induction false} RestInPlace(p: seq<Node>, n: nat, status: nat -> int, verbose: bool, start: World, w: World,
                                       log: seq<Event>)
    requires At(p, n, start, w) && log == Eval(ToProgram(p[n..]), status, verbose, DirsBefore(p, n), start, w).1
    ensures AllInPlace(p, log)
    decreases |p| - n, 1
  {
    var list := p[n..];
    if list[0].Chdir? {
      EvalChdir(list, status, verbose, DirsBefore(p, n), start, w);
      if |list| > 1 && list[0].dir.Some? {
        TwoOn(p, n);
        RestInPlace(p, n + 2, status, verbose, start, w, log);
      }
    } else {
      CommandInPlace(p, n, status, verbose, start, w, log);
    }
  }

  lemma CommandInPlace(p: seq<Node>, n: nat, status: nat -> int, verbose: bool, start: World, w: World, log: seq<Event>)
    requires At(p, n, start, w) && p[n].Command?
    requires log == Eval(ToProgram(p[n..]), status, verbose, DirsBefore(p, n), start, w).1
    ensures AllInPlace(p, log)
    decreases |p| - n, 0
  {
    var list, cwd, w' := p[n..], DirsBefore(p, n), Launched(p[n], start, w);
    var launch, finish := Launch(p[n], cwd, start, w), Finish(start, w');
    LaunchInPlace(p, n, start, w);
    FinishInPlace(p, start, w');
    InPlaceConcat(p, launch, finish);
    if |list| == 1 {
      EvalLast(list, status, verbose, cwd, start, w);
    } else {
      TwoOn(p, n);
      if list[1].Pipe? {
        var later := Eval(ToProgram(p[n + 2..]), status, verbose, cwd, start, w').1;
        EvalPipe(list, status, verbose, cwd, start, w);
        RestInPlace(p, n + 2, status, verbose, start, w', later);
        InPlaceConcat(p, launch, later);
      } else {
        var later := Eval(ToProgram(p[n + 2..]), status, verbose, cwd, w', w').1;
        EvalOperator(list, status, verbose, cwd, start, w);
        RestInPlace(p, n + 2, status, verbose, w', w', later);
        InPlaceConcat(p, launch + finish, later);
      }
    }
  }

  // A command or directory change and the operator after it.
  lemma TwoOn(p: seq<Node>, n: nat)
    requires n < |p| - 1 && Shaped(p[n..])
    ensures n + 2 < |p| && p[n..][2..] == p[n + 2..] && Shaped(p[n + 2..]) && IsOp(p[n + 1])
    ensures p[n].Chdir? ==> p[n + 1].And?
    ensures p[n].Chdir? || p[n].Command?
    ensures AfterPipe(p, n + 2) <==> p[n + 1].Pipe? || (p[n].Chdir? && AfterPipe(p, n))
    ensures CommandsBefore(p, n + 2) == CommandsBefore(p, n) + if p[n].Command? then 1 else 0
    ensures DirsBefore(p, n + 2) ==
      if p[n].Chdir? && p[n].dir.Some? then Join(DirsBefore(p, n), p[n].dir.value) else DirsBefore(p, n)
  {
    assert p[n..][0] == p[n] && p[n..][1] == p[n + 1];
    assert p[n..][2..] == p[n + 2..];
    assert CommandsBefore(p, n + 1) == CommandsBefore(p, n) + if p[n].Command? then 1 else 0;
  }

  // In every run, each process started is the next command of the pipeline, and it is started in
  // the directory that all the directory changes before it lead to.
  lemma EveryStartInPlace(p: seq<Node>, status: nat -> int, verbose: bool)
    requires Shaped(p)
    ensures AllInPlace(p, Eval(ToProgram(p), status, verbose, ".", World(0, 0), World(0, 0)).1)
  {
    assert p[0..] == p;
    RestInPlace(p, 0, status, verbose, World(0, 0), World(0, 0),
                Eval(ToProgram(p), status, verbose, ".", World(0, 0), World(0, 0)).1);
  }

  // ----- When a run does not return

  // Every directory change names a directory and is followed by a command.
  predicate GoodDirs(p: seq<Node>) {
    forall i :: 0 <= i < |p| && p[i].Chdir? ==> p[i].dir.Some? && i + 1 < |p|
  }

  predicate SturdyStage(stage: Stage) {
    stage.cmd.Some? && stage.cmd.value.Command? && forall j :: 0 <= j < |stage.dirs| ==> stage.dirs[j].Some?
  }

  predicate SturdyStages(stages: seq<Stage>) {
    forall i :: 0 <= i < |stages| ==> SturdyStage(stages[i])
  }

  predicate Sturdy(prog: Program) {
    SturdyStages(prog.stages) && (prog.Chain? ==> Sturdy(prog.rest))
  }

  predicate NoEmptySegment(prog: Program) {
    prog.stages != [] && (prog.Chain? ==> NoEmptySegment(prog.rest))
  }

  lemma {:induction false} ChangeDirsWorks(cwd: string, dirs: seq<Option<string>>)
    ensures ChangeDirs(cwd, dirs).Some? <==> forall j :: 0 <= j < |dirs| ==> dirs[j].Some?
    decreases |dirs|
  {
    if dirs != [] && dirs[0].Some? {
      ChangeDirsWorks(Join(cwd, dirs[0].value), dirs[1..]);
      assert forall j :: 0 < j < |dirs| ==> dirs[j] == dirs[1..][j - 1];
    }
  }

  lemma {:induction false} LaunchWorks(stages: seq<Stage>, cwd: string, start: World, w: World)
    requires start.pids <= w.pids
    ensures LaunchAll(stages, cwd, start, w).failed.None? <==> SturdyStages(stages)
    decreases |stages|
  {
    if stages != [] {
      ChangeDirsWorks(cwd, stages[0].dirs);
      if SturdyStage(stages[0]) {
        LaunchWorks(stages[1..], ChangeDirs(cwd, stages[0].dirs).value, start, Launched(stages[0].cmd.value, start, w));
        assert forall i :: 0 < i < |stages| ==> stages[i] == stages[1..][i - 1];
      }
    }
  }

  // Only the statuses of processes still to be started matter.
  lemma {:induction false} SameStatusSameRun(prog: Program, f: nat -> int, g: nat -> int, cwd: string, w: World)
    requires NoEmptySegment(prog) && forall pid: nat :: pid >= w.pids ==> f(pid) == g(pid)
    ensures Eval(prog, f, false, cwd, w, w) == Eval(prog, g, false, cwd, w, w)
    decreases prog
  {
    var s := LaunchAll(prog.stages, cwd, w, w);
    if s.failed.None? && prog.Chain? {
      SameStatusSameRun(prog.rest, f, g, s.cwd, s.w);
    }
  }

  lemma {:induction false} SturdyReturns(prog: Program, status: nat -> int, cwd: string, w: World)
    requires Sturdy(prog)
    ensures Eval(prog, status, false, cwd, w, w).0.Returned?
    ensures Eval(prog, status, true, cwd, w, w).0 ==
      if prog.Final? then Eval(prog, status, false, cwd, w, w).0 else UnboundLocalError
    decreases prog
  {
    LaunchWorks(prog.stages, cwd, w, w);
    if prog.Chain? {
      var s := LaunchAll(prog.stages, cwd, w, w);
      SturdyReturns(prog.rest, status, s.cwd, s.w);
    }
  }

  // Let every segment before the bad directory change end so that the run goes on.
  lemma {:induction false} SomeRunFails(prog: Program, cwd: string, w: World) returns (status: nat -> int)
    requires NoEmptySegment(prog) && !Sturdy(prog)
    ensures !Eval(prog, status, false, cwd, w, w).0.Returned?
    decreases prog
  {
    LaunchWorks(prog.stages, cwd, w, w);
    if SturdyStages(prog.stages) {
      var s := LaunchAll(prog.stages, cwd, w, w);
      var later := SomeRunFails(prog.rest, s.cwd, s.w);
      var goOn := if prog.op.And? then 0 else 1;
      status := pid => if pid < s.w.pids then goOn else later(pid);
      SameStatusSameRun(prog.rest, status, later, s.cwd, s.w);
    } else {
      status := pid => 0;
    }
  }

  lemma {:induction false} GoodDirsSturdy(p: seq<Node>)
    requires Shaped(p)
    ensures NoEmptySegment(ToProgram(p)) && (Sturdy(ToProgram(p)) <==> GoodDirs(p))
    decreases |p|
  {
    if |p| == 1 {
      assert SturdyStage(ToProgram(p).stages[0]) <==> p[0].Command?;
    } else {
      GoodDirsSturdy(p[2..]);
      var rest := ToProgram(p[2..]);
      assert Sturdy(rest) <==> GoodDirs(p[2..]);
      if p[0].Chdir? {
        SturdyWithDir(rest.stages, p[0].dir);
      } else if p[1].Pipe? {
        SturdyWithCommand(rest.stages, p[0]);
      } else {
        assert SturdyStage(ToProgram(p).stages[0]);
      }
    }
  }

  lemma SturdyWithDir(stages: seq<Stage>, dir: Option<string>)
    requires stages != []
    ensures SturdyStages(WithDir(stages, dir)) <==> dir.Some? && SturdyStages(stages)
  {
    var more := WithDir(stages, dir);
    assert forall i :: 0 < i < |stages| ==> more[i] == stages[i];
    assert SturdyStage(more[0]) <==> dir.Some? && SturdyStage(stages[0]) by {
      var dirs := stages[0].dirs;
      assert more[0].dirs[0] == dir;
      assert forall j :: 0 <= j < |dirs| ==> more[0].dirs[j + 1] == dirs[j];
      assert forall j :: 0 < j <= |dirs| ==> more[0].dirs[j] == dirs[j - 1];
    }
  }

  lemma SturdyWithCommand(stages: seq<Stage>, c: Node)
    requires c.Command?
    ensures SturdyStages([Stage([], Some(c))] + stages) <==> SturdyStages(stages)
  {
    var more := [Stage([], Some(c))] + stages;
    assert forall i :: 0 <= i < |stages| ==> more[i + 1] == stages[i];
    assert forall i :: 0 < i < |more| ==> more[i] == stages[i - 1];
  }

  // A pipeline returns a status whatever its commands do, exactly when its directory changes are good.
  lemma AlwaysReturnsIff(p: seq<Node>)
    requires Shaped(p)
    ensures (forall status: nat -> int ::
               Eval(ToProgram(p), status, false, ".", World(0, 0), World(0, 0)).0.Returned?)
      <==> GoodDirs(p)
  {
    GoodDirsSturdy(p);
    if GoodDirs(p) {
      forall status: nat -> int ensures Eval(ToProgram(p), status, false, ".", World(0, 0), World(0, 0)).0.Returned? {
        SturdyReturns(ToProgram(p), status, ".", World(0, 0));
      }
    } else {
      var status := SomeRunFails(ToProgram(p), ".", World(0, 0));
    }
  }

  // With `verbose` on, the message printed after && or || reads an unset variable: such a run
  // returns exactly when no && or || follows a command and its directory changes are good.
  lemma VerboseReturnsIff(p: seq<Node>, status: nat -> int)
    requires Shaped(p)
    ensures Eval(ToProgram(p), status, true, ".", World(0, 0), World(0, 0)).0.Returned?
      <==> OneSegment(p) && GoodDirs(p)
  {
    GoodDirsSturdy(p);
    LaunchWorks(ToProgram(p).stages, ".", World(0, 0), World(0, 0));
    FinalIsOneSegment(p);
  }

  predicate OneSegment(p: seq<Node>) {
    forall i :: 0 <= i < |p| - 1 && p[i].Command? ==> p[i + 1].Pipe?
  }

  lemma {:induction false} FinalIsOneSegment(p: seq<Node>)
    requires Shaped(p)
    ensures ToProgram(p).Final? <==> OneSegment(p)
    decreases |p|
  {
    if |p| > 1 {
      FinalIsOneSegment(p[2..]);
      var rest := p[2..];
      assert forall i :: 0 <= i < |rest| ==> rest[i] == p[i + 2];
      assert OneSegment(rest) <==> forall i :: 2 <= i < |p| - 1 && p[i].Command? ==> p[i + 1].Pipe? by {
        assert forall i :: 2 <= i < |p| ==> p[i] == rest[i - 2];
      }
    }
  }

  // Of two commands with && between them, not even the first failing makes such a run return.
  lemma VerboseAndFails(a: Node, b: Node, status: nat -> int)
    requires a.Command? && b.Command?
    ensures var p := [a, And, b];
      Shaped(p) && !Eval(ToProgram(p), status, true, ".", World(0, 0), World(0, 0)).0.Returned?
  {
    var p := [a, And, b];
    assert p[2..] == [b] && p[1] == And;
    VerboseReturnsIff(p, status);
  }
}
