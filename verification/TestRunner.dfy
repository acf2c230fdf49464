/** The parallel test runner (test.py), over all interleavings of its threads. */
module TestRunner {
  import opened Options
  import opened Sequences

  // Worker threads, two first-in-first-out queues, one stop job per worker, and an interrupt flag.
  // A run is any interleaving of the atomic steps of the main thread, of the workers and of the
  // signal handler.

  // A stop job, or a job given back unrun after an interrupt, has isBreak set.
  datatype Job = Job(id: nat, isBreak: bool, isSkip: bool, returncode: int)

  // What a worker thread is about to do: take a job, look at the one it took, or post it.
  datatype Worker = Waiting | Holding(job: Job) | Posting(job: Job) | Exited

  datatype Tally = Tally(passed: nat, skipped: nat, failed: nat, valgrind: nat, crashed: nat)

  // The jobs to dispatch (which ones are to be skipped), what running each would return, and
  // the number of worker threads.
  datatype Config = Config(skips: seq<bool>, returncode: nat -> int, processors: nat)

  datatype State = State(
    input: seq<Job>, output: seq<Job>, workers: seq<Worker>, threadExit: bool,
    dispatched: nat, stops: nat, collected: seq<Job>, joined: nat, tally: Tally)

  datatype Event = Put | PutStop | Get(w: nat) | Decide(w: nat) | Post(w: nat) | Collect | Join | Interrupt

  const NO_RESULTS := Tally(0, 0, 0, 0, 0)
  const STOP_JOB := Job(0, true, false, 0)

  function NewJob(c: Config, id: nat): Job
    requires id < |c.skips|
  {
    Job(id, false, c.skips[id], 0)
  }

  // A job that was handled normally: skipped, or run.
  function DoneJob(c: Config, id: nat): Job
    requires id < |c.skips|
  {
    if c.skips[id] then NewJob(c, id) else NewJob(c, id).(returncode := c.returncode(id))
  }

  function Start(c: Config): State {
    State([], [], seq(c.processors, _ => Waiting), false, 0, 0, [], 0, NO_RESULTS)
  }

  // ----- Steps

  // The main thread dispatches all jobs, then the stop jobs, then collects one result per job,
  // then joins the workers in order.
  predicate Dispatched(c: Config, s: State) {
    s.dispatched == |c.skips| && s.stops == c.processors
  }

  predicate AllCollected(c: Config, s: State) {
    Dispatched(c, s) && |s.collected| == |c.skips|
  }

  predicate Finished(c: Config, s: State) {
    AllCollected(c, s) && s.joined == c.processors
  }

  predicate Enabled(c: Config, s: State, e: Event) {
    match e
    case Put => s.dispatched < |c.skips|
    case PutStop => s.dispatched == |c.skips| && s.stops < c.processors
    case Get(w) => w < |s.workers| && s.workers[w].Waiting? && s.input != []
    case Decide(w) => w < |s.workers| && s.workers[w].Holding?
    case Post(w) => w < |s.workers| && s.workers[w].Posting?
    case Collect => Dispatched(c, s) && |s.collected| < |c.skips| && s.output != []
    case Join => AllCollected(c, s) && s.joined < c.processors && s.joined < |s.workers| && s.workers[s.joined].Exited?
    case Interrupt => !s.threadExit
  }

  // The result loop: an interrupted job counts nowhere.
  function AddResult(t: Tally, job: Job): Tally {
    if job.isBreak then t
    else if job.isSkip then t.(skipped := t.skipped + 1)
    else if job.returncode == 0 then t.(passed := t.passed + 1)
    else if job.returncode == 1 then t.(failed := t.failed + 1)
    else if job.returncode == 2 then t.(valgrind := t.valgrind + 1)
    else t.(crashed := t.crashed + 1)
  }

  // What a worker makes of the job it holds.
  function Handle(c: Config, threadExit: bool, job: Job): Job {
    if threadExit then job.(isBreak := true)
    else if job.isSkip then job
    else job.(returncode := c.returncode(job.id))
  }

  function Apply(c: Config, s: State, e: Event): State
    requires Enabled(c, s, e)
  {
    match e
    case Put => s.(input := s.input + [NewJob(c, s.dispatched)], dispatched := s.dispatched + 1)
    case PutStop => s.(input := s.input + [STOP_JOB], stops := s.stops + 1)
    case Get(w) =>
      var job := s.input[0];
      s.(input := s.input[1..], workers := s.workers[w := if job.isBreak then Exited else Holding(job)])
    case Decide(w) => s.(workers := s.workers[w := Posting(Handle(c, s.threadExit, s.workers[w].job))])
    case Post(w) => s.(output := s.output + [s.workers[w].job], workers := s.workers[w := Waiting])
    case Collect =>
      s.(output := s.output[1..], collected := s.collected + [s.output[0]], tally := AddResult(s.tally, s.output[0]))
    case Join => s.(joined := s.joined + 1)
    case Interrupt => s.(threadExit := true)
  }

  // status 0 is success
  function ExitStatus(c: Config, s: State): int {
    if s.tally.passed + s.tally.skipped == |c.skips| then 0 else 1
  }

  // The state after a schedule, if every event was enabled when its turn came.
  function Run(c: Config, schedule: seq<Event>): Option<State> {
    if schedule == [] then Some(Start(c))
    else
      var s := Run(c, schedule[..|schedule| - 1]);
      var e := schedule[|schedule| - 1];
      if s.Some? && Enabled(c, s.value, e) then Some(Apply(c, s.value, e)) else None
  }

  // ----- Where the jobs are

  // How often a job number occurs in a list.
  function IdCount(jobs: seq<Job>, id: nat): nat {
    if jobs == [] then 0 else IdCount(jobs[..|jobs| - 1], id) + if jobs[|jobs| - 1].id == id then 1 else 0
  }

  // ... in the input queue, whose stop jobs are no jobs.
  function RealOne(job: Job, id: nat): nat {
    if !job.isBreak && job.id == id then 1 else 0
  }

  function RealCount(jobs: seq<Job>, id: nat): nat {
    if jobs == [] then 0 else RealCount(jobs[..|jobs| - 1], id) + RealOne(jobs[|jobs| - 1], id)
  }

  function Stops(jobs: seq<Job>): nat {
    if jobs == [] then 0 else Stops(jobs[..|jobs| - 1]) + if jobs[|jobs| - 1].isBreak then 1 else 0
  }

  function HeldOne(w: Worker, id: nat): nat {
    if (w.Holding? || w.Posting?) && w.job.id == id then 1 else 0
  }

  function HeldCount(workers: seq<Worker>, id: nat): nat {
    if workers == [] then 0 else HeldCount(workers[..|workers| - 1], id) + HeldOne(workers[|workers| - 1], id)
  }

  function ExitedOne(w: Worker): nat {
    if w.Exited? then 1 else 0
  }

  function Exits(workers: seq<Worker>): nat {
    if workers == [] then 0 else Exits(workers[..|workers| - 1]) + ExitedOne(workers[|workers| - 1])
  }

  // ----- The invariant

  // Where job `id` is, over the two queues, the workers and the results.
  function Copies(s: State, id: nat): nat {
    RealCount(s.input, id) + HeldCount(s.workers, id) + IdCount(s.output, id) + IdCount(s.collected, id)
  }

  // Each dispatched job is in exactly one place.
  ghost predicate Conserved(s: State) {
    forall id: nat :: Copies(s, id) == if id < s.dispatched then 1 else 0
  }

  ghost predicate StopsConserved(s: State) {
    Stops(s.input) + Exits(s.workers) == s.stops
  }

  // Stop jobs are behind the jobs, so a worker only leaves when no job waits any more.
  ghost predicate StopsLast(s: State) {
    && (forall i, j :: 0 <= i < j < |s.input| && s.input[i].isBreak ==> s.input[j].isBreak)
    && (Exits(s.workers) > 0 ==> forall i :: 0 <= i < |s.input| ==> s.input[i].isBreak)
  }

  ghost predicate Phases(c: Config, s: State) {
    && |s.workers| == c.processors && s.dispatched <= |c.skips| && s.stops <= c.processors
    && |s.collected| <= |c.skips| && s.joined <= c.processors
    && (s.stops > 0 ==> s.dispatched == |c.skips|)
    && (s.collected != [] ==> Dispatched(c, s))
    && (s.joined > 0 ==> AllCollected(c, s))
    && (forall i :: 0 <= i < s.joined ==> s.workers[i].Exited?)
  }

  predicate IsNew(c: Config, job: Job) {
    job.id < |c.skips| && job == NewJob(c, job.id)
  }

  // Handled: given back unrun, which needs an interrupt, or skipped or run exactly as it should.
  predicate IsHandled(c: Config, threadExit: bool, job: Job) {
    job.id < |c.skips| &&
    if job.isBreak then threadExit && job == NewJob(c, job.id).(isBreak := true) else job == DoneJob(c, job.id)
  }

  ghost predicate JobsIntact(c: Config, s: State) {
    && (forall i :: 0 <= i < |s.input| && !s.input[i].isBreak ==> IsNew(c, s.input[i]))
    && (forall i :: 0 <= i < |s.workers| && s.workers[i].Holding? ==> IsNew(c, s.workers[i].job))
    && (forall i :: 0 <= i < |s.workers| && s.workers[i].Posting? ==> IsHandled(c, s.threadExit, s.workers[i].job))
    && (forall i :: 0 <= i < |s.output| ==> IsHandled(c, s.threadExit, s.output[i]))
    && (forall i :: 0 <= i < |s.collected| ==> IsHandled(c, s.threadExit, s.collected[i]))
  }

  function TallyOf(jobs: seq<Job>): Tally {
    if jobs == [] then NO_RESULTS else AddResult(TallyOf(jobs[..|jobs| - 1]), jobs[|jobs| - 1])
  }

  // What the counters stand for: numbers of collected jobs that were not interrupted, by their
  // kind and return code.
  ghost predicate Counts(jobs: seq<Job>, t: Tally) {
    && t.skipped == |set i | 0 <= i < |jobs| && !jobs[i].isBreak && jobs[i].isSkip|
    && t.passed == |set i | 0 <= i < |jobs| && !jobs[i].isBreak && !jobs[i].isSkip && jobs[i].returncode == 0|
    && t.failed == |set i | 0 <= i < |jobs| && !jobs[i].isBreak && !jobs[i].isSkip && jobs[i].returncode == 1|
    && t.valgrind == |set i | 0 <= i < |jobs| && !jobs[i].isBreak && !jobs[i].isSkip && jobs[i].returncode == 2|
    && t.crashed == |set i | 0 <= i < |jobs| && !jobs[i].isBreak && !jobs[i].isSkip
                           && jobs[i].returncode != 0 && jobs[i].returncode != 1 && jobs[i].returncode != 2|
  }

  ghost predicate Inv(c: Config, s: State) {
    && Phases(c, s) && Conserved(s) && StopsConserved(s) && StopsLast(s) && JobsIntact(c, s)
    && s.tally == TallyOf(s.collected) && Counts(s.collected, s.tally)
  }

  // ----- What the counters stand for

  lemma CountsGrow(jobs: seq<Job>, t: Tally, job: Job)
    requires Counts(jobs, t)
    ensures Counts(jobs + [job], AddResult(t, job))
  {
    SkippedGrow(jobs, job);
    CodeGrow(jobs, job, 0);
    CodeGrow(jobs, job, 1);
    CodeGrow(jobs, job, 2);
    CrashedGrow(jobs, job);
  }

  lemma SkippedGrow(jobs: seq<Job>, job: Job)
    ensures var more := jobs + [job];
      |set i | 0 <= i < |more| && !more[i].isBreak && more[i].isSkip|
      == |set i | 0 <= i < |jobs| && !jobs[i].isBreak && jobs[i].isSkip| + if !job.isBreak && job.isSkip then 1 else 0
  {
    var more := jobs + [job];
    OneMorePlace(set i | 0 <= i < |jobs| && !jobs[i].isBreak && jobs[i].isSkip,
                 set i | 0 <= i < |more| && !more[i].isBreak && more[i].isSkip, |jobs|, !job.isBreak && job.isSkip);
  }

  lemma CodeGrow(jobs: seq<Job>, job: Job, code: int)
    ensures var more := jobs + [job];
      |set i | 0 <= i < |more| && !more[i].isBreak && !more[i].isSkip && more[i].returncode == code|
      == |set i | 0 <= i < |jobs| && !jobs[i].isBreak && !jobs[i].isSkip && jobs[i].returncode == code|
         + if !job.isBreak && !job.isSkip && job.returncode == code then 1 else 0
  {
    var more := jobs + [job];
    OneMorePlace(set i | 0 <= i < |jobs| && !jobs[i].isBreak && !jobs[i].isSkip && jobs[i].returncode == code,
                 set i | 0 <= i < |more| && !more[i].isBreak && !more[i].isSkip && more[i].returncode == code,
                 |jobs|, !job.isBreak && !job.isSkip && job.returncode == code);
  }

  predicate Crashed(job: Job) {
    !job.isBreak && !job.isSkip && job.returncode != 0 && job.returncode != 1 && job.returncode != 2
  }

  lemma CrashedGrow(jobs: seq<Job>, job: Job)
    ensures var more := jobs + [job];
      |set i | 0 <= i < |more| && !more[i].isBreak && !more[i].isSkip
               && more[i].returncode != 0 && more[i].returncode != 1 && more[i].returncode != 2|
      == |set i | 0 <= i < |jobs| && !jobs[i].isBreak && !jobs[i].isSkip
                  && jobs[i].returncode != 0 && jobs[i].returncode != 1 && jobs[i].returncode != 2|
         + if Crashed(job) then 1 else 0
  {
    var more := jobs + [job];
    OneMorePlace(set i | 0 <= i < |jobs| && !jobs[i].isBreak && !jobs[i].isSkip
                         && jobs[i].returncode != 0 && jobs[i].returncode != 1 && jobs[i].returncode != 2,
                 set i | 0 <= i < |more| && !more[i].isBreak && !more[i].isSkip
                         && more[i].returncode != 0 && more[i].returncode != 1 && more[i].returncode != 2,
                 |jobs|, Crashed(job));
  }

  // ----- The invariant is kept

  lemma AppendId(jobs: seq<Job>, job: Job, id: nat)
    ensures IdCount(jobs + [job], id) == IdCount(jobs, id) + if job.id == id then 1 else 0
  {
    assert (jobs + [job])[..|jobs|] == jobs;
  }

  lemma AppendReal(jobs: seq<Job>, job: Job, id: nat)
    ensures RealCount(jobs + [job], id) == RealCount(jobs, id) + RealOne(job, id)
    ensures Stops(jobs + [job]) == Stops(jobs) + if job.isBreak then 1 else 0
  {
    assert (jobs + [job])[..|jobs|] == jobs;
  }

  lemma AppendTally(jobs: seq<Job>, job: Job)
    ensures TallyOf(jobs + [job]) == AddResult(TallyOf(jobs), job)
  {
    assert (jobs + [job])[..|jobs|] == jobs;
  }

  // The first of several jobs, and what is before the last.
  lemma Middle(jobs: seq<Job>)
    requires |jobs| > 1
    ensures jobs[1..] == jobs[..|jobs| - 1][1..] + [jobs[|jobs| - 1]] && jobs[..|jobs| - 1][0] == jobs[0]
  {
  }

  lemma {:induction false} TakeId(jobs: seq<Job>, id: nat)
    requires jobs != []
    ensures IdCount(jobs, id) == IdCount(jobs[1..], id) + if jobs[0].id == id then 1 else 0
    decreases |jobs|
  {
    if |jobs| > 1 {
      var front, last := jobs[..|jobs| - 1], jobs[|jobs| - 1];
      TakeId(front, id);
      AppendId(front[1..], last, id);
      Middle(jobs);
    }
  }

  lemma {:induction false} TakeReal(jobs: seq<Job>, id: nat)
    requires jobs != []
    ensures RealCount(jobs, id) == RealCount(jobs[1..], id) + RealOne(jobs[0], id)
    ensures Stops(jobs) == Stops(jobs[1..]) + if jobs[0].isBreak then 1 else 0
    decreases |jobs|
  {
    if |jobs| > 1 {
      var front, last := jobs[..|jobs| - 1], jobs[|jobs| - 1];
      TakeReal(front, id);
      AppendReal(front[1..], last, id);
      Middle(jobs);
    }
  }

  lemma UpdateFront(workers: seq<Worker>, w: nat, x: Worker)
    requires w < |workers|
    ensures var n := |workers| - 1;
      workers[w := x][..n] == if w < n then workers[..n][w := x] else workers[..n]
  {
  }

  lemma {:induction false} ChangeHeld(workers: seq<Worker>, w: nat, x: Worker, id: nat)
    requires w < |workers|
    ensures HeldCount(workers[w := x], id) + HeldOne(workers[w], id) == HeldCount(workers, id) + HeldOne(x, id)
    decreases |workers|
  {
    UpdateFront(workers, w, x);
    if w < |workers| - 1 {
      ChangeHeld(workers[..|workers| - 1], w, x, id);
    }
  }

  lemma {:induction false} ChangeExits(workers: seq<Worker>, w: nat, x: Worker)
    requires w < |workers|
    ensures Exits(workers[w := x]) + ExitedOne(workers[w]) == Exits(workers) + ExitedOne(x)
    decreases |workers|
  {
    UpdateFront(workers, w, x);
    if w < |workers| - 1 {
      ChangeExits(workers[..|workers| - 1], w, x);
    }
  }

  lemma {:induction false} WaitingHoldNothing(workers: seq<Worker>, id: nat)
    requires forall i :: 0 <= i < |workers| ==> workers[i].Waiting?
    ensures HeldCount(workers, id) == 0 && Exits(workers) == 0
    decreases |workers|
  {
    if workers != [] {
      WaitingHoldNothing(workers[..|workers| - 1], id);
    }
  }

  lemma InvStart(c: Config)
    ensures Inv(c, Start(c))
  {
    WaitingHoldNothing(Start(c).workers, 0);
    forall id: nat ensures Copies(Start(c), id) == 0 {
      WaitingHoldNothing(Start(c).workers, id);
    }
  }

  // How many copies of a job there are after a step, and how many stop jobs.
  ghost predicate Moved(s: State, s': State, id: nat, jobs: nat, stops: nat) {
    Copies(s', id) == Copies(s, id) + jobs && StopCount(s') == StopCount(s) + stops
  }

  function StopCount(s: State): nat {
    Stops(s.input) + Exits(s.workers)
  }

  lemma PutMoves(s: State, job: Job, id: nat)
    ensures Moved(s, s.(input := s.input + [job]), id, RealOne(job, id), if job.isBreak then 1 else 0)
  {
    AppendReal(s.input, job, id);
  }

  lemma GetMoves(s: State, w: nat, id: nat)
    requires w < |s.workers| && s.workers[w].Waiting? && s.input != []
    ensures var x := if s.input[0].isBreak then Exited else Holding(s.input[0]);
      Moved(s, s.(input := s.input[1..], workers := s.workers[w := x]), id, 0, 0)
  {
    TakeReal(s.input, id);
    ChangeHeld(s.workers, w, if s.input[0].isBreak then Exited else Holding(s.input[0]), id);
    ChangeExits(s.workers, w, if s.input[0].isBreak then Exited else Holding(s.input[0]));
  }

  lemma DecideMoves(s: State, w: nat, job: Job, id: nat)
    requires w < |s.workers| && s.workers[w].Holding? && job.id == s.workers[w].job.id
    ensures Moved(s, s.(workers := s.workers[w := Posting(job)]), id, 0, 0)
  {
    ChangeHeld(s.workers, w, Posting(job), id);
    ChangeExits(s.workers, w, Posting(job));
  }

  lemma PostMoves(s: State, w: nat, job: Job, id: nat)
    requires w < |s.workers| && s.workers[w] == Posting(job)
    ensures Moved(s, s.(output := s.output + [job], workers := s.workers[w := Waiting]), id, 0, 0)
  {
    var output, workers := s.output + [job], s.workers[w := Waiting];
    AppendId(s.output, job, id);
    ChangeHeld(s.workers, w, Waiting, id);
    ChangeExits(s.workers, w, Waiting);
    assert IdCount(output, id) + HeldCount(workers, id) == IdCount(s.output, id) + HeldCount(s.workers, id);
    assert Exits(workers) == Exits(s.workers);
  }

  lemma CollectMoves(s: State, id: nat)
    requires s.output != []
    ensures Moved(s, s.(output := s.output[1..], collected := s.collected + [s.output[0]]), id, 0, 0)
  {
    TakeId(s.output, id);
    AppendId(s.collected, s.output[0], id);
  }

  lemma StepMoves(c: Config, s: State, e: Event, id: nat)
    requires Enabled(c, s, e)
    ensures Moved(s, Apply(c, s, e), id, if e.Put? && id == s.dispatched then 1 else 0, if e.PutStop? then 1 else 0)
  {
    match e {
      case Put => PutMoves(s, NewJob(c, s.dispatched), id);
      case PutStop => PutMoves(s, STOP_JOB, id);
      case Get(w) => GetMoves(s, w, id);
      case Decide(w) => DecideMoves(s, w, Handle(c, s.threadExit, s.workers[w].job), id);
      case Post(w) => PostMoves(s, w, s.workers[w].job, id);
      case Collect => CollectMoves(s, id);
      case Join =>
      case Interrupt =>
    }
  }

  lemma StepConserves(c: Config, s: State, e: Event)
    requires Conserved(s) && StopsConserved(s) && Enabled(c, s, e)
    ensures Conserved(Apply(c, s, e)) && StopsConserved(Apply(c, s, e))
  {
    StepMoves(c, s, e, 0);
    forall id: nat ensures Copies(Apply(c, s, e), id) == if id < Apply(c, s, e).dispatched then 1 else 0 {
      StepMoves(c, s, e, id);
    }
  }

  lemma {:induction false} NoStopsYet(jobs: seq<Job>)
    ensures Stops(jobs) == 0 <==> forall i :: 0 <= i < |jobs| ==> !jobs[i].isBreak
    decreases |jobs|
  {
    if jobs != [] {
      NoStopsYet(jobs[..|jobs| - 1]);
      assert forall i :: 0 <= i < |jobs| - 1 ==> jobs[..|jobs| - 1][i] == jobs[i];
    }
  }

  lemma StepKeepsOrder(c: Config, s: State, e: Event)
    requires Phases(c, s) && StopsConserved(s) && StopsLast(s) && Enabled(c, s, e)
    ensures StopsLast(Apply(c, s, e))
  {
    if e.Put? {
      NoStopsYet(s.input);
    } else if e.Get? {
      GetKeepsOrder(c, s, e.w);
    } else if e.Decide? {
      ChangeExits(s.workers, e.w, Posting(Handle(c, s.threadExit, s.workers[e.w].job)));
    } else if e.Post? {
      ChangeExits(s.workers, e.w, Waiting);
    }
  }

  lemma GetKeepsOrder(c: Config, s: State, w: nat)
    requires StopsLast(s) && Enabled(c, s, Get(w))
    ensures StopsLast(Apply(c, s, Get(w)))
  {
    var job, rest := s.input[0], s.input[1..];
    ChangeExits(s.workers, w, if job.isBreak then Exited else Holding(job));
    assert forall i :: 0 <= i < |rest| ==> rest[i] == s.input[i + 1];
    if job.isBreak {
      assert forall i :: 0 <= i < |rest| ==> rest[i].isBreak;
    }
  }

  lemma StepKeepsJobs(c: Config, s: State, e: Event)
    requires JobsIntact(c, s) && Enabled(c, s, e)
    ensures JobsIntact(c, Apply(c, s, e))
  {
    if e.Decide? {
      assert IsHandled(c, s.threadExit, Handle(c, s.threadExit, s.workers[e.w].job));
    }
  }

  lemma StepKeepsPhases(c: Config, s: State, e: Event)
    requires Phases(c, s) && Enabled(c, s, e)
    ensures Phases(c, Apply(c, s, e))
  {
  }

  lemma StepKeepsTally(c: Config, s: State, e: Event)
    requires s.tally == TallyOf(s.collected) && Enabled(c, s, e)
    requires Counts(s.collected, s.tally)
    ensures Apply(c, s, e).tally == TallyOf(Apply(c, s, e).collected)
    ensures Counts(Apply(c, s, e).collected, Apply(c, s, e).tally)
  {
    if e.Collect? {
      AppendTally(s.collected, s.output[0]);
      CountsGrow(s.collected, s.tally, s.output[0]);
    }
  }

  lemma InvStep(c: Config, s: State, e: Event)
    requires Inv(c, s) && Enabled(c, s, e)
    ensures Inv(c, Apply(c, s, e))
  {
    StepKeepsPhases(c, s, e);
    StepConserves(c, s, e);
    StepKeepsOrder(c, s, e);
    StepKeepsJobs(c, s, e);
    StepKeepsTally(c, s, e);
  }

  // Every state of every interleaving.
  lemma {:induction false} InvAlways(c: Config, schedule: seq<Event>)
    requires Run(c, schedule).Some?
    ensures Inv(c, Run(c, schedule).value)
    decreases |schedule|
  {
    if schedule == [] {
      InvStart(c);
    } else {
      var s := Run(c, schedule[..|schedule| - 1]);
      InvAlways(c, schedule[..|schedule| - 1]);
      InvStep(c, s.value, schedule[|schedule| - 1]);
    }
  }

  // ----- Every run ends, after the same number of steps

  function QueueWork(jobs: seq<Job>): nat {
    if jobs == [] then 0 else QueueWork(jobs[..|jobs| - 1]) + if jobs[|jobs| - 1].isBreak then 1 else 3
  }

  function WorkOf(w: Worker): nat {
    match w
    case Holding(_) => 2
    case Posting(_) => 1
    case _ => 0
  }

  function WorkersWork(workers: seq<Worker>): nat {
    if workers == [] then 0 else WorkersWork(workers[..|workers| - 1]) + WorkOf(workers[|workers| - 1])
  }

  // Steps still to be made: a job is put, taken, looked at, posted and collected; a stop job is
  // put, taken and its worker joined.
  function StepsLeft(c: Config, s: State): int {
    4 * (|c.skips| - s.dispatched) + 2 * (c.processors - s.stops) + QueueWork(s.input) + WorkersWork(s.workers)
    + (|c.skips| - |s.collected|) + (c.processors - s.joined)
  }

  lemma AppendWork(jobs: seq<Job>, job: Job)
    ensures QueueWork(jobs + [job]) == QueueWork(jobs) + if job.isBreak then 1 else 3
  {
    assert (jobs + [job])[..|jobs|] == jobs;
  }

  lemma {:induction false} TakeWork(jobs: seq<Job>)
    requires jobs != []
    ensures QueueWork(jobs) == QueueWork(jobs[1..]) + if jobs[0].isBreak then 1 else 3
    decreases |jobs|
  {
    var front, last := jobs[..|jobs| - 1], jobs[|jobs| - 1];
    if front == [] {
      assert jobs[1..] == [];
    } else {
      TakeWork(front);
      AppendWork(front[1..], last);
      assert jobs[1..] == front[1..] + [last];
    }
  }

  lemma {:induction false} ChangeWork(workers: seq<Worker>, w: nat, x: Worker)
    requires w < |workers|
    ensures WorkersWork(workers[w := x]) + WorkOf(workers[w]) == WorkersWork(workers) + WorkOf(x)
    decreases |workers|
  {
    var n := |workers| - 1;
    if w < n {
      ChangeWork(workers[..n], w, x);
      assert workers[w := x][..n] == workers[..n][w := x];
    } else {
      assert workers[w := x][..n] == workers[..n];
    }
  }

  lemma {:induction false} WaitingNoWork(workers: seq<Worker>)
    requires forall i :: 0 <= i < |workers| ==> WorkOf(workers[i]) == 0
    ensures WorkersWork(workers) == 0
    decreases |workers|
  {
    if workers != [] {
      WaitingNoWork(workers[..|workers| - 1]);
    }
  }

  lemma StepWorks(c: Config, s: State, e: Event)
    requires Enabled(c, s, e)
    ensures StepsLeft(c, Apply(c, s, e)) == StepsLeft(c, s) - if e.Interrupt? then 0 else 1
  {
    match e {
      case Put => AppendWork(s.input, NewJob(c, s.dispatched));
      case PutStop => AppendWork(s.input, STOP_JOB);
      case Get(w) =>
        TakeWork(s.input);
        ChangeWork(s.workers, w, if s.input[0].isBreak then Exited else Holding(s.input[0]));
      case Decide(w) => ChangeWork(s.workers, w, Posting(Handle(c, s.threadExit, s.workers[w].job)));
      case Post(w) => ChangeWork(s.workers, w, Waiting);
      case Collect =>
      case Join =>
      case Interrupt =>
    }
  }

  lemma {:induction false} RunWorks(c: Config, schedule: seq<Event>)
    requires Run(c, schedule).Some?
    ensures var s := Run(c, schedule).value;
      |schedule| + StepsLeft(c, s) == 5 * |c.skips| + 3 * c.processors + if s.threadExit then 1 else 0
    decreases |schedule|
  {
    if schedule == [] {
      WaitingNoWork(Start(c).workers);
    } else {
      RunWorks(c, schedule[..|schedule| - 1]);
      StepWorks(c, Run(c, schedule[..|schedule| - 1]).value, schedule[|schedule| - 1]);
    }
  }

  // ----- No deadlock

  // Some thread can move.
  ghost predicate CanMove(c: Config, s: State) {
    exists e :: Enabled(c, s, e) && !e.Interrupt?
  }

  lemma {:induction false} HolderOf(workers: seq<Worker>, id: nat) returns (w: nat)
    requires HeldCount(workers, id) > 0
    ensures w < |workers| && (workers[w].Holding? || workers[w].Posting?)
    decreases |workers|
  {
    var n := |workers| - 1;
    if HeldOne(workers[n], id) == 1 {
      w := n;
    } else {
      w := HolderOf(workers[..n], id);
    }
  }

  lemma {:induction false} WaiterOf(workers: seq<Worker>)
    requires workers != [] && Exits(workers) == 0
    requires forall i :: 0 <= i < |workers| ==> !workers[i].Holding? && !workers[i].Posting?
    ensures workers[0].Waiting?
    decreases |workers|
  {
    if |workers| > 1 {
      WaiterOf(workers[..|workers| - 1]);
    }
  }

  lemma {:induction false} RealJobWaits(jobs: seq<Job>, id: nat)
    requires RealCount(jobs, id) > 0
    ensures jobs != [] && exists i :: 0 <= i < |jobs| && !jobs[i].isBreak
    decreases |jobs|
  {
    var n := |jobs| - 1;
    if RealOne(jobs[n], id) == 0 {
      RealJobWaits(jobs[..n], id);
      var i :| 0 <= i < n && !jobs[..n][i].isBreak;
      assert !jobs[i].isBreak;
    } else {
      assert !jobs[n].isBreak;
    }
  }

  // The main loop never waits for ever: while a result is missing, a worker can produce it.
  lemma MissingResultMoves(c: Config, s: State, id: nat)
    requires Inv(c, s) && c.processors > 0 && s.dispatched == |c.skips| && id < |c.skips|
    requires IdCount(s.collected, id) == 0 && s.output == []
    ensures CanMove(c, s)
  {
    assert Copies(s, id) == 1;
    if HeldCount(s.workers, id) > 0 {
      var w := HolderOf(s.workers, id);
      assert Enabled(c, s, if s.workers[w].Holding? then Decide(w) else Post(w));
    } else {
      RealJobWaits(s.input, id);
      if w :| 0 <= w < |s.workers| && (s.workers[w].Holding? || s.workers[w].Posting?) {
        assert Enabled(c, s, if s.workers[w].Holding? then Decide(w) else Post(w));
      } else {
        WaiterOf(s.workers);
        assert Enabled(c, s, Get(0));
      }
    }
  }

  lemma {:induction false} SomeMissing(jobs: seq<Job>, n: nat) returns (id: nat)
    requires |jobs| < n && forall i :: 0 <= i < |jobs| ==> jobs[i].id < n
    ensures id < n && IdCount(jobs, id) == 0
    decreases n
  {
    if IdCount(jobs, n - 1) == 0 {
      id := n - 1;
    } else {
      var rest := Without(jobs, n - 1);
      id := SomeMissing(rest, n - 1);
      WithoutCount(jobs, n - 1, id);
    }
  }

  function Without(jobs: seq<Job>, id: nat): (r: seq<Job>)
    ensures forall i :: 0 <= i < |r| ==> r[i].id != id && r[i] in jobs
    ensures |r| <= |jobs| && (IdCount(jobs, id) > 0 ==> |r| < |jobs|)
  {
    if jobs == [] then []
    else
      var rest := Without(jobs[..|jobs| - 1], id);
      if jobs[|jobs| - 1].id == id then rest else rest + [jobs[|jobs| - 1]]
  }

  lemma {:induction false} WithoutCount(jobs: seq<Job>, id: nat, other: nat)
    requires id != other
    ensures IdCount(Without(jobs, id), other) == IdCount(jobs, other)
    decreases |jobs|
  {
    if jobs != [] {
      var front, last := jobs[..|jobs| - 1], jobs[|jobs| - 1];
      WithoutCount(front, id, other);
      if last.id != id {
        AppendId(Without(front, id), last, other);
      }
    }
  }

  // The joins end: a worker that has not left finds a stop job, all others are done.
  lemma UnjoinedMoves(c: Config, s: State)
    requires Inv(c, s) && AllCollected(c, s) && s.joined < c.processors
    ensures CanMove(c, s)
  {
    var w := s.joined;
    if s.workers[w].Exited? {
      assert Enabled(c, s, Join);
    } else if s.workers[w].Waiting? {
      NotAllExited(s.workers, w);
      assert Enabled(c, s, Get(w));
    } else {
      assert Enabled(c, s, if s.workers[w].Holding? then Decide(w) else Post(w));
    }
  }

  lemma {:induction false} NotAllExited(workers: seq<Worker>, w: nat)
    requires w < |workers| && !workers[w].Exited?
    ensures Exits(workers) < |workers|
    decreases |workers|
  {
    var n := |workers| - 1;
    ExitsBound(workers[..n]);
    if w < n {
      NotAllExited(workers[..n], w);
    }
  }

  lemma {:induction false} ExitsBound(workers: seq<Worker>)
    ensures Exits(workers) <= |workers|
    decreases |workers|
  {
    if workers != [] {
      ExitsBound(workers[..|workers| - 1]);
    }
  }

  lemma NoDeadlock(c: Config, s: State)
    requires Inv(c, s) && c.processors > 0 && !Finished(c, s)
    ensures CanMove(c, s)
  {
    if s.dispatched < |c.skips| {
      assert Enabled(c, s, Put);
    } else if s.stops < c.processors {
      assert Enabled(c, s, PutStop);
    } else if |s.collected| < |c.skips| {
      if s.output != [] {
        assert Enabled(c, s, Collect);
      } else {
        var id := SomeMissing(s.collected, |c.skips|);
        MissingResultMoves(c, s, id);
      }
    } else {
      UnjoinedMoves(c, s);
    }
  }

  lemma StepsNotNegative(c: Config, schedule: seq<Event>)
    requires Run(c, schedule).Some?
    ensures StepsLeft(c, Run(c, schedule).value) >= 0
  {
    InvAlways(c, schedule);
  }

  lemma OneMore(c: Config, schedule: seq<Event>, e: Event)
    requires Run(c, schedule).Some? && Enabled(c, Run(c, schedule).value, e)
    ensures Run(c, schedule + [e]) == Some(Apply(c, Run(c, schedule).value, e))
  {
    assert (schedule + [e])[..|schedule|] == schedule;
  }

  // A run that cannot go on is complete; every run can be continued until it is.
  lemma EveryRunCompletes(c: Config, schedule: seq<Event>) returns (whole: seq<Event>)
    requires c.processors > 0 && Run(c, schedule).Some?
    ensures schedule <= whole && Run(c, whole).Some? && Finished(c, Run(c, whole).value)
  {
    whole := CompleteFrom(c, schedule, Run(c, schedule).value);
  }

  lemma {:induction false} CompleteFrom(c: Config, schedule: seq<Event>, s: State) returns (whole: seq<Event>)
    requires c.processors > 0 && Run(c, schedule) == Some(s)
    ensures schedule <= whole && Run(c, whole).Some? && Finished(c, Run(c, whole).value)
    decreases StepsLeft(c, s)
  {
    if Finished(c, s) {
      whole := schedule;
    } else {
      var e := NextMove(c, schedule, s);
      whole := CompleteFrom(c, schedule + [e], Apply(c, s, e));
    }
  }

  lemma NextMove(c: Config, schedule: seq<Event>, s: State) returns (e: Event)
    requires c.processors > 0 && Run(c, schedule) == Some(s) && !Finished(c, s)
    ensures Enabled(c, s, e) && Run(c, schedule + [e]) == Some(Apply(c, s, e))
    ensures 0 <= StepsLeft(c, Apply(c, s, e)) < StepsLeft(c, s)
  {
    InvAlways(c, schedule);
    NoDeadlock(c, s);
    e :| Enabled(c, s, e) && !e.Interrupt?;
    StepWorks(c, s, e);
    OneMore(c, schedule, e);
    StepsNotNegative(c, schedule + [e]);
  }

  // Without a worker, nothing is ever taken from the input queue.
  lemma {:induction false} NoWorkerNoResult(c: Config, schedule: seq<Event>)
    requires c.processors == 0 && Run(c, schedule).Some?
    ensures Run(c, schedule).value.collected == [] && Run(c, schedule).value.output == []
    decreases |schedule|
  {
    if schedule != [] {
      NoWorkerNoResult(c, schedule[..|schedule| - 1]);
      InvAlways(c, schedule[..|schedule| - 1]);
    }
  }

  // The runner can finish if and only if it has a worker or nothing to do.
  lemma CanFinishIff(c: Config)
    ensures (exists schedule :: Run(c, schedule).Some? && Finished(c, Run(c, schedule).value))
      <==> c.processors > 0 || |c.skips| == 0
  {
    if c.processors > 0 {
      var whole := EveryRunCompletes(c, []);
    } else if |c.skips| == 0 {
      assert Run(c, []) == Some(Start(c));
      assert Finished(c, Run(c, []).value);
    } else {
      forall schedule | Run(c, schedule).Some? ensures !Finished(c, Run(c, schedule).value) {
        NoWorkerNoResult(c, schedule);
      }
    }
  }

  // ----- What a finished run has done

  // A result that lets the program succeed.
  predicate Fine(job: Job) {
    !job.isBreak && (job.isSkip || job.returncode == 0)
  }

  lemma {:induction false} FineTotal(jobs: seq<Job>)
    ensures var t := TallyOf(jobs);
      t.passed + t.skipped <= |jobs| &&
      (t.passed + t.skipped == |jobs| <==> forall i :: 0 <= i < |jobs| ==> Fine(jobs[i]))
    decreases |jobs|
  {
    if jobs != [] {
      var front := jobs[..|jobs| - 1];
      FineTotal(front);
      assert forall i :: 0 <= i < |front| ==> front[i] == jobs[i];
    }
  }

  // Number of jobs given back unrun.
  function Interrupted(jobs: seq<Job>): nat {
    if jobs == [] then 0 else Interrupted(jobs[..|jobs| - 1]) + if jobs[|jobs| - 1].isBreak then 1 else 0
  }

  lemma {:induction false} TallyTotal(jobs: seq<Job>)
    ensures var t := TallyOf(jobs);
      t.passed + t.skipped + t.failed + t.valgrind + t.crashed + Interrupted(jobs) == |jobs|
    decreases |jobs|
  {
    if jobs != [] {
      TallyTotal(jobs[..|jobs| - 1]);
    }
  }

  lemma {:induction false} AllIdsHigh(jobs: seq<Job>, n: nat, id: nat)
    requires (forall i :: 0 <= i < |jobs| ==> jobs[i].id < n) && id >= n
    ensures IdCount(jobs, id) == 0
    decreases |jobs|
  {
    if jobs != [] {
      assert forall i :: 0 <= i < |jobs| - 1 ==> jobs[..|jobs| - 1][i] == jobs[i];
      AllIdsHigh(jobs[..|jobs| - 1], n, id);
    }
  }

  // Different jobs, numbered below n.
  ghost predicate Numbered(jobs: seq<Job>, n: nat) {
    (forall i :: 0 <= i < |jobs| ==> jobs[i].id < n) && forall k: nat :: IdCount(jobs, k) <= 1
  }

  lemma CollectedOnce(jobs: seq<Job>, n: nat, id: nat)
    requires |jobs| == n && id < n && Numbered(jobs, n)
    ensures IdCount(jobs, id) == 1
  {
    if IdCount(jobs, id) == 0 {
      TooManyJobs(jobs, n, id);
      assert false;
    }
  }

  lemma TopRemoved(jobs: seq<Job>, n: nat, id: nat) returns (rest: seq<Job>)
    requires n > 0 && Numbered(jobs, n)
    ensures Numbered(rest, n - 1) && |jobs| == |rest| + IdCount(jobs, n - 1) && IdCount(jobs, n - 1) <= 1
    ensures id != n - 1 ==> IdCount(rest, id) == IdCount(jobs, id)
  {
    rest := RestCounts(jobs, n - 1, id);
    RestNumbered(jobs, n - 1, rest);
  }

  lemma RestCounts(jobs: seq<Job>, top: nat, id: nat) returns (rest: seq<Job>)
    ensures rest == Without(jobs, top) && |jobs| == |rest| + IdCount(jobs, top)
    ensures id != top ==> IdCount(rest, id) == IdCount(jobs, id)
  {
    rest := Without(jobs, top);
    WithoutLength(jobs, top);
    if id != top {
      WithoutCount(jobs, top, id);
    }
  }

  lemma RestNumbered(jobs: seq<Job>, top: nat, rest: seq<Job>)
    requires Numbered(jobs, top + 1) && rest == Without(jobs, top)
    ensures Numbered(rest, top)
  {
    forall k: nat ensures IdCount(rest, k) <= 1 {
      if k == top {
        WithoutNone(jobs, top);
      } else {
        WithoutCount(jobs, top, k);
      }
    }
  }

  // n jobs, numbered below n and different, cannot avoid a number.
  lemma {:induction false} TooManyJobs(jobs: seq<Job>, n: nat, id: nat)
    requires id < n && IdCount(jobs, id) == 0 && Numbered(jobs, n)
    ensures |jobs| < n
    decreases n
  {
    var rest := TopRemoved(jobs, n, id);
    if id == n - 1 {
      BelowLength(rest, n - 1);
    } else {
      TooManyJobs(rest, n - 1, id);
    }
  }

  lemma NoneBelowZero(jobs: seq<Job>)
    requires forall i :: 0 <= i < |jobs| ==> jobs[i].id < 0
    ensures jobs == []
  {
    assert |jobs| > 0 ==> jobs[0].id < 0;
  }

  lemma {:induction false} BelowLength(jobs: seq<Job>, n: nat)
    requires Numbered(jobs, n)
    ensures |jobs| <= n
    decreases n
  {
    if n > 0 {
      var rest := TopRemoved(jobs, n, 0);
      BelowLength(rest, n - 1);
    } else {
      NoneBelowZero(jobs);
    }
  }

  lemma {:induction false} WithoutNone(jobs: seq<Job>, id: nat)
    ensures IdCount(Without(jobs, id), id) == 0
    decreases |jobs|
  {
    if jobs != [] {
      var front, last := jobs[..|jobs| - 1], jobs[|jobs| - 1];
      WithoutNone(front, id);
      if last.id != id {
        AppendId(Without(front, id), last, id);
      }
    }
  }

  lemma {:induction false} WithoutLength(jobs: seq<Job>, id: nat)
    ensures |Without(jobs, id)| + IdCount(jobs, id) == |jobs|
    decreases |jobs|
  {
    if jobs != [] {
      WithoutLength(jobs[..|jobs| - 1], id);
    }
  }

  // A finished run: every job came back exactly once, the queues are empty and all workers have
  // left; the counters are the numbers of results of their kind and add up, and the status is 0
  // exactly when no job was interrupted and each was skipped or returned 0.
  lemma FinishedRun(c: Config, schedule: seq<Event>)
    requires Run(c, schedule).Some? && Finished(c, Run(c, schedule).value)
    ensures var s := Run(c, schedule).value;
      var t := s.tally;
      && (forall id: nat :: IdCount(s.collected, id) == if id < |c.skips| then 1 else 0)
      && s.input == [] && s.output == []
      && |s.workers| == c.processors && (forall w :: 0 <= w < c.processors ==> s.workers[w].Exited?)
      && t.passed + t.skipped + t.failed + t.valgrind + t.crashed + Interrupted(s.collected) == |c.skips|
      && Counts(s.collected, t)
      && (ExitStatus(c, s) == 0 <==> forall i :: 0 <= i < |s.collected| ==>
            !s.collected[i].isBreak && (s.collected[i].isSkip || s.collected[i].returncode == 0))
      && (ExitStatus(c, s) == 0 || ExitStatus(c, s) == 1)
      && |schedule| == 5 * |c.skips| + 3 * c.processors + (if s.threadExit then 1 else 0)
  {
    var s := Run(c, schedule).value;
    InvAlways(c, schedule);
    TallyTotal(s.collected);
    FineTotal(s.collected);
    RunWorks(c, schedule);
    WaitingNoWork(s.workers);
    forall id: nat
      ensures IdCount(s.collected, id) == (if id < |c.skips| then 1 else 0)
      ensures IdCount(s.output, id) == 0 && RealCount(s.input, id) == 0
    {
      assert Copies(s, id) <= 1;
      if id < |c.skips| {
        forall k: nat ensures IdCount(s.collected, k) <= 1 {
          assert Copies(s, k) <= 1;
        }
        assert Numbered(s.collected, |c.skips|);
        CollectedOnce(s.collected, |c.skips|, id);
      } else {
        AllIdsHigh(s.collected, |c.skips|, id);
      }
    }
    if s.output != [] {
      TakeId(s.output, s.output[0].id);
    }
    AllExited(s.workers);
    NothingQueued(s.input);
  }

  lemma {:induction false} AllExited(workers: seq<Worker>)
    requires forall i :: 0 <= i < |workers| ==> workers[i].Exited?
    ensures Exits(workers) == |workers|
    decreases |workers|
  {
    if workers != [] {
      AllExited(workers[..|workers| - 1]);
    }
  }

  lemma NothingQueued(jobs: seq<Job>)
    requires Stops(jobs) == 0 && forall id: nat :: RealCount(jobs, id) == 0
    ensures jobs == []
  {
    if jobs != [] {
      TakeReal(jobs, jobs[0].id);
    }
  }

  // ----- The summary does not depend on the interleaving

  // All jobs, run one after the other.
  function InOrder(c: Config, n: nat): seq<Job>
    requires n <= |c.skips|
  {
    if n == 0 then [] else InOrder(c, n - 1) + [DoneJob(c, n - 1)]
  }

  lemma AddResultsCommute(t: Tally, a: Job, b: Job)
    ensures AddResult(AddResult(t, a), b) == AddResult(AddResult(t, b), a)
  {
  }

  lemma {:induction false} WithoutAbsent(jobs: seq<Job>, id: nat)
    requires IdCount(jobs, id) == 0
    ensures Without(jobs, id) == jobs
    decreases |jobs|
  {
    if jobs != [] {
      WithoutAbsent(jobs[..|jobs| - 1], id);
    }
  }

  lemma {:induction false} TallyWithout(jobs: seq<Job>, job: Job)
    requires IdCount(jobs, job.id) == 1 && forall i :: 0 <= i < |jobs| && jobs[i].id == job.id ==> jobs[i] == job
    ensures TallyOf(jobs) == AddResult(TallyOf(Without(jobs, job.id)), job)
    decreases |jobs|
  {
    var front, last := jobs[..|jobs| - 1], jobs[|jobs| - 1];
    if last.id == job.id {
      WithoutAbsent(front, job.id);
    } else {
      assert forall i :: 0 <= i < |front| ==> front[i] == jobs[i];
      TallyWithout(front, job);
      AppendTally(Without(front, job.id), last);
      AddResultsCommute(TallyOf(Without(front, job.id)), job, last);
    }
  }

  lemma WithoutTop(jobs: seq<Job>, n: nat, rest: seq<Job>)
    requires n > 0 && forall id: nat :: IdCount(jobs, id) == if id < n then 1 else 0
    requires rest == Without(jobs, n - 1)
    ensures forall id: nat :: IdCount(rest, id) == if id < n - 1 then 1 else 0
  {
    forall id: nat ensures IdCount(rest, id) == if id < n - 1 then 1 else 0 {
      if id == n - 1 {
        WithoutNone(jobs, n - 1);
      } else {
        WithoutCount(jobs, n - 1, id);
      }
    }
  }

  lemma {:induction false} TallyInAnyOrder(c: Config, jobs: seq<Job>, n: nat)
    requires n <= |c.skips| && forall id: nat :: IdCount(jobs, id) == if id < n then 1 else 0
    requires forall i :: 0 <= i < |jobs| ==> jobs[i].id < |c.skips| && jobs[i] == DoneJob(c, jobs[i].id)
    ensures TallyOf(jobs) == TallyOf(InOrder(c, n))
    decreases n
  {
    if n == 0 {
      if jobs != [] {
        TakeId(jobs, jobs[0].id);
      }
    } else {
      var rest := Without(jobs, n - 1);
      TallyWithout(jobs, DoneJob(c, n - 1));
      WithoutTop(jobs, n, rest);
      TallyInAnyOrder(c, rest, n - 1);
      AppendTally(InOrder(c, n - 1), DoneJob(c, n - 1));
    }
  }

  lemma {:induction false} InOrderAt(c: Config, n: nat, i: nat)
    requires i < n <= |c.skips|
    ensures |InOrder(c, n)| == n && InOrder(c, n)[i] == DoneJob(c, i)
    decreases n
  {
    if i < n - 1 {
      InOrderAt(c, n - 1, i);
    } else if n > 1 {
      InOrderAt(c, n - 1, 0);
    }
  }

  // The counters, by what was to be run and what running it returns.
  ghost predicate CountsAll(c: Config, t: Tally) {
    var n := |c.skips|;
    && t.skipped == |set i | 0 <= i < n && c.skips[i]|
    && t.passed == |set i | 0 <= i < n && !c.skips[i] && c.returncode(i) == 0|
    && t.failed == |set i | 0 <= i < n && !c.skips[i] && c.returncode(i) == 1|
    && t.valgrind == |set i | 0 <= i < n && !c.skips[i] && c.returncode(i) == 2|
    && t.crashed == |set i | 0 <= i < n && !c.skips[i] && c.returncode(i) != 0
                           && c.returncode(i) != 1 && c.returncode(i) != 2|
  }

  lemma {:induction false} TallyCounts(jobs: seq<Job>)
    ensures Counts(jobs, TallyOf(jobs))
    decreases |jobs|
  {
    if jobs != [] {
      var front, last := jobs[..|jobs| - 1], jobs[|jobs| - 1];
      TallyCounts(front);
      CountsGrow(front, TallyOf(front), last);
      assert jobs == front + [last];
    }
  }

  lemma InOrderAll(c: Config, jobs: seq<Job>)
    requires jobs == InOrder(c, |c.skips|)
    ensures |jobs| == |c.skips| && forall i :: 0 <= i < |jobs| ==> jobs[i] == DoneJob(c, i)
  {
    forall i | 0 <= i < |c.skips| ensures |jobs| == |c.skips| && jobs[i] == DoneJob(c, i) {
      InOrderAt(c, |c.skips|, i);
    }
  }

  lemma CodePlaces(c: Config, jobs: seq<Job>, code: int)
    requires |jobs| == |c.skips| && forall i :: 0 <= i < |jobs| ==> jobs[i] == DoneJob(c, i)
    ensures (set i | 0 <= i < |jobs| && !jobs[i].isBreak && !jobs[i].isSkip && jobs[i].returncode == code)
      == set i | 0 <= i < |c.skips| && !c.skips[i] && c.returncode(i) == code
  {
  }

  lemma OtherPlaces(c: Config, jobs: seq<Job>)
    requires |jobs| == |c.skips| && forall i :: 0 <= i < |jobs| ==> jobs[i] == DoneJob(c, i)
    ensures (set i | 0 <= i < |jobs| && !jobs[i].isBreak && jobs[i].isSkip) == set i | 0 <= i < |c.skips| && c.skips[i]
    ensures (set i | 0 <= i < |jobs| && !jobs[i].isBreak && !jobs[i].isSkip
                     && jobs[i].returncode != 0 && jobs[i].returncode != 1 && jobs[i].returncode != 2)
      == set i | 0 <= i < |c.skips| && !c.skips[i]
                 && c.returncode(i) != 0 && c.returncode(i) != 1 && c.returncode(i) != 2
  {
  }

  lemma InOrderCounts(c: Config, t: Tally)
    requires t == TallyOf(InOrder(c, |c.skips|))
    ensures CountsAll(c, t)
  {
    var jobs := InOrder(c, |c.skips|);
    TallyCounts(jobs);
    InOrderAll(c, jobs);
    OtherPlaces(c, jobs);
    CodePlaces(c, jobs, 0);
    CodePlaces(c, jobs, 1);
    CodePlaces(c, jobs, 2);
  }

  lemma InOrderFine(c: Config, t: Tally)
    requires t == TallyOf(InOrder(c, |c.skips|))
    ensures t.passed + t.skipped == |c.skips| <==>
      forall i :: 0 <= i < |c.skips| ==> c.skips[i] || c.returncode(i) == 0
  {
    var jobs := InOrder(c, |c.skips|);
    InOrderAll(c, jobs);
    FineTotal(jobs);
    assert forall i :: 0 <= i < |jobs| ==> (Fine(jobs[i]) <==> c.skips[i] || c.returncode(i) == 0);
  }

  // Whatever the interleaving and the number of workers, an uninterrupted run counts every job by
  // what running it returns, and succeeds exactly if all are skipped or return 0.
  lemma UninterruptedRun(c: Config, schedule: seq<Event>)
    requires Run(c, schedule).Some? && Finished(c, Run(c, schedule).value) && !Run(c, schedule).value.threadExit
    ensures CountsAll(c, Run(c, schedule).value.tally)
    ensures ExitStatus(c, Run(c, schedule).value) == 0 <==>
      forall i :: 0 <= i < |c.skips| ==> c.skips[i] || c.returncode(i) == 0
  {
    InvAlways(c, schedule);
    FinishedRun(c, schedule);
    TallyInAnyOrder(c, Run(c, schedule).value.collected, |c.skips|);
    InOrderCounts(c, Run(c, schedule).value.tally);
    InOrderFine(c, Run(c, schedule).value.tally);
  }

  // ----- What an interrupt stops

  ghost predicate ResultAmong(jobs: seq<Job>, id: nat) {
    exists i :: 0 <= i < |jobs| && jobs[i].id == id && !jobs[i].isBreak
  }

  ghost predicate ResultAtWorker(workers: seq<Worker>, id: nat) {
    exists w :: 0 <= w < |workers| && workers[w].Posting? && workers[w].job.id == id && !workers[w].job.isBreak
  }

  // The job was skipped or run, and its result not lost.
  ghost predicate HasResult(s: State, id: nat) {
    ResultAmong(s.collected, id) || ResultAmong(s.output, id) || ResultAtWorker(s.workers, id)
  }

  lemma ResultAppended(jobs: seq<Job>, job: Job, id: nat)
    ensures ResultAmong(jobs + [job], id) <==> ResultAmong(jobs, id) || (job.id == id && !job.isBreak)
  {
    var more := jobs + [job];
    assert more[|jobs|] == job;
    assert forall i :: 0 <= i < |jobs| ==> more[i] == jobs[i];
  }

  lemma ResultTaken(jobs: seq<Job>, id: nat)
    requires jobs != []
    ensures ResultAmong(jobs, id) <==> ResultAmong(jobs[1..], id) || (jobs[0].id == id && !jobs[0].isBreak)
  {
    assert forall i :: 0 < i < |jobs| ==> jobs[i] == jobs[1..][i - 1];
    assert forall i :: 0 <= i < |jobs| - 1 ==> jobs[1..][i] == jobs[i + 1];
  }

  ghost predicate PostsResult(w: Worker, id: nat) {
    w.Posting? && w.job.id == id && !w.job.isBreak
  }

  lemma ResultMoved(workers: seq<Worker>, w: nat, x: Worker, id: nat)
    requires w < |workers|
    ensures ResultAtWorker(workers[w := x], id) || PostsResult(workers[w], id)
      <==> ResultAtWorker(workers, id) || PostsResult(x, id)
    ensures PostsResult(x, id) ==> ResultAtWorker(workers[w := x], id)
    ensures PostsResult(workers[w], id) ==> ResultAtWorker(workers, id)
    ensures !PostsResult(workers[w], id) && !PostsResult(x, id) ==>
      (ResultAtWorker(workers[w := x], id) <==> ResultAtWorker(workers, id))
  {
    var more := workers[w := x];
    assert more[w] == x && forall i :: 0 <= i < |workers| && i != w ==> more[i] == workers[i];
  }

  // Once interrupted, no step produces or loses a result.
  lemma InterruptedStep(c: Config, s: State, e: Event, id: nat)
    requires Enabled(c, s, e) && s.threadExit
    ensures HasResult(Apply(c, s, e), id) <==> HasResult(s, id)
  {
    match e {
      case Get(w) => ResultMoved(s.workers, w, if s.input[0].isBreak then Exited else Holding(s.input[0]), id);
      case Decide(w) => ResultMoved(s.workers, w, Posting(Handle(c, s.threadExit, s.workers[w].job)), id);
      case Post(w) =>
        ResultMoved(s.workers, w, Waiting, id);
        ResultAppended(s.output, s.workers[w].job, id);
      case Collect =>
        ResultTaken(s.output, id);
        ResultAppended(s.collected, s.output[0], id);
      case _ =>
    }
  }

  // After an interrupt, every job without a result stays without one.
  lemma {:induction false} InterruptStops(c: Config, before: seq<Event>, after: seq<Event>, id: nat)
    requires Run(c, before + [Interrupt] + after).Some?
    ensures Run(c, before).Some? && Run(c, before + [Interrupt] + after).value.threadExit
    ensures HasResult(Run(c, before + [Interrupt] + after).value, id) <==> HasResult(Run(c, before).value, id)
    decreases |after|
  {
    var whole := before + [Interrupt] + after;
    if after == [] {
      assert whole[..|whole| - 1] == before && whole[|whole| - 1] == Interrupt;
    } else {
      var front, last := after[..|after| - 1], after[|after| - 1];
      assert whole[..|whole| - 1] == before + [Interrupt] + front && whole[|whole| - 1] == last;
      InterruptStops(c, before, front, id);
      InterruptedStep(c, Run(c, whole[..|whole| - 1]).value, last, id);
    }
  }

  // So the jobs that count in the end are those that had a result when the interrupt came.
  lemma InterruptedRun(c: Config, before: seq<Event>, after: seq<Event>, id: nat)
    requires Run(c, before + [Interrupt] + after).Some?
    requires Finished(c, Run(c, before + [Interrupt] + after).value)
    ensures Run(c, before).Some?
    ensures ResultAmong(Run(c, before + [Interrupt] + after).value.collected, id)
      <==> HasResult(Run(c, before).value, id)
  {
    InterruptStops(c, before, after, id);
    FinishedRun(c, before + [Interrupt] + after);
  }

  // ----- The threads

  class TestRun {
    const c: Config
    var inputQueue: seq<Job>
    var outputQueue: seq<Job>
    var workers: seq<Worker>
    var threadExit: bool
    var dispatched: nat
    var stops: nat
    var joined: nat
    var collected: seq<Job>
    var passedTests: nat
    var skippedTests: nat
    var failedTests: nat
    var valgrindErrors: nat
    var crashedTests: nat

    ghost function Now(): State
      reads this
    {
      State(inputQueue, outputQueue, workers, threadExit, dispatched, stops, collected, joined,
            Tally(passedTests, skippedTests, failedTests, valgrindErrors, crashedTests))
    }

    constructor (c: Config)
      ensures this.c == c && Now() == Start(c)
    {
      this.c := c;
      inputQueue, outputQueue, collected := [], [], [];
      workers := seq(c.processors, _ => Waiting);
      threadExit := false;
      dispatched, stops, joined := 0, 0, 0;
      passedTests, skippedTests, failedTests, valgrindErrors, crashedTests := 0, 0, 0, 0, 0;
    }

    // The next step of the main thread, if it is not blocked.
    function MainEvent(): (e: Event)
      reads this
    {
      if dispatched < |c.skips| then Put
      else if stops < c.processors then PutStop
      else if |collected| < |c.skips| then Collect
      else Join
    }

    predicate MainCanMove()
      reads this
    {
      dispatched < |c.skips| || stops < c.processors
      || (if |collected| < |c.skips| then outputQueue != [] else joined < |workers| && workers[joined].Exited?)
    }

    // One round of the result loop.
    method CountResult(job: Job)
      modifies this`passedTests, this`skippedTests, this`failedTests, this`valgrindErrors, this`crashedTests
      ensures Now() == old(Now()).(tally := AddResult(old(Now()).tally, job))
      ensures forall jobs :: Counts(jobs, old(Now()).tally) ==> Counts(jobs + [job], Now().tally)
    {
      forall jobs | Counts(jobs, Now().tally) ensures Counts(jobs + [job], AddResult(Now().tally, job)) {
        CountsGrow(jobs, Now().tally, job);
      }
      if job.isBreak {
        return;
      }
      if job.isSkip {
        skippedTests := skippedTests + 1;
      } else if job.returncode == 0 {
        passedTests := passedTests + 1;
      } else if job.returncode == 1 {
        failedTests := failedTests + 1;
      } else if job.returncode == 2 {
        valgrindErrors := valgrindErrors + 1;
      } else {
        crashedTests := crashedTests + 1;
      }
    }

    method MainStep()
      requires Phases(c, Now()) && !Finished(c, Now()) && MainCanMove()
      modifies this
      ensures old(Enabled(c, Now(), MainEvent())) && Now() == Apply(c, old(Now()), old(MainEvent()))
    {
      if dispatched < |c.skips| {
        inputQueue := inputQueue + [Job(dispatched, false, c.skips[dispatched], 0)];
        dispatched := dispatched + 1;
      } else if stops < c.processors {
        inputQueue := inputQueue + [Job(0, true, false, 0)];
        stops := stops + 1;
      } else if |collected| < |c.skips| {
        var job := outputQueue[0];
        outputQueue, collected := outputQueue[1..], collected + [job];
        CountResult(job);
      } else {
        joined := joined + 1;
      }
    }

    predicate WorkerCanMove(w: nat)
      reads this
    {
      w < |workers| && match workers[w] { case Waiting => inputQueue != [] case Exited => false case _ => true }
    }

    function WorkerEvent(w: nat): Event
      requires w < |workers|
      reads this
    {
      match workers[w]
      case Holding(_) => Decide(w)
      case Posting(_) => Post(w)
      case _ => Get(w)
    }

    // The next step of worker w: take a job or leave; look at the interrupt flag and run or
    // skip the job; post the result.
    method WorkerStep(w: nat)
      requires WorkerCanMove(w)
      modifies this
      ensures old(Enabled(c, Now(), WorkerEvent(w))) && Now() == Apply(c, old(Now()), old(WorkerEvent(w)))
    {
      match workers[w]
      case Waiting =>
        var job := inputQueue[0];
        inputQueue := inputQueue[1..];
        workers := workers[w := if job.isBreak then Exited else Holding(job)];
      case Holding(job) =>
        if threadExit {
          workers := workers[w := Posting(job.(isBreak := true))];
        } else if job.isSkip {
          workers := workers[w := Posting(job)];
        } else {
          var returncode := c.returncode(job.id);
          workers := workers[w := Posting(job.(returncode := returncode))];
        }
      case Posting(job) =>
        outputQueue := outputQueue + [job];
        workers := workers[w := Waiting];
    }

    // The signal handler.
    method OnInterrupt()
      requires !threadExit
      modifies this
      ensures Now() == Apply(c, old(Now()), Interrupt)
    {
      threadExit := true;
    }
  }

  lemma SomeThreadMoves(r: TestRun)
    requires Inv(r.c, r.Now()) && r.c.processors > 0 && !Finished(r.c, r.Now())
    ensures r.MainCanMove() || exists w: nat :: w < |r.workers| && r.WorkerCanMove(w)
  {
    NoDeadlock(r.c, r.Now());
    var e :| Enabled(r.c, r.Now(), e) && !e.Interrupt?;
    if e.Get? || e.Decide? || e.Post? {
      assert r.WorkerCanMove(e.w);
    }
  }

  // Steps left, the interrupt included.
  ghost function Remaining(c: Config, s: State): int {
    StepsLeft(c, s) + if s.threadExit then 0 else 1
  }

  lemma StepDone(c: Config, schedule: seq<Event>, s: State, e: Event)
    requires Run(c, schedule) == Some(s) && Inv(c, s) && Enabled(c, s, e)
    ensures Run(c, schedule + [e]) == Some(Apply(c, s, e)) && Inv(c, Apply(c, s, e))
    ensures 0 <= Remaining(c, Apply(c, s, e)) < Remaining(c, s)
  {
    OneMore(c, schedule, e);
    InvStep(c, s, e);
    StepWorks(c, s, e);
    StepsNotNegative(c, schedule + [e]);
  }

  // The whole program, under a scheduler that may let any thread move, or the interrupt happen,
  // at any time.  `schedule` is the interleaving that took place.
  method RunTests(c: Config) returns (status: int, tally: Tally, schedule: seq<Event>)
    requires c.processors > 0
    ensures Run(c, schedule).Some? && Finished(c, Run(c, schedule).value)
    ensures tally == Run(c, schedule).value.tally && status == ExitStatus(c, Run(c, schedule).value)
    ensures Counts(Run(c, schedule).value.collected, tally)
    ensures status == 0 || status == 1
    ensures status == 0 <==> forall i :: 0 <= i < |Run(c, schedule).value.collected| ==>
      var job := Run(c, schedule).value.collected[i];
      !job.isBreak && (job.isSkip || job.returncode == 0)
    ensures !Run(c, schedule).value.threadExit ==>
      && CountsAll(c, tally)
      && (status == 0 <==> forall i :: 0 <= i < |c.skips| ==> c.skips[i] || c.returncode(i) == 0)
  {
    var r := new TestRun(c);
    schedule := [];
    InvStart(c);
    WaitingNoWork(r.workers);
    while r.joined < c.processors
      invariant r.c == c && Run(c, schedule) == Some(r.Now()) && Inv(c, r.Now())
      decreases Remaining(c, r.Now())
    {
      SomeThreadMoves(r);
      ghost var before := r.Now();
      var e: Event;
      if {
        case !r.threadExit =>
          e := Interrupt;
          r.OnInterrupt();
        case r.MainCanMove() =>
          e := r.MainEvent();
          r.MainStep();
        case exists w: nat :: w < |r.workers| && r.WorkerCanMove(w) =>
          var w: nat :| w < |r.workers| && r.WorkerCanMove(w);
          e := r.WorkerEvent(w);
          r.WorkerStep(w);
      }
      StepDone(c, schedule, before, e);
      schedule := schedule + [e];
    }
    FinishedRun(c, schedule);
    if !r.threadExit {
      UninterruptedRun(c, schedule);
    }
    tally := Tally(r.passedTests, r.skippedTests, r.failedTests, r.valgrindErrors, r.crashedTests);
    status := if r.passedTests + r.skippedTests == |c.skips| then 0 else 1;
  }
}
