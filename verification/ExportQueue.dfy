/** The export queue: submitters, a bounded queue, two workers, and the job rows they write.

    Every step is one stretch of the event loop between two suspension points.  Starting the workers and offering
    a job to the queue never suspend, so a submission is one step. */
module ExportQueue {
  const MAX_CONCURRENT := 2
  const MAX_QUEUE_SIZE := 100

  datatype Status = Queued | Running | Done | Failed

  /** How far the request that inserted a job has come. */
  datatype Submission = Inserted | Accepted | Refused | RefusalMarked

  /** What a worker does: wait, or carry one job through its stages. */
  datatype Worker =
    | Idle
    | Taken(job: nat)
    | Exporting(job: nat)
    | MarkedDone(job: nat)
    | Failing(job: nat, afterDone: bool)
    | MarkedFailed(job: nat)

  /** The rows and requests by job id, the pool, and the jobs in the order they were accepted and taken. */
  datatype World = World(rows: seq<Status>, subs: seq<Submission>, started: bool, workers: seq<Worker>,
                         queue: seq<nat>, accepted: seq<nat>, taken: seq<nat>)

  datatype Step =
    | Insert                  // a request inserts its row
    | Submit(job: nat)        // it starts the pool if need be and offers the job
    | MarkRefused(job: nat)   // it marks a refused job failed
    | Take(w: nat)            // a worker takes the head of the queue
    | MarkRunning(w: nat)
    | Progress(w: nat)        // the builder reports progress: the row is marked running again
    | MarkDone(w: nat)
    | Error(w: nat)           // a database call, the builder or the upload raises
    | MarkFailed(w: nat)
    | LoseFailure(w: nat)     // marking the job failed raises too; the worker loop swallows it
    | Finish(w: nat)          // the last notification is over, the worker waits again

  predicate Enabled(s: World, step: Step) {
    match step
    case Insert => true
    case Submit(j) => j < |s.subs| && s.subs[j] == Inserted
    case MarkRefused(j) => j < |s.subs| && j < |s.rows| && s.subs[j] == Refused
    case Take(w) => w < |s.workers| && s.workers[w] == Idle && s.queue != []
    case MarkRunning(w) => w < |s.workers| && s.workers[w].Taken? && s.workers[w].job < |s.rows|
    case Progress(w) => w < |s.workers| && s.workers[w].Exporting? && s.workers[w].job < |s.rows|
    case MarkDone(w) => w < |s.workers| && s.workers[w].Exporting? && s.workers[w].job < |s.rows|
    case Error(w) => w < |s.workers| && (s.workers[w].Taken? || s.workers[w].Exporting? || s.workers[w].MarkedDone?)
    case MarkFailed(w) => w < |s.workers| && s.workers[w].Failing? && s.workers[w].job < |s.rows|
    case LoseFailure(w) => w < |s.workers| && s.workers[w].Failing?
    case Finish(w) => w < |s.workers| && (s.workers[w].MarkedDone? || s.workers[w].MarkedFailed?)
  }

  function Begun(s: World): World {
    if s.started then s else s.(started := true, workers := s.workers + seq(MAX_CONCURRENT, i => Idle))
  }

  function At(s: World, w: nat, stage: Worker, status: Status): World
    requires w < |s.workers| && !s.workers[w].Idle? && s.workers[w].job < |s.rows|
  {
    s.(rows := s.rows[s.workers[w].job := status], workers := s.workers[w := stage])
  }

  function Apply(s: World, step: Step): World
    requires Enabled(s, step)
  {
    match step
    case Insert => s.(rows := s.rows + [Queued], subs := s.subs + [Inserted])
    case Submit(j) =>
      var b := Begun(s);
      if |b.queue| >= MAX_QUEUE_SIZE then b.(subs := b.subs[j := Refused])
      else b.(subs := b.subs[j := Accepted], queue := b.queue + [j], accepted := b.accepted + [j])
    case MarkRefused(j) => s.(rows := s.rows[j := Failed], subs := s.subs[j := RefusalMarked])
    case Take(w) =>
      s.(workers := s.workers[w := Taken(s.queue[0])], queue := s.queue[1..], taken := s.taken + [s.queue[0]])
    case MarkRunning(w) => At(s, w, Exporting(s.workers[w].job), Running)
    case Progress(w) => At(s, w, s.workers[w], Running)
    case MarkDone(w) => At(s, w, MarkedDone(s.workers[w].job), Done)
    case Error(w) => s.(workers := s.workers[w := Failing(s.workers[w].job, s.workers[w].MarkedDone?)])
    case MarkFailed(w) => At(s, w, MarkedFailed(s.workers[w].job), Failed)
    case LoseFailure(w) => s.(workers := s.workers[w := Idle])
    case Finish(w) => s.(workers := s.workers[w := Idle])
  }

  const START := World([], [], false, [], [], [], [])

  ghost predicate Reaches(before: World, steps: seq<Step>, after: World)
    decreases |steps|
  {
    if steps == [] then before == after
    else Enabled(before, steps[0]) && Reaches(Apply(before, steps[0]), steps[1..], after)
  }

  // ---------------------------------------------------------------- the queue and the workers

  ghost predicate Distinct(s: seq<nat>) {
    forall i, j :: 0 <= i < j < |s| ==> s[i] != s[j]
  }

  /** Two workers once started, a bounded queue, and every accepted job either taken or waiting, in order. */
  ghost predicate Orderly(s: World) {
    && |s.workers| == (if s.started then MAX_CONCURRENT else 0)
    && |s.queue| <= MAX_QUEUE_SIZE
    && s.accepted == s.taken + s.queue
    && Distinct(s.accepted)
    && |s.rows| == |s.subs|
    && (forall j :: 0 <= j < |s.subs| ==> (s.subs[j] == Accepted <==> j in s.accepted))
    && (forall j :: j in s.accepted ==> j < |s.subs|)
  }

  /** The jobs two workers carry differ, and were taken from the queue. */
  ghost predicate Apart(s: World) {
    && (forall w :: 0 <= w < |s.workers| && !s.workers[w].Idle? ==> s.workers[w].job in s.taken)
    && (forall v, w :: 0 <= v < w < |s.workers| && !s.workers[v].Idle? && !s.workers[w].Idle? ==>
                         s.workers[v].job != s.workers[w].job)
  }

  lemma OrderlyKept(s: World, step: Step)
    requires Orderly(s) && Enabled(s, step)
    ensures Orderly(Apply(s, step))
  {
    var t := Apply(s, step);
    if step.Submit? {
      if |s.queue| < MAX_QUEUE_SIZE {
        assert step.job !in s.accepted;
        assert t.accepted == s.accepted + [step.job];
        assert t.taken + t.queue == (s.taken + s.queue) + [step.job];
      }
    } else if step.Take? {
      assert t.taken + t.queue == s.taken + s.queue;
    }
  }

  lemma HeadUntaken(s: World)
    requires Orderly(s) && s.queue != []
    ensures s.queue[0] !in s.taken
  {
    assert s.accepted[|s.taken|] == s.queue[0];
    forall i | 0 <= i < |s.taken| ensures s.taken[i] != s.queue[0] {
      assert s.accepted[i] == s.taken[i];
    }
  }

  lemma ApartKept(s: World, step: Step)
    requires Orderly(s) && Apart(s) && Enabled(s, step)
    ensures Apart(Apply(s, step))
  {
    if step.Take? { HeadUntaken(s); }
    hide Orderly;
  }

  // ---------------------------------------------------------------- the rows

  /** The row of a job that a worker carries. */
  predicate StageFits(worker: Worker, status: Status) {
    match worker
    case Idle => true
    case Taken(_) => status == Queued
    case Exporting(_) => status == Running
    case MarkedDone(_) => status == Done
    case Failing(_, afterDone) => if afterDone then status == Done else status == Queued || status == Running
    case MarkedFailed(_) => status == Failed
  }

  ghost predicate Carried(s: World, j: nat) {
    exists w :: 0 <= w < |s.workers| && !s.workers[w].Idle? && s.workers[w].job == j
  }

  /** The row of a job as long as no worker has taken it. */
  predicate RequestFits(sub: Submission, taken: bool, status: Status) {
    match sub
    case Inserted => status == Queued
    case Refused => status == Queued
    case RefusalMarked => status == Failed
    case Accepted => !taken ==> status == Queued
  }

  ghost predicate RequestsFit(s: World) {
    |s.rows| == |s.subs| && forall j :: 0 <= j < |s.rows| ==> RequestFits(s.subs[j], j in s.taken, s.rows[j])
  }

  ghost predicate StagesFit(s: World) {
    forall w :: 0 <= w < |s.workers| && !s.workers[w].Idle? ==>
                  s.workers[w].job < |s.rows| && StageFits(s.workers[w], s.rows[s.workers[w].job])
  }

  /** Each row says how far its job has come. */
  ghost predicate RowsFit(s: World) {
    RequestsFit(s) && StagesFit(s)
  }

  lemma CarriedAccepted(s: World, w: nat)
    requires Orderly(s) && Apart(s) && w < |s.workers| && !s.workers[w].Idle?
    ensures s.workers[w].job in s.taken && s.workers[w].job < |s.subs| && s.subs[s.workers[w].job] == Accepted
  {
    assert s.workers[w].job in s.taken;
    assert s.workers[w].job in s.accepted;
  }

  lemma TakenInserted(s: World)
    requires Orderly(s)
    ensures forall j :: j in s.taken ==> j < |s.subs|
  {
    assert forall j :: j in s.taken ==> j in s.accepted;
  }

  lemma RequestsKept(s: World, step: Step)
    requires Orderly(s) && Apart(s) && RequestsFit(s) && Enabled(s, step)
    ensures RequestsFit(Apply(s, step))
  {
    OrderlyKept(s, step);
    forall w | 0 <= w < |s.workers| && !s.workers[w].Idle? { CarriedAccepted(s, w); }
    TakenInserted(s);
    hide Orderly, Apart;
  }

  lemma StagesKept(s: World, step: Step)
    requires Orderly(s) && Apart(s) && RequestsFit(s) && StagesFit(s) && Enabled(s, step)
    ensures StagesFit(Apply(s, step))
  {
    if step.Take? {
      HeadUntaken(s);
      assert s.accepted[|s.taken|] == s.queue[0];
      assert s.queue[0] in s.accepted;
      assert RequestFits(s.subs[s.queue[0]], false, s.rows[s.queue[0]]);
    }
    forall w | 0 <= w < |s.workers| && !s.workers[w].Idle? { CarriedAccepted(s, w); }
    hide Orderly, RequestsFit;
  }

  lemma RowsFitKept(s: World, step: Step)
    requires Orderly(s) && Apart(s) && RowsFit(s) && Enabled(s, step)
    ensures RowsFit(Apply(s, step))
  {
    RequestsKept(s, step);
    StagesKept(s, step);
  }

  ghost predicate Sound(s: World) {
    Orderly(s) && Apart(s) && RowsFit(s)
  }

  lemma StepSound(s: World, step: Step)
    requires Sound(s) && Enabled(s, step)
    ensures Sound(Apply(s, step))
  {
    OrderlyKept(s, step);
    ApartKept(s, step);
    RowsFitKept(s, step);
  }

  lemma {:induction false} RunSoundFrom(before: World, steps: seq<Step>, after: World)
    requires Sound(before) && Reaches(before, steps, after)
    ensures Sound(after)
    decreases |steps|
  {
    if steps != [] {
      StepSound(before, steps[0]);
      RunSoundFrom(Apply(before, steps[0]), steps[1..], after);
    }
  }

  /** Main result: in every interleaving of submitters and workers, whatever raises, there are two workers once the
      pool has started and none before, at most a hundred jobs wait, each accepted job is taken once and in order of
      acceptance, and the two workers carry different jobs. */
  lemma RunSound(steps: seq<Step>, s: World)
    requires Reaches(START, steps, s)
    ensures |s.workers| == (if s.started then 2 else 0) && |s.queue| <= 100
    ensures s.accepted == s.taken + s.queue && Distinct(s.accepted)
    ensures Apart(s) && RowsFit(s)
  {
    RunSoundFrom(START, steps, s);
  }

  // ---------------------------------------------------------------- status changes

  predicate Terminal(status: Status) {
    status == Done || status == Failed
  }

  /** The ways a row's status may change: queued, running, then done or failed; or queued to failed. */
  predicate Forward(a: Status, b: Status) {
    a == b || (a == Queued && b == Running) || (a == Running && Terminal(b)) || (a == Queued && b == Failed)
  }

  /** The one step that goes back on a finished job: marking failed what was already marked done. */
  predicate Reverts(s: World, step: Step) {
    step.MarkFailed? && step.w < |s.workers| && s.workers[step.w].Failing? && s.workers[step.w].afterDone
  }

  /** Every other step moves every row forward, and a finished job's status is changed by that step alone. */
  lemma StatusForward(s: World, step: Step)
    requires Sound(s) && Enabled(s, step)
    ensures var t := Apply(s, step);
            && |s.rows| <= |t.rows|
            && ((forall j :: 0 <= j < |s.rows| ==> Forward(s.rows[j], t.rows[j])) <==> !Reverts(s, step))
            && ((exists j :: 0 <= j < |s.rows| && Terminal(s.rows[j]) && t.rows[j] != s.rows[j]) <==> Reverts(s, step))
  {
  }

  /** A call made for a job already marked done raises. */
  predicate RaisesAfterDone(s: World, step: Step) {
    step.Error? && step.w < |s.workers| && s.workers[step.w].MarkedDone?
  }

  /** Marking an unfinished job failed raises too. */
  predicate Strands(s: World, step: Step) {
    step.LoseFailure? && step.w < |s.workers| && s.workers[step.w].Failing? && !s.workers[step.w].afterDone
  }

  /** A run without certain steps. */
  ghost predicate RunAvoiding(before: World, steps: seq<Step>, after: World, bad: (World, Step) -> bool)
    decreases |steps|
  {
    if steps == [] then before == after
    else
      && Enabled(before, steps[0]) && !bad(before, steps[0])
      && RunAvoiding(Apply(before, steps[0]), steps[1..], after, bad)
  }

  ghost predicate NoneAfterDone(s: World) {
    forall w :: 0 <= w < |s.workers| && s.workers[w].Failing? ==> !s.workers[w].afterDone
  }

  /** Main result: where no call raises for a job marked done, a finished job keeps its status for ever. */
  lemma {:induction false} TerminalAbsorbing(before: World, steps: seq<Step>, after: World, j: nat)
    requires Sound(before) && NoneAfterDone(before) && RunAvoiding(before, steps, after, RaisesAfterDone)
             && j < |before.rows|
    ensures Sound(after) && NoneAfterDone(after) && j < |after.rows|
    ensures Terminal(before.rows[j]) ==> after.rows[j] == before.rows[j]
    decreases |steps|
  {
    if steps != [] {
      StepSound(before, steps[0]);
      StatusForward(before, steps[0]);
      TerminalAbsorbing(Apply(before, steps[0]), steps[1..], after, j);
    }
  }

  // ---------------------------------------------------------------- who carries a running row

  /** The row of a job is running, or still queued although a worker took it. */
  predicate Unfinished(s: World, j: nat) {
    j < |s.rows| && (s.rows[j] == Running || (s.rows[j] == Queued && j in s.taken))
  }

  /** Every unfinished job is being carried. */
  ghost predicate Settled(s: World) {
    forall j: nat :: Unfinished(s, j) ==> Carried(s, j)
  }

  lemma UnfinishedEarlier(s: World, step: Step, j: nat)
    requires Sound(s) && Enabled(s, step) && Unfinished(Apply(s, step), j)
    ensures Unfinished(s, j) || (step.Take? && j == s.queue[0])
  {
    TakenInserted(s);
    forall w | 0 <= w < |s.workers| && !s.workers[w].Idle? { CarriedAccepted(s, w); }
    hide Orderly, Apart, RequestsFit;
  }

  lemma CarriedFurther(s: World, step: Step, w: nat)
    requires Sound(s) && Enabled(s, step) && !Strands(s, step) && w < |s.workers| && !s.workers[w].Idle?
    ensures var t := Apply(s, step);
            && w < |t.workers|
            && (t.workers[w].Idle? ==> s.workers[w].job < |t.rows| && Terminal(t.rows[s.workers[w].job]))
            && (!t.workers[w].Idle? ==> t.workers[w].job == s.workers[w].job)
  {
  }

  lemma StrandedNow(s: World, step: Step)
    requires Sound(s) && Enabled(s, step) && Strands(s, step)
    ensures var j := s.workers[step.w].job; Unfinished(Apply(s, step), j) && !Carried(Apply(s, step), j)
  {
    CarriedAccepted(s, step.w);
  }

  /** Exactly the steps that lose the failure of an unfinished job leave it without a worker. */
  lemma SettledExactly(s: World, step: Step)
    requires Sound(s) && Settled(s) && Enabled(s, step)
    ensures Settled(Apply(s, step)) <==> !Strands(s, step)
  {
    var t := Apply(s, step);
    hide Sound;
    if Strands(s, step) {
      StrandedNow(s, step);
    } else {
      forall j: nat | Unfinished(t, j) ensures Carried(t, j) {
        UnfinishedEarlier(s, step, j);
        if Unfinished(s, j) {
          var w :| 0 <= w < |s.workers| && !s.workers[w].Idle? && s.workers[w].job == j;
          CarriedFurther(s, step, w);
        } else {
          assert t.workers[step.w] == Taken(s.queue[0]);
        }
      }
    }
  }

  /** No row but these two is running. */
  ghost predicate RunningAmong(s: World, a: nat, b: nat) {
    forall j: nat :: j < |s.rows| && s.rows[j] == Running ==> j == a || j == b
  }

  lemma TwoWorkersTwoRows(s: World)
    requires Sound(s) && Settled(s)
    ensures exists a: nat, b: nat :: RunningAmong(s, a, b)
  {
    var a := if s.started && !s.workers[0].Idle? then s.workers[0].job else 0;
    var b := if s.started && !s.workers[1].Idle? then s.workers[1].job else 0;
    forall j: nat | j < |s.rows| && s.rows[j] == Running ensures j == a || j == b {
      assert Unfinished(s, j);
      var w :| 0 <= w < |s.workers| && !s.workers[w].Idle? && s.workers[w].job == j;
    }
    assert RunningAmong(s, a, b);
  }

  lemma {:induction false} RunSettled(before: World, steps: seq<Step>, after: World)
    requires Sound(before) && Settled(before) && RunAvoiding(before, steps, after, Strands)
    ensures Sound(after) && Settled(after)
    decreases |steps|
  {
    if steps != [] {
      StepSound(before, steps[0]);
      SettledExactly(before, steps[0]);
      RunSettled(Apply(before, steps[0]), steps[1..], after);
    }
  }

  /** Main result: in every run in which no failure of an unfinished job is lost at most two rows are running, and each
      of them is carried by a worker. */
  lemma AtMostTwoRunning(steps: seq<Step>, s: World)
    requires RunAvoiding(START, steps, s, Strands)
    ensures exists a: nat, b: nat :: RunningAmong(s, a, b)
    ensures forall j: nat :: j < |s.rows| && s.rows[j] == Running ==> Carried(s, j)
  {
    RunSettled(START, steps, s);
    TwoWorkersTwoRows(s);
    forall j: nat | j < |s.rows| && s.rows[j] == Running ensures Carried(s, j) {
      assert Unfinished(s, j);
    }
  }

  lemma StrandedStep(s: World, step: Step, j: nat)
    requires Sound(s) && Enabled(s, step) && j < |s.rows| && s.rows[j] == Running && !Carried(s, j)
    ensures var t := Apply(s, step); j < |t.rows| && t.rows[j] == Running && !Carried(t, j)
  {
    var t := Apply(s, step);
    assert RequestFits(s.subs[j], j in s.taken, s.rows[j]);
    assert j in s.taken;
    if step.Take? { HeadUntaken(s); }
    hide Orderly, StagesFit;
  }

  /** A running row that no worker carries stays so, whatever happens afterwards. */
  lemma {:induction false} StrandedForever(before: World, steps: seq<Step>, after: World, j: nat)
    requires Sound(before) && Reaches(before, steps, after)
    requires j < |before.rows| && before.rows[j] == Running && !Carried(before, j)
    ensures j < |after.rows| && after.rows[j] == Running && !Carried(after, j)
    decreases |steps|
  {
    if steps != [] {
      StepSound(before, steps[0]);
      StrandedStep(before, steps[0], j);
      StrandedForever(Apply(before, steps[0]), steps[1..], after, j);
    }
  }

  lemma NoSteps(s: World)
    ensures Reaches(s, [], s)
  {
  }

  lemma OneStepMore(before: World, steps: seq<Step>, middle: World, step: Step)
    requires Reaches(before, steps, middle) && Enabled(middle, step)
    ensures Reaches(before, steps + [step], Apply(middle, step))
    decreases |steps|
  {
    if steps == [] {
      assert [step][1..] == [];
    } else {
      assert (steps + [step])[1..] == steps[1..] + [step];
      OneStepMore(Apply(before, steps[0]), steps[1..], middle, step);
    }
  }

  /** Such a row exists: the builder raises, and marking the job failed raises too. */
  lemma FailureLost() returns (s: World)
    ensures Reaches(START, [Insert, Submit(0), Take(0), MarkRunning(0), Error(0), LoseFailure(0)], s)
    ensures s.rows == [Running] && !Carried(s, 0)
  {
    hide Reaches;
    NoSteps(START);
    OneStepMore(START, [], START, Insert);
    var a := Apply(START, Insert);
    OneStepMore(START, [] + [Insert], a, Submit(0));
    var b := Apply(a, Submit(0));
    assert b.workers == [Idle, Idle];
    OneStepMore(START, [] + [Insert] + [Submit(0)], b, Take(0));
    var c := Apply(b, Take(0));
    OneStepMore(START, [] + [Insert] + [Submit(0)] + [Take(0)], c, MarkRunning(0));
    var d := Apply(c, MarkRunning(0));
    OneStepMore(START, [] + [Insert] + [Submit(0)] + [Take(0)] + [MarkRunning(0)], d, Error(0));
    var e := Apply(d, Error(0));
    OneStepMore(START, [] + [Insert] + [Submit(0)] + [Take(0)] + [MarkRunning(0)] + [Error(0)], e, LoseFailure(0));
    s := Apply(e, LoseFailure(0));
    assert s.workers == [Idle, Idle];
    assert [] + [Insert] + [Submit(0)] + [Take(0)] + [MarkRunning(0)] + [Error(0)] + [LoseFailure(0)]
           == [Insert, Submit(0), Take(0), MarkRunning(0), Error(0), LoseFailure(0)];
  }

  /** The status of a job does go back when the notification after it was marked done raises. */
  lemma DoneThenFailed() returns (done: World, s: World)
    ensures Reaches(START, [Insert, Submit(0), Take(0), MarkRunning(0), MarkDone(0)], done) && done.rows == [Done]
    ensures Reaches(done, [Error(0), MarkFailed(0)], s) && s.rows == [Failed]
  {
    hide Reaches;
    NoSteps(START);
    OneStepMore(START, [], START, Insert);
    var a := Apply(START, Insert);
    OneStepMore(START, [] + [Insert], a, Submit(0));
    var b := Apply(a, Submit(0));
    assert b.workers == [Idle, Idle];
    OneStepMore(START, [] + [Insert] + [Submit(0)], b, Take(0));
    var c := Apply(b, Take(0));
    OneStepMore(START, [] + [Insert] + [Submit(0)] + [Take(0)], c, MarkRunning(0));
    var d := Apply(c, MarkRunning(0));
    OneStepMore(START, [] + [Insert] + [Submit(0)] + [Take(0)] + [MarkRunning(0)], d, MarkDone(0));
    done := Apply(d, MarkDone(0));
    assert [] + [Insert] + [Submit(0)] + [Take(0)] + [MarkRunning(0)] + [MarkDone(0)]
           == [Insert, Submit(0), Take(0), MarkRunning(0), MarkDone(0)];
    NoSteps(done);
    OneStepMore(done, [], done, Error(0));
    var e := Apply(done, Error(0));
    OneStepMore(done, [] + [Error(0)], e, MarkFailed(0));
    s := Apply(e, MarkFailed(0));
    assert [] + [Error(0)] + [MarkFailed(0)] == [Error(0), MarkFailed(0)];
  }

  // ---------------------------------------------------------------- the pool

  function LastSteps(w: nat, raises: bool): seq<Step> {
    if raises then [Step.Error(w), MarkFailed(w), Finish(w)] else [MarkDone(w), Finish(w)]
  }

  /** The pool's fields, with the rows and requests of the jobs. */
  class ExportJobWorkerPool {
    var rows: seq<Status>
    var subs: seq<Submission>
    var started: bool
    var workers: seq<Worker>
    var queue: seq<nat>
    ghost var accepted: seq<nat>
    ghost var taken: seq<nat>

    ghost function View(): World
      reads this
    {
      World(rows, subs, started, workers, queue, accepted, taken)
    }

    constructor ()
      ensures View() == START
    {
      rows, subs, started, workers, queue := [], [], false, [], [];
      accepted, taken := [], [];
    }

    method InsertJob() returns (job: nat)
      modifies this`rows, this`subs
      requires |rows| == |subs|
      ensures View() == Apply(old(View()), Insert)
      ensures job == old(|rows|) && rows[job] == Queued
    {
      job := |rows|;
      rows := rows + [Queued];
      subs := subs + [Inserted];
    }

    method EnsureStarted()
      modifies this`started, this`workers
      ensures View() == Begun(old(View()))
    {
      if started { return; }
      var created: seq<Worker> := [];
      for i := 0 to MAX_CONCURRENT
        invariant created == seq(i, _ => Idle)
        invariant workers == old(workers) + created && started == old(started)
      {
        created := created + [Idle];
        workers := workers + [Idle];
      }
      started := true;
    }

    /** Offers a job to the queue; a full queue refuses it. */
    method SubmitJob(job: nat) returns (ok: bool)
      requires Enabled(View(), Submit(job))
      modifies this
      ensures View() == Apply(old(View()), Submit(job))
      ensures ok <==> |old(queue)| < 100
      ensures started && queue == (if ok then old(queue) + [job] else old(queue)) && rows == old(rows)
      ensures !old(started) ==> |workers| == |old(workers)| + 2
    {
      EnsureStarted();
      if |queue| >= MAX_QUEUE_SIZE {
        subs := subs[job := Refused];
        return false;
      }
      queue := queue + [job];
      subs := subs[job := Accepted];
      accepted := accepted + [job];
      return true;
    }

    /** A worker's turn at the queue. */
    method TakeJob(w: nat) returns (job: nat)
      requires Enabled(View(), Take(w))
      modifies this`workers, this`queue, this`taken
      ensures View() == Apply(old(View()), Take(w)) && job == old(queue[0])
    {
      job := queue[0];
      queue := queue[1..];
      workers := workers[w := Taken(job)];
      taken := taken + [job];
    }

    /** One write of a worker to its job's row. */
    method UpdateJob(w: nat, status: Status, stage: Worker, ghost step: Step)
      requires Enabled(View(), step) && w < |workers| && !workers[w].Idle? && workers[w].job < |rows|
      requires Apply(View(), step) == At(View(), w, stage, status)
      modifies this`rows, this`workers
      ensures View() == Apply(old(View()), step)
    {
      rows := rows[workers[w].job := status];
      workers := workers[w := stage];
    }

    /** The builder's progress reports. */
    method BuildFile(w: nat, job: nat, reports: nat, ghost start: World, ghost before: seq<Step>)
      requires w < |workers| && workers[w] == Exporting(job) && job < |rows| && rows[job] == Running
      requires Reaches(start, before, View())
      modifies this`rows, this`workers
      ensures Reaches(start, before + seq(reports, _ => Progress(w)), View())
      ensures rows == old(rows) && workers == old(workers)
    {
      hide Reaches;
      ghost var steps := before;
      for i := 0 to reports
        invariant rows == old(rows) && workers == old(workers)
        invariant steps == before + seq(i, _ => Progress(w)) && Reaches(start, steps, View())
      {
        OneStepMore(start, steps, View(), Progress(w));
        UpdateJob(w, Running, Exporting(job), Progress(w));
        steps := steps + [Progress(w)];
      }
    }

    /** Marks the job done or failed and waits again. */
    method Conclude(w: nat, job: nat, raises: bool, ghost start: World, ghost before: seq<Step>)
      requires w < |workers| && workers[w] == Exporting(job) && job < |rows|
      requires Reaches(start, before, View())
      modifies this`rows, this`workers
      ensures Reaches(start, before + LastSteps(w, raises), View())
      ensures rows == old(rows)[job := if raises then Failed else Done]
    {
      hide Reaches;
      ghost var steps := before;
      if raises {
        OneStepMore(start, steps, View(), Step.Error(w));
        workers := workers[w := Failing(job, false)];
        steps := steps + [Step.Error(w)];
        OneStepMore(start, steps, View(), MarkFailed(w));
        UpdateJob(w, Failed, MarkedFailed(job), MarkFailed(w));
        steps := steps + [MarkFailed(w)];
      } else {
        OneStepMore(start, steps, View(), MarkDone(w));
        UpdateJob(w, Done, MarkedDone(job), MarkDone(w));
        steps := steps + [MarkDone(w)];
      }
      OneStepMore(start, steps, View(), Finish(w));
      workers := workers[w := Idle];
      assert steps + [Finish(w)] == before + LastSteps(w, raises);
    }

    /** Carries a taken job to its end: running, progress reports, then done, or failed when building or uploading
        the file raises. */
    method ExecuteExport(w: nat, reports: nat, raises: bool)
      requires Sound(View()) && w < |workers| && workers[w].Taken?
      modifies this`rows, this`workers
      ensures Reaches(old(View()), [MarkRunning(w)] + seq(reports, _ => Progress(w)) + LastSteps(w, raises), View())
      ensures rows == old(rows)[old(workers[w].job) := if raises then Failed else Done]
    {
      ghost var start := View();
      var job := workers[w].job;
      hide Sound, Reaches;
      NoSteps(start);
      OneStepMore(start, [], start, MarkRunning(w));
      UpdateJob(w, Running, Exporting(job), MarkRunning(w));
      assert [] + [MarkRunning(w)] == [MarkRunning(w)];
      BuildFile(w, job, reports, start, [MarkRunning(w)]);
      Conclude(w, job, raises, start, [MarkRunning(w)] + seq(reports, _ => Progress(w)));
    }
  }
}
