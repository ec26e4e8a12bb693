/** The claim protocol of scheduled runs: claim a run key, execute, release, forget.

    Every step below is one stretch of the event loop between two suspension points.  The claim guard is an
    asyncio lock that no holder keeps across an await, so taking it never suspends: checking the key, claiming it,
    creating the task and registering it happen in one step. */
module RunClaim {
  import opened Wrappers
  import opened Text

  /** A run task: created, executing, ended with its done-callback still to come, or forgotten. */
  datatype Phase = Created | Executing | Ended | Forgotten

  datatype Task = Task(key: string, phase: Phase)

  /** What became of one call that asked for a run of a known job. */
  datatype Spawn =
    | Started(key: string, task: nat)
    | RowPending(key: string)
    | RowWritten(key: string)

  /** A tenant stop that waits for the task it cancelled. */
  datatype Cancel = Waiting(key: string, task: nat) | Finished

  datatype World = World(runningKeys: set<string>, runTasks: map<string, nat>, tasks: seq<Task>,
                         spawns: seq<Spawn>, cancels: seq<Cancel>)

  datatype Step =
    | SpawnRun(code: string, tenantId: Option<nat>)  // a trigger or a scheduled dispatch
    | WriteSkipped(spawn: nat)                       // the skipped row of a refused call is inserted
    | Begin(task: nat)                               // the event loop starts the task's body
    | Release(task: nat)                             // the body is over, by any way out: the key is discarded
    | OnDone(task: nat)                              // the done-callback
    | CancelBegin(code: string, tenantId: Option<nat>)
    | Abort(task: nat)                               // a task cancelled before its body began ends without the body
    | CancelFinish(cancel: nat)                      // the stop resumes and discards the key itself

  function RunKey(code: string, tenantId: Option<nat>): string {
    code + ":" + Print(if tenantId.Some? then tenantId.value else 0)
  }

  predicate Live(t: Task) {
    t.phase == Created || t.phase == Executing
  }

  predicate LiveAt(w: World, id: nat) {
    id < |w.tasks| && Live(w.tasks[id])
  }

  /** The task registered under a key, if it is still live. */
  predicate RegisteredLive(w: World, key: string) {
    key in w.runTasks && LiveAt(w, w.runTasks[key])
  }

  predicate CancelRequested(w: World, id: nat) {
    exists c :: 0 <= c < |w.cancels| && w.cancels[c].Waiting? && w.cancels[c].task == id
  }

  predicate Enabled(w: World, step: Step) {
    match step
    case SpawnRun(_, _) => true
    case WriteSkipped(i) => i < |w.spawns| && w.spawns[i].RowPending?
    case Begin(id) => id < |w.tasks| && w.tasks[id].phase == Created && !CancelRequested(w, id)
    case Release(id) => id < |w.tasks| && w.tasks[id].phase == Executing
    case OnDone(id) => id < |w.tasks| && w.tasks[id].phase == Ended
    case CancelBegin(_, _) => true
    case Abort(id) => id < |w.tasks| && w.tasks[id].phase == Created && CancelRequested(w, id)
    case CancelFinish(c) => c < |w.cancels| && w.cancels[c].Waiting? && !LiveAt(w, w.cancels[c].task)
  }

  function Apply(known: set<string>, w: World, step: Step): World
    requires Enabled(w, step)
  {
    match step
    case SpawnRun(code, tenantId) =>
      var key := RunKey(code, tenantId);
      if code !in known then w
      else if key in w.runningKeys then w.(spawns := w.spawns + [RowPending(key)])
      else w.(runningKeys := w.runningKeys + {key}, runTasks := w.runTasks[key := |w.tasks|],
              tasks := w.tasks + [Task(key, Created)], spawns := w.spawns + [Started(key, |w.tasks|)])
    case WriteSkipped(i) => w.(spawns := w.spawns[i := RowWritten(w.spawns[i].key)])
    case Begin(id) => w.(tasks := w.tasks[id := Task(w.tasks[id].key, Executing)])
    case Release(id) =>
      var key := w.tasks[id].key;
      w.(runningKeys := w.runningKeys - {key}, tasks := w.tasks[id := Task(key, Ended)])
    case OnDone(id) =>
      var key := w.tasks[id].key;
      w.(runTasks := w.runTasks - {key}, tasks := w.tasks[id := Task(key, Forgotten)])
    case CancelBegin(code, tenantId) =>
      var key := RunKey(code, tenantId);
      if RegisteredLive(w, key) then w.(cancels := w.cancels + [Waiting(key, w.runTasks[key])])
      else w.(runningKeys := w.runningKeys - {key})
    case Abort(id) => w.(tasks := w.tasks[id := Task(w.tasks[id].key, Ended)])
    case CancelFinish(c) =>
      w.(runningKeys := w.runningKeys - {w.cancels[c].key}, cancels := w.cancels[c := Finished])
  }

  const START := World({}, map[], [], [], [])

  /** A run of the system: each step is enabled where it is taken. */
  ghost predicate ReachedBy(known: set<string>, before: World, steps: seq<Step>, after: World)
    decreases |steps|
  {
    if steps == [] then before == after
    else Enabled(before, steps[0]) && ReachedBy(known, Apply(known, before, steps[0]), steps[1..], after)
  }

  // ---------------------------------------------------------------- what holds

  /** At most one live execution for each key. */
  ghost predicate Exclusive(w: World) {
    forall i, j :: 0 <= i < j < |w.tasks| && Live(w.tasks[i]) && Live(w.tasks[j]) ==> w.tasks[i].key != w.tasks[j].key
  }

  /** Live executions hold their key. */
  ghost predicate Claimed(w: World) {
    forall i :: 0 <= i < |w.tasks| && Live(w.tasks[i]) ==> w.tasks[i].key in w.runningKeys
  }

  ghost predicate SomeLive(w: World, key: string) {
    exists i :: 0 <= i < |w.tasks| && Live(w.tasks[i]) && w.tasks[i].key == key
  }

  /** No key is held without a live execution. */
  ghost predicate NoStaleKey(w: World) {
    forall key :: key in w.runningKeys ==> SomeLive(w, key)
  }

  /** Some call started the task. */
  ghost predicate StartedFor(w: World, id: nat) {
    exists i :: 0 <= i < |w.spawns| && w.spawns[i].Started? && w.spawns[i].task == id
  }

  /** Started calls and tasks correspond one to one; every other call has or awaits a skipped row. */
  ghost predicate Accounted(w: World) {
    && (forall i :: 0 <= i < |w.spawns| && w.spawns[i].Started? ==>
                      w.spawns[i].task < |w.tasks| && w.tasks[w.spawns[i].task].key == w.spawns[i].key)
    && (forall i, j :: 0 <= i < j < |w.spawns| && w.spawns[i].Started? && w.spawns[j].Started? ==>
                         w.spawns[i].task != w.spawns[j].task)
    && (forall id :: 0 <= id < |w.tasks| ==> StartedFor(w, id))
  }

  /** Registered tasks carry the key they are registered under. */
  ghost predicate Registry(w: World) {
    forall key :: key in w.runTasks ==> w.runTasks[key] < |w.tasks| && w.tasks[w.runTasks[key]].key == key
  }

  /** The safety of the protocol. */
  ghost predicate Safe(w: World) {
    Exclusive(w) && Claimed(w) && Accounted(w) && Registry(w)
  }

  predicate IsStop(step: Step) {
    step.CancelBegin? || step.Abort? || step.CancelFinish?
  }

  /** The key whose mark a stop step discards, if it discards one. */
  function Discards(w: World, step: Step): Option<string>
    requires Enabled(w, step)
  {
    match step
    case CancelBegin(code, tenantId) =>
      if RegisteredLive(w, RunKey(code, tenantId)) then None else Some(RunKey(code, tenantId))
    case CancelFinish(c) => Some(w.cancels[c].key)
    case _ => None
  }

  // ---------------------------------------------------------------- one step

  /** The correspondence survives as long as no task changes its key and no call starts an execution. */
  lemma AccountedSame(w: World, v: World)
    requires Accounted(w) && |v.tasks| == |w.tasks| && |w.spawns| <= |v.spawns|
    requires forall id :: 0 <= id < |w.tasks| ==> v.tasks[id].key == w.tasks[id].key
    requires forall i :: 0 <= i < |v.spawns| ==>
                           if i < |w.spawns| && w.spawns[i].Started? then v.spawns[i] == w.spawns[i]
                           else !v.spawns[i].Started?
    ensures Accounted(v)
  {
    forall id | 0 <= id < |v.tasks| ensures StartedFor(v, id) {
      assert StartedFor(w, id);
      var i :| 0 <= i < |w.spawns| && w.spawns[i].Started? && w.spawns[i].task == id;
      assert v.spawns[i] == w.spawns[i];
    }
  }

  lemma AccountedOneMore(w: World, key: string, v: World)
    requires Accounted(w) && v.tasks == w.tasks + [Task(key, Created)]
             && v.spawns == w.spawns + [Started(key, |w.tasks|)]
    ensures Accounted(v)
  {
    forall id | 0 <= id < |v.tasks| ensures StartedFor(v, id) {
      if id < |w.tasks| {
        assert StartedFor(w, id);
        var i :| 0 <= i < |w.spawns| && w.spawns[i].Started? && w.spawns[i].task == id;
        assert v.spawns[i] == w.spawns[i];
      } else {
        assert v.spawns[|w.spawns|] == Started(key, id);
      }
    }
  }

  lemma SpawnAccounted(known: set<string>, w: World, step: Step)
    requires Accounted(w) && Enabled(w, step)
    ensures Accounted(Apply(known, w, step))
  {
    hide RunKey, RegisteredLive, CancelRequested, LiveAt, Accounted;
    var v := Apply(known, w, step);
    if |v.tasks| > |w.tasks| {
      AccountedOneMore(w, RunKey(step.code, step.tenantId), v);
    } else {
      AccountedSame(w, v);
    }
  }

  lemma RegistryKept(known: set<string>, w: World, step: Step)
    requires Registry(w) && Enabled(w, step)
    ensures Registry(Apply(known, w, step))
  {
  }

  lemma DiscardUnsafe(known: set<string>, w: World, step: Step)
    requires Enabled(w, step) && Discards(w, step).Some? && SomeLive(w, Discards(w, step).value)
    ensures !Claimed(Apply(known, w, step))
  {
  }

  lemma StepExclusive(known: set<string>, w: World, step: Step)
    requires Exclusive(w) && Claimed(w) && Enabled(w, step)
    requires Discards(w, step).None? || !SomeLive(w, Discards(w, step).value)
    ensures Exclusive(Apply(known, w, step)) && Claimed(Apply(known, w, step))
  {
    hide RunKey, RegisteredLive, CancelRequested, LiveAt;
  }

  /** Every step keeps the protocol safe, except one that discards the key of a live execution. */
  lemma StepSafe(known: set<string>, w: World, step: Step)
    requires Safe(w) && Enabled(w, step)
    ensures Safe(Apply(known, w, step)) <==> Discards(w, step).None? || !SomeLive(w, Discards(w, step).value)
  {
    SpawnAccounted(known, w, step);
    RegistryKept(known, w, step);
    hide Apply, Enabled, Discards, SomeLive, Accounted, Registry, Exclusive, Claimed;
    if Discards(w, step).Some? && SomeLive(w, Discards(w, step).value) {
      DiscardUnsafe(known, w, step);
    } else {
      StepExclusive(known, w, step);
    }
  }

  /** The traffic of keys: a step claims the key of a known call, and gives up the one of a body that ends or the one a
      stop discards; no other step touches a key.  A call is noted under its own key, and a skipped row is written for
      the call it belongs to. */
  lemma KeyTraffic(known: set<string>, w: World, step: Step)
    requires Enabled(w, step)
    ensures var v := Apply(known, w, step);
            && (forall k :: k in v.runningKeys <==>
                  || (step.SpawnRun? && step.code in known && k == RunKey(step.code, step.tenantId))
                  || (k in w.runningKeys && !(step.Release? && w.tasks[step.task].key == k)
                      && Discards(w, step) != Some(k)))
            && (step.SpawnRun? && step.code in known ==>
                  && |v.spawns| == |w.spawns| + 1 && v.spawns[|w.spawns|].key == RunKey(step.code, step.tenantId)
                  && (v.spawns[|w.spawns|].Started? <==> RunKey(step.code, step.tenantId) !in w.runningKeys))
            && forall i :: 0 <= i < |w.spawns| ==>
                 v.spawns[i] == if step == WriteSkipped(i) then RowWritten(w.spawns[i].key) else w.spawns[i]
  {
    hide RunKey, LiveAt, CancelRequested;
  }

  lemma StepNoStale(known: set<string>, w: World, step: Step)
    requires Safe(w) && NoStaleKey(w) && Enabled(w, step) && !IsStop(step)
    ensures NoStaleKey(Apply(known, w, step))
  {
    hide RunKey, RegisteredLive, CancelRequested, LiveAt, Accounted, Registry;
    var v := Apply(known, w, step);
    forall key | key in v.runningKeys ensures SomeLive(v, key) {
      if key in w.runningKeys {
        var i :| 0 <= i < |w.tasks| && Live(w.tasks[i]) && w.tasks[i].key == key;
        assert Live(v.tasks[i]) && v.tasks[i].key == key;
      } else {
        assert Live(v.tasks[|w.tasks|]) && v.tasks[|w.tasks|].key == key;
      }
    }
  }

  // ---------------------------------------------------------------- whole runs

  lemma {:induction false} RunKeepsExact(known: set<string>, before: World, steps: seq<Step>, after: World)
    requires Safe(before) && NoStaleKey(before) && ReachedBy(known, before, steps, after)
    requires forall i :: 0 <= i < |steps| ==> !IsStop(steps[i])
    ensures Safe(after) && NoStaleKey(after)
    decreases |steps|
  {
    if steps != [] {
      StepSafe(known, before, steps[0]);
      StepNoStale(known, before, steps[0]);
      RunKeepsExact(known, Apply(known, before, steps[0]), steps[1..], after);
    }
  }

  /** Main result: in every interleaving without tenant stops each key has at most one live execution, a key is
      held exactly while one is live, and every call is one execution or one skipped row. */
  lemma RunIsExact(known: set<string>, steps: seq<Step>, w: World)
    requires ReachedBy(known, START, steps, w) && forall i :: 0 <= i < |steps| ==> !IsStop(steps[i])
    ensures Exclusive(w) && Accounted(w)
    ensures forall key :: key in w.runningKeys <==> SomeLive(w, key)
  {
    RunKeepsExact(known, START, steps, w);
  }

  /** The calls that started an execution. */
  function StartedCount(spawns: seq<Spawn>): nat {
    if spawns == [] then 0
    else StartedCount(spawns[..|spawns| - 1]) + if spawns[|spawns| - 1].Started? then 1 else 0
  }

  function KnownCalls(known: set<string>, steps: seq<Step>): nat {
    if steps == [] then 0
    else KnownCalls(known, steps[1..]) + if steps[0].SpawnRun? && steps[0].code in known then 1 else 0
  }

  lemma StartedCountUpdate(spawns: seq<Spawn>, i: nat, s: Spawn)
    requires i < |spawns| && spawns[i].Started? == s.Started?
    ensures StartedCount(spawns[i := s]) == StartedCount(spawns)
  {
    var updated := spawns[i := s];
    if i < |spawns| - 1 {
      StartedCountUpdate(spawns[..|spawns| - 1], i, s);
      assert updated[..|spawns| - 1] == spawns[..|spawns| - 1][i := s];
    } else {
      assert updated[..|spawns| - 1] == spawns[..|spawns| - 1];
    }
  }

  lemma StartedCountMore(spawns: seq<Spawn>, s: Spawn)
    ensures StartedCount(spawns + [s]) == StartedCount(spawns) + if s.Started? then 1 else 0
  {
    assert (spawns + [s])[..|spawns|] == spawns;
  }

  lemma StepConserves(known: set<string>, w: World, step: Step)
    requires Enabled(w, step) && |w.tasks| == StartedCount(w.spawns)
    ensures var v := Apply(known, w, step);
            && |v.tasks| == StartedCount(v.spawns)
            && |v.spawns| == |w.spawns| + if step.SpawnRun? && step.code in known then 1 else 0
  {
    hide RunKey, RegisteredLive, CancelRequested, LiveAt, StartedCount;
    if step.WriteSkipped? {
      StartedCountUpdate(w.spawns, step.spawn, RowWritten(w.spawns[step.spawn].key));
    } else if step.SpawnRun? {
      var key := RunKey(step.code, step.tenantId);
      StartedCountMore(w.spawns, RowPending(key));
      StartedCountMore(w.spawns, Started(key, |w.tasks|));
    }
  }

  /** Nothing is lost and nothing is run twice, in any run at all, stops included: the calls for known jobs are as
      many as the calls answered, and the executions are as many as the calls that started one. */
  lemma {:induction false} CallsConserved(known: set<string>, before: World, steps: seq<Step>, after: World)
    requires ReachedBy(known, before, steps, after) && |before.tasks| == StartedCount(before.spawns)
    ensures |after.spawns| == |before.spawns| + KnownCalls(known, steps)
    ensures |after.tasks| == StartedCount(after.spawns)
    decreases |steps|
  {
    if steps != [] {
      StepConserves(known, before, steps[0]);
      CallsConserved(known, Apply(known, before, steps[0]), steps[1..], after);
    }
  }

  // ---------------------------------------------------------------- run keys

  lemma LastColon(a: string, m: string, k: nat)
    requires ':' !in m && k < |a + ":" + m|
    ensures k >= |a| ==> ((a + ":" + m)[k] == ':' <==> k == |a|)
  {
  }

  lemma SameParts(a: string, m: string, b: string, n: string)
    requires a + ":" + m == b + ":" + n && ':' !in m && ':' !in n
    ensures a == b && m == n
  {
    var s := a + ":" + m;
    LastColon(a, m, |a|);
    LastColon(a, m, |b|);
    LastColon(b, n, |a|);
    LastColon(b, n, |b|);
    assert |a| == |b|;
    assert s[..|a|] == a && s[..|b|] == b && s[|a| + 1..] == m && s[|b| + 1..] == n;
  }

  /** Exclusion is per job and tenant; a run without a tenant shares its key with tenant zero only. */
  lemma KeysTellRunsApart(c: string, t: Option<nat>, d: string, u: Option<nat>)
    ensures RunKey(c, t) == RunKey(d, u) <==>
            c == d && (if t.Some? then t.value else 0) == (if u.Some? then u.value else 0)
  {
    var m := Print(if t.Some? then t.value else 0);
    var n := Print(if u.Some? then u.value else 0);
    assert ':' !in m && ':' !in n;
    if RunKey(c, t) == RunKey(d, u) {
      SameParts(c, m, d, n);
      assert Value(m) == Value(n);
    }
  }

  // ---------------------------------------------------------------- registration and tenant stops

  /** Every live execution is the one registered under its key. */
  ghost predicate AllRegistered(w: World) {
    forall i :: 0 <= i < |w.tasks| && Live(w.tasks[i]) ==>
                  w.tasks[i].key in w.runTasks && w.runTasks[w.tasks[i].key] == i
  }

  /** A done-callback removes whatever is registered under its key: it keeps live executions registered exactly when
      no later execution of the same key is live. */
  lemma CallbackKeepsRegistration(known: set<string>, w: World, id: nat)
    requires Safe(w) && AllRegistered(w) && Enabled(w, OnDone(id))
    ensures AllRegistered(Apply(known, w, OnDone(id))) <==> !SomeLive(w, w.tasks[id].key)
  {
    var v := Apply(known, w, OnDone(id));
    if SomeLive(w, w.tasks[id].key) {
      var i :| 0 <= i < |w.tasks| && Live(w.tasks[i]) && w.tasks[i].key == w.tasks[id].key;
      assert Live(v.tasks[i]) && v.tasks[i].key !in v.runTasks;
    }
  }

  /** The other steps keep live executions registered. */
  lemma OthersKeepRegistration(known: set<string>, w: World, step: Step)
    requires Safe(w) && AllRegistered(w) && Enabled(w, step) && !step.OnDone?
    ensures AllRegistered(Apply(known, w, step))
  {
  }

  /** The steps of a stop that meets nobody else: cancel, the task ends, the stop resumes. */
  function StopSteps(w: World, code: string, tenantId: Option<nat>): seq<Step> {
    var key := RunKey(code, tenantId);
    if RegisteredLive(w, key) then
      var id := w.runTasks[key];
      [CancelBegin(code, tenantId), if w.tasks[id].phase == Created then Abort(id) else Release(id),
       CancelFinish(|w.cancels|)]
    else [CancelBegin(code, tenantId)]
  }

  /** The effect of a stop that meets nobody else. */
  ghost predicate Stopped(w: World, key: string, v: World) {
    && Safe(v) && NoStaleKey(v)
    && v.runningKeys == w.runningKeys - {key}
    && !SomeLive(v, key)
    && |v.tasks| == |w.tasks|
    && forall i :: 0 <= i < |w.tasks| && w.tasks[i].key != key ==> v.tasks[i] == w.tasks[i]
  }

  lemma Chain3(known: set<string>, w0: World, w1: World, w2: World, w3: World, a: Step, b: Step, c: Step)
    requires Enabled(w0, a) && w1 == Apply(known, w0, a)
    requires Enabled(w1, b) && w2 == Apply(known, w1, b)
    requires Enabled(w2, c) && w3 == Apply(known, w2, c)
    ensures ReachedBy(known, w0, [a, b, c], w3)
  {
    hide Enabled, Apply;
    assert [a, b, c][1..] == [b, c] && [b, c][1..] == [c] && [c][1..] == [];
    assert ReachedBy(known, w2, [c], w3);
    assert ReachedBy(known, w1, [b, c], w3);
  }

  lemma SafeAfterEnd(w: World, key: string, id: nat, v: World)
    requires Safe(w) && NoStaleKey(w) && LiveAt(w, id) && w.tasks[id].key == key
    requires v.tasks == w.tasks[id := Task(key, Ended)] && v.runningKeys == w.runningKeys - {key}
    requires v.spawns == w.spawns && v.runTasks == w.runTasks
    ensures Stopped(w, key, v)
  {
    hide Accounted;
    AccountedSame(w, v);
    forall k | k in v.runningKeys ensures SomeLive(v, k) {
      var i :| 0 <= i < |w.tasks| && Live(w.tasks[i]) && w.tasks[i].key == k;
      assert Live(v.tasks[i]) && v.tasks[i].key == k;
    }
  }

  lemma QuietStopWithTask(known: set<string>, w: World, code: string, tenantId: Option<nat>) returns (v: World)
    requires Safe(w) && NoStaleKey(w) && AllRegistered(w) && RegisteredLive(w, RunKey(code, tenantId))
    ensures ReachedBy(known, w, StopSteps(w, code, tenantId), v)
    ensures Stopped(w, RunKey(code, tenantId), v)
  {
    var key := RunKey(code, tenantId);
    hide RunKey, SomeLive, NoStaleKey;
    var id := w.runTasks[key];
    var steps := StopSteps(w, code, tenantId);
    var a := Apply(known, w, steps[0]);
    assert CancelRequested(a, id) by { assert a.cancels[|w.cancels|] == Waiting(key, id); }
    var b := Apply(known, a, steps[1]);
    v := Apply(known, b, steps[2]);
    Chain3(known, w, a, b, v, steps[0], steps[1], steps[2]);
    SafeAfterEnd(w, key, id, v);
  }

  /** A tenant stop that meets nobody else is safe where live executions are registered: the key ends up free,
      every other execution is untouched, and no key is stale. */
  lemma QuietStop(known: set<string>, w: World, code: string, tenantId: Option<nat>) returns (v: World)
    requires Safe(w) && NoStaleKey(w) && AllRegistered(w)
    ensures ReachedBy(known, w, StopSteps(w, code, tenantId), v)
    ensures Stopped(w, RunKey(code, tenantId), v)
  {
    var key := RunKey(code, tenantId);
    hide RunKey;
    var steps := StopSteps(w, code, tenantId);
    if RegisteredLive(w, key) {
      v := QuietStopWithTask(known, w, code, tenantId);
    } else {
      assert !SomeLive(w, key);
      StepSafe(known, w, steps[0]);
      v := Apply(known, w, steps[0]);
      assert steps[1..] == [];
      forall k | k in v.runningKeys ensures SomeLive(v, k) { assert SomeLive(w, k); }
    }
  }

  /** Two executions of one key are live. */
  ghost predicate Overlap(w: World, key: string) {
    exists i, j :: 0 <= i < j < |w.tasks| && Live(w.tasks[i]) && Live(w.tasks[j])
      && w.tasks[i].key == w.tasks[j].key == key
  }

  lemma Chain7(known: set<string>, w0: World, w1: World, w2: World, w3: World, w4: World, w5: World, w6: World,
               w7: World,
               a: Step, b: Step, c: Step, d: Step, e: Step, f: Step, g: Step)
    requires Enabled(w0, a) && w1 == Apply(known, w0, a)
    requires Enabled(w1, b) && w2 == Apply(known, w1, b)
    requires Enabled(w2, c) && w3 == Apply(known, w2, c)
    requires Enabled(w3, d) && w4 == Apply(known, w3, d)
    requires Enabled(w4, e) && w5 == Apply(known, w4, e)
    requires Enabled(w5, f) && w6 == Apply(known, w5, f)
    requires Enabled(w6, g) && w7 == Apply(known, w6, g)
    ensures ReachedBy(known, w0, [a, b, c, d, e, f, g], w7)
  {
    Chain3(known, w4, w5, w6, w7, e, f, g);
    hide Enabled, Apply;
    assert [a, b, c, d, e, f, g][1..] == [b, c, d, e, f, g] && [b, c, d, e, f, g][1..] == [c, d, e, f, g];
    assert [c, d, e, f, g][1..] == [d, e, f, g] && [d, e, f, g][1..] == [e, f, g];
    assert ReachedBy(known, w3, [d, e, f, g], w7);
    assert ReachedBy(known, w2, [c, d, e, f, g], w7);
    assert ReachedBy(known, w1, [b, c, d, e, f, g], w7);
  }

  /** A stop that meets other calls can break exclusion, for every known job: a new run claims the key after the
      cancelled task released it and before the stop resumes, and the stop then frees the key of the new run. */
  lemma StopFreesTheNextRun(known: set<string>, code: string, tenantId: Option<nat>) returns (w: World)
    requires code in known
    ensures ReachedBy(known, START,
                      [SpawnRun(code, tenantId), Begin(0), CancelBegin(code, tenantId), Release(0),
                       SpawnRun(code, tenantId), CancelFinish(0), SpawnRun(code, tenantId)], w)
    ensures Overlap(w, RunKey(code, tenantId))
  {
    var key := RunKey(code, tenantId);
    hide RunKey;
    var spawn := SpawnRun(code, tenantId);
    var w1 := Apply(known, START, spawn);
    var w2 := Apply(known, w1, Begin(0));
    var w3 := Apply(known, w2, CancelBegin(code, tenantId));
    var w4 := Apply(known, w3, Release(0));
    var w5 := Apply(known, w4, spawn);
    var w6 := Apply(known, w5, CancelFinish(0));
    w := Apply(known, w6, spawn);
    assert w.tasks == [Task(key, Ended), Task(key, Created), Task(key, Created)];
    assert Live(w.tasks[1]) && Live(w.tasks[2]);
    Chain7(known, START, w1, w2, w3, w4, w5, w6, w, spawn, Begin(0), CancelBegin(code, tenantId), Release(0), spawn,
           CancelFinish(0), spawn);
  }

  /** The done-callback of an earlier run removes the registration of the next one; a stop then finds nothing to
      cancel and frees the key while that run is live. */
  lemma LateCallbackHidesTheNextRun(known: set<string>, code: string, tenantId: Option<nat>) returns (w: World)
    requires code in known
    ensures ReachedBy(known, START,
                      [SpawnRun(code, tenantId), Begin(0), Release(0), SpawnRun(code, tenantId), OnDone(0),
                       CancelBegin(code, tenantId), SpawnRun(code, tenantId)], w)
    ensures Overlap(w, RunKey(code, tenantId))
  {
    var key := RunKey(code, tenantId);
    hide RunKey;
    var spawn := SpawnRun(code, tenantId);
    var w1 := Apply(known, START, spawn);
    var w2 := Apply(known, w1, Begin(0));
    var w3 := Apply(known, w2, Release(0));
    var w4 := Apply(known, w3, spawn);
    var w5 := Apply(known, w4, OnDone(0));
    var w6 := Apply(known, w5, CancelBegin(code, tenantId));
    w := Apply(known, w6, spawn);
    assert w.tasks == [Task(key, Forgotten), Task(key, Created), Task(key, Created)];
    assert Live(w.tasks[1]) && Live(w.tasks[2]);
    Chain7(known, START, w1, w2, w3, w4, w5, w6, w, spawn, Begin(0), Release(0), spawn, OnDone(0),
           CancelBegin(code, tenantId), spawn);
  }

  // ---------------------------------------------------------------- the manager

  /** The manager's own fields, with the tasks it created and the calls it answered. */
  class ScheduledJobManager {
    const known: set<string>
    var runningKeys: set<string>
    var runTasks: map<string, nat>
    var tasks: seq<Task>
    var spawns: seq<Spawn>
    var cancels: seq<Cancel>

    ghost function View(): World
      reads this
    {
      World(runningKeys, runTasks, tasks, spawns, cancels)
    }

    constructor (known: set<string>)
      ensures this.known == known && View() == START
    {
      this.known := known;
      runningKeys, runTasks, tasks, spawns, cancels := {}, map[], [], [], [];
    }

    /** Claims the key and starts a task, or notes a call that will be recorded as skipped. */
    method SpawnRun(code: string, tenantId: Option<nat>) returns (started: bool)
      modifies this
      ensures View() == Apply(known, old(View()), Step.SpawnRun(code, tenantId))
      ensures started <==> code in known && RunKey(code, tenantId) !in old(runningKeys)
    {
      var key := RunKey(code, tenantId);
      if code !in known { return false; }
      var alreadyRunning := key in runningKeys;
      if !alreadyRunning { runningKeys := runningKeys + {key}; }
      if alreadyRunning {
        spawns := spawns + [RowPending(key)];
        return false;
      }
      var task := |tasks|;
      tasks := tasks + [Task(key, Created)];
      spawns := spawns + [Started(key, task)];
      runTasks := runTasks[key := task];
      return true;
    }

    /** The last stretch of a run's body. */
    method ReleaseClaim(task: nat)
      requires Enabled(View(), Release(task))
      modifies this`runningKeys, this`tasks
      ensures View() == Apply(known, old(View()), Release(task))
    {
      var key := tasks[task].key;
      runningKeys := runningKeys - {key};
      tasks := tasks[task := Task(key, Ended)];
    }

    method DoneCallback(task: nat)
      requires Enabled(View(), OnDone(task))
      modifies this`runTasks, this`tasks
      ensures View() == Apply(known, old(View()), OnDone(task))
    {
      var key := tasks[task].key;
      runTasks := runTasks - {key};
      tasks := tasks[task := Task(key, Forgotten)];
    }

    /** The first stretch of a tenant stop: cancels the registered task, or frees the key at once. */
    method CancelRun(code: string, tenantId: Option<nat>) returns (waiting: bool)
      modifies this`runningKeys, this`cancels
      ensures View() == Apply(known, old(View()), CancelBegin(code, tenantId))
      ensures waiting <==> RegisteredLive(old(View()), RunKey(code, tenantId))
    {
      var key := RunKey(code, tenantId);
      if key in runTasks {
        var task := runTasks[key];
        if task < |tasks| && Live(tasks[task]) {
          cancels := cancels + [Waiting(key, task)];
          return true;
        }
      }
      runningKeys := runningKeys - {key};
      return false;
    }

    method ResumeCancel(c: nat)
      requires Enabled(View(), CancelFinish(c))
      modifies this`runningKeys, this`cancels
      ensures View() == Apply(known, old(View()), CancelFinish(c))
    {
      runningKeys := runningKeys - {cancels[c].key};
      cancels := cancels[c := Finished];
    }
  }

  /** A step, taken by a dispatch itself or by anybody else in between. */
  datatype Event = Own(step: Step) | Other(step: Step)

  ghost function Steps(log: seq<Event>): seq<Step> {
    seq(|log|, i requires 0 <= i < |log| => log[i].step)
  }

  ghost function OwnSteps(log: seq<Event>): seq<Step> {
    if log == [] then []
    else
      var last := log[|log| - 1];
      OwnSteps(log[..|log| - 1]) + if last.Own? then [last.step] else []
  }

  lemma OneStepMore(known: set<string>, before: World, steps: seq<Step>, middle: World, step: Step)
    requires ReachedBy(known, before, steps, middle) && Enabled(middle, step)
    ensures ReachedBy(known, before, steps + [step], Apply(known, middle, step))
    decreases |steps|
  {
    if steps == [] {
      assert [step][1..] == [];
    } else {
      assert (steps + [step])[1..] == steps[1..] + [step];
      OneStepMore(known, Apply(known, before, steps[0]), steps[1..], middle, step);
    }
  }

  lemma OneEventMore(known: set<string>, before: World, log: seq<Event>, middle: World, event: Event)
    requires ReachedBy(known, before, Steps(log), middle) && Enabled(middle, event.step)
    ensures ReachedBy(known, before, Steps(log + [event]), Apply(known, middle, event.step))
    ensures OwnSteps(log + [event]) == OwnSteps(log) + if event.Own? then [event.step] else []
  {
    OneStepMore(known, before, Steps(log), middle, event.step);
    assert Steps(log + [event]) == Steps(log) + [event.step];
    assert (log + [event])[..|log|] == log;
  }

  /** A suspension point of a dispatch: any steps of others. */
  method Suspend(manager: ScheduledJobManager, ghost before: World, ghost log: seq<Event>)
    returns (ghost more: seq<Event>)
    requires ReachedBy(manager.known, before, Steps(log), manager.View())
    modifies manager
    ensures ReachedBy(manager.known, before, Steps(more), manager.View()) && OwnSteps(more) == OwnSteps(log)
  {
    var w := World(manager.runningKeys, manager.runTasks, manager.tasks, manager.spawns, manager.cancels);
    var offered: seq<Step> := *;
    more := log;
    for i := 0 to |offered|
      invariant ReachedBy(manager.known, before, Steps(more), w) && OwnSteps(more) == OwnSteps(log)
    {
      hide Enabled, Apply, Steps, OwnSteps;
      var step := offered[i];
      if Enabled(w, step) {
        OneEventMore(manager.known, before, more, w, Other(step));
        more := more + [Other(step)];
        w := Apply(manager.known, w, step);
      }
    }
    manager.runningKeys, manager.runTasks, manager.tasks := w.runningKeys, w.runTasks, w.tasks;
    manager.spawns, manager.cancels := w.spawns, w.cancels;
  }

  lemma SpawnNoted(known: set<string>, before: World, log: seq<Event>, middle: World, code: string,
                   tenantId: Option<nat>)
    returns (more: seq<Event>)
    requires ReachedBy(known, before, Steps(log), middle)
    ensures Enabled(middle, SpawnRun(code, tenantId))
    ensures ReachedBy(known, before, Steps(more), Apply(known, middle, SpawnRun(code, tenantId)))
    ensures OwnSteps(more) == OwnSteps(log) + [SpawnRun(code, tenantId)]
  {
    OneEventMore(known, before, log, middle, Own(SpawnRun(code, tenantId)));
    more := log + [Own(SpawnRun(code, tenantId))];
  }

  function TenantSteps(code: string, tenants: seq<nat>, scheduled: set<nat>): seq<Step> {
    if tenants == [] then []
    else
      var last := tenants[|tenants| - 1];
      TenantSteps(code, tenants[..|tenants| - 1], scheduled)
      + if last in scheduled then [SpawnRun(code, Some(last))] else []
  }

  function DispatchSteps(known: set<string>, code: string, systemScope: bool, tenants: seq<nat>,
                         scheduled: set<nat>): seq<Step>
  {
    if code !in known then []
    else if systemScope then [SpawnRun(code, None)]
    else TenantSteps(code, tenants, scheduled)
  }

  /** The places of a list at which the calls are made: those of the scheduled tenants, in order. */
  ghost predicate CalledAt(code: string, tenants: seq<nat>, scheduled: set<nat>, steps: seq<Step>, at: seq<nat>) {
    && |at| == |steps|
    && (forall i, j :: 0 <= i < j < |at| ==> at[i] < at[j])
    && (forall i :: 0 <= i < |at| ==> && at[i] < |tenants| && tenants[at[i]] in scheduled
                                      && steps[i] == SpawnRun(code, Some(tenants[at[i]])))
    && (forall k :: 0 <= k < |tenants| && tenants[k] in scheduled ==> k in at)
  }

  lemma CalledFurther(code: string, tenants: seq<nat>, scheduled: set<nat>, steps: seq<Step>, at: seq<nat>, t: nat)
    requires CalledAt(code, tenants, scheduled, steps, at)
    ensures t in scheduled ==>
              CalledAt(code, tenants + [t], scheduled, steps + [SpawnRun(code, Some(t))], at + [|tenants|])
    ensures t !in scheduled ==> CalledAt(code, tenants + [t], scheduled, steps, at)
  {
    if t in scheduled {
      forall k | 0 <= k < |tenants + [t]| && (tenants + [t])[k] in scheduled ensures k in at + [|tenants|] {
        if k < |tenants| {
          assert tenants[k] in scheduled && k in at;
        } else {
          assert (at + [|tenants|])[|at|] == k;
        }
      }
    }
  }

  lemma {:induction false} TenantStepsExact(code: string, tenants: seq<nat>, scheduled: set<nat>) returns (at: seq<nat>)
    ensures CalledAt(code, tenants, scheduled, TenantSteps(code, tenants, scheduled), at)
  {
    if tenants == [] {
      at := [];
    } else {
      hide CalledAt;
      var front, last := tenants[..|tenants| - 1], tenants[|tenants| - 1];
      at := TenantStepsExact(code, front, scheduled);
      var steps := TenantSteps(code, front, scheduled);
      CalledFurther(code, front, scheduled, steps, at, last);
      assert tenants == front + [last] && steps + [] == steps;
      if last in scheduled { at := at + [|front|]; }
    }
  }

  /** Main result: for a known job of tenant scope, a tenant is called exactly when it is active and its schedule is
      on, in the order of the list; a system job is called once, for no tenant; an unknown job is not called. */
  lemma DispatchExact(known: set<string>, code: string, systemScope: bool, tenants: seq<nat>, scheduled: set<nat>)
    returns (at: seq<nat>)
    ensures var steps := DispatchSteps(known, code, systemScope, tenants, scheduled);
            && (code !in known ==> steps == [])
            && (code in known && systemScope ==> steps == [SpawnRun(code, None)])
            && (code in known && !systemScope ==>
                  && CalledAt(code, tenants, scheduled, steps, at)
                  && (forall t :: SpawnRun(code, Some(t)) in steps <==> t in tenants && t in scheduled))
  {
    at := TenantStepsExact(code, tenants, scheduled);
    var steps := TenantSteps(code, tenants, scheduled);
    forall t ensures SpawnRun(code, Some(t)) in steps <==> t in tenants && t in scheduled {
      if t in tenants && t in scheduled {
        var k :| 0 <= k < |tenants| && tenants[k] == t;
        assert k in at;
        var i :| 0 <= i < |at| && at[i] == k;
        assert steps[i] == SpawnRun(code, Some(t));
      }
      if SpawnRun(code, Some(t)) in steps {
        var i :| 0 <= i < |steps| && steps[i] == SpawnRun(code, Some(t));
        assert at[i] in at && tenants[at[i]] == t;
      }
    }
  }

  /** The dispatch of a scheduled job: its own calls are one for a system job, and one for each active tenant with its
      schedule on, in order, whatever others do between them. */
  method DispatchScheduled(manager: ScheduledJobManager, code: string, systemScope: bool, activeTenants: seq<nat>,
                           scheduled: set<nat>) returns (ghost log: seq<Event>)
    modifies manager
    ensures ReachedBy(manager.known, old(manager.View()), Steps(log), manager.View())
    ensures OwnSteps(log) == DispatchSteps(manager.known, code, systemScope, activeTenants, scheduled)
    ensures code in manager.known && systemScope ==> OwnSteps(log) == [SpawnRun(code, None)]
    ensures code in manager.known && !systemScope ==>
              forall t :: SpawnRun(code, Some(t)) in OwnSteps(log) <==> t in activeTenants && t in scheduled
  {
    ghost var at := DispatchExact(manager.known, code, systemScope, activeTenants, scheduled);
    log := [];
    ghost var before := manager.View();
    assert Steps(log) == [];
    if code !in manager.known { return; }
    hide Enabled, Apply, Steps, OwnSteps, RunKey;
    if systemScope {
      ghost var middle := manager.View();
      var _ := manager.SpawnRun(code, None);
      log := SpawnNoted(manager.known, before, log, middle, code, None);
      return;
    }
    log := Suspend(manager, before, log);
    for i := 0 to |activeTenants|
      invariant OwnSteps(log) == TenantSteps(code, activeTenants[..i], scheduled)
      invariant ReachedBy(manager.known, before, Steps(log), manager.View())
    {
      assert activeTenants[..i + 1][..i] == activeTenants[..i];
      if activeTenants[i] in scheduled {
        ghost var middle := manager.View();
        var _ := manager.SpawnRun(code, Some(activeTenants[i]));
        log := SpawnNoted(manager.known, before, log, middle, code, Some(activeTenants[i]));
      }
      log := Suspend(manager, before, log);
    }
    assert activeTenants[..|activeTenants|] == activeTenants;
  }
}
