/** The query path of the manager dispatcher: any number of callers of `submitQueryTask` share one
    bounded queue with the query workers, and each caller waits on a promise with a timeout. Workers
    come from `start` and from callers that meet a long queue, and leave when idle. Every atomic step
    is one action; a run is any sequence of actions, and an action that is not enabled leaves the
    state as it is. */
module QueryCalls {
  import opened Options
  import opened Seqs
  import QS = QueryScaling

  /** A gRPC status: OK, or an error code. */
  datatype Status = Ok | Error(code: nat)

  const INVALID_ARGUMENT := Error(3)
  const DEADLINE_EXCEEDED := Error(4)
  const RESOURCE_EXHAUSTED := Error(8)
  const INTERNAL := Error(13)

  /** The limits of the queue and of the number of query workers. */
  datatype Config = Config(capacity: nat, highWatermark: nat, threadsMin: int, threadsMax: int) {
    /** The constructor gives the queue room for at least one task. */
    function Room(): (n: nat)
      ensures n >= 1 && n >= capacity && (n == 1 || n == capacity)
    {
      if capacity == 0 then 1 else capacity
    }

    /** How often `start` calls `spawnQueryWorker`. */
    function InitialThreads(): (n: nat)
      ensures n >= 1
    {
      var n := if threadsMin < threadsMax then threadsMin else threadsMax;
      if n < 1 then 1 else n
    }
  }

  /** Where a thread is inside `spawnQueryWorker`. */
  datatype Spawn = AtCheck | AtAdd | AtLaunch

  /** Where a caller is inside `submitQueryTask`. */
  datatype Phase =
    | Entered            // before the null check
    | CheckHigh          // before the high-watermark check
    | ScaleQueue         // before the queue check of `maybeScaleUpQuery`
    | ScaleCount         // before its worker count check
    | Spawning(at: Spawn)
    | CheckFull          // before the capacity check
    | CheckRunning       // before `running_.load()` in `enqueueQuery`
    | Writing            // before `queryQueue_.write`
    | Waiting            // in `future.wait_for`
    | Got(status: Status)     // `future.get()` returned
    | Copying            // moving `*result` into `*response`
    | Returned(status: Status)

  /** One call. `response` is what the caller owns, `result` and `promise` are shared with the
      worker that runs the task. */
  datatype Call = Call(hasResponse: bool, initial: int, response: int,
                       phase: Phase, result: int, promise: Option<Status>)

  /** A worker thread: in its loop, past a failed read, about to subtract itself, or gone. */
  datatype Worker = Looping | Missed | Leaving | Gone

  /** The calls of `spawnQueryWorker` that `start` still has to make, and where the first one is. */
  datatype Boot = Boot(left: nat, at: Spawn)

  /** `count` is `queryWorkerCount_`. `holding[w]` is the call whose task worker `w` is running;
      workers without a task are absent. */
  datatype State = State(running: bool, queue: seq<nat>, calls: seq<Call>, holding: map<nat, nat>,
                         boot: Boot, count: int, workers: seq<Worker>)

  /** How the task of a query ends: it returns a status, or throws. */
  datatype TaskEnd = Returns(status: Status) | Throws

  datatype Action =
    | Submit(hasResponse: bool, initial: int)  // a new caller enters
    | Advance(call: nat)                       // the caller's next step other than giving up
    | Timeout(call: nat)                       // `wait_for` gives up
    | Start                                    // the next step of `start`
    | Take(worker: nat)                        // a worker without a task reads the queue
    | WriteResult(worker: nat, value: int)     // the task writes through its result pointer
    | Finish(worker: nat, end: TaskEnd)        // the promise is set
    | Idle(worker: nat, long: bool)            // the shrink check; `long` is the idle time check
    | LeaveLoop(worker: nat)                   // the loop condition fails
    | Sub(worker: nat)                         // the worker subtracts itself and ends
    | Stop                                     // `running_` becomes false

  /** The dispatcher when `start` has set `running_`. */
  function Initial(cfg: Config): State {
    State(true, [], [], map[], Boot(cfg.InitialThreads(), AtCheck), 0, [])
  }

  /** An exception becomes an internal error. */
  function StatusOf(end: TaskEnd): Status {
    match end case Returns(st) => st case Throws => INTERNAL
  }

  function SetPhase(s: State, c: nat, p: Phase): State
    requires c < |s.calls|
  {
    s.(calls := s.calls[c := s.calls[c].(phase := p)])
  }

  /** One step of `spawnQueryWorker`; `None` when it returns. */
  function SpawnStep(cfg: Config, s: State, at: Spawn): (State, Option<Spawn>) {
    match at
    case AtCheck => (s, if s.count >= cfg.threadsMax then None else Some(AtAdd))
    case AtAdd => (s.(count := s.count + 1), Some(AtLaunch))
    case AtLaunch => (s.(workers := s.workers + [Looping]), None)
  }

  /** What the caller's next step does to its own call. */
  function Moved(cfg: Config, s: State, call: Call): Call {
    match call.phase
    case Entered => call.(phase := if call.hasResponse then CheckHigh else Returned(INVALID_ARGUMENT))
    case CheckHigh => call.(phase := if |s.queue| >= cfg.highWatermark then ScaleQueue else CheckRunning)
    case ScaleQueue => call.(phase := if |s.queue| < cfg.highWatermark then CheckFull else ScaleCount)
    case ScaleCount => call.(phase := if s.count >= cfg.threadsMax then CheckFull else Spawning(AtCheck))
    case Spawning(at) =>
      var next := SpawnStep(cfg, s, at).1;
      call.(phase := if next.None? then CheckFull else Spawning(next.value))
    case CheckFull =>
      call.(phase := if |s.queue| >= cfg.capacity then Returned(RESOURCE_EXHAUSTED) else CheckRunning)
    case CheckRunning => call.(phase := if s.running then Writing else Returned(RESOURCE_EXHAUSTED))
    case Writing => call.(phase := if |s.queue| < cfg.Room() then Waiting else Returned(RESOURCE_EXHAUSTED))
    case Waiting => if call.promise.Some? then call.(phase := Got(call.promise.value)) else call
    case Got(status) => call.(phase := if status.Ok? then Copying else Returned(status))
    case Copying => call.(response := call.result, phase := Returned(Ok))
    case Returned(_) => call
  }

  /** The caller's next step: it can also write the queue or a step of a spawn. */
  function AdvanceCall(cfg: Config, s: State, c: nat): State
    requires c < |s.calls|
  {
    var call := s.calls[c];
    var t := if call.phase == Writing && |s.queue| < cfg.Room() then s.(queue := s.queue + [c])
             else if call.phase.Spawning? then SpawnStep(cfg, s, call.phase.at).0
             else s;
    t.(calls := s.calls[c := Moved(cfg, s, call)])
  }

  /** The loop of `start` over `spawnQueryWorker`. */
  function StartStep(cfg: Config, s: State): State {
    if s.boot.left == 0 then s
    else
      var (t, next) := SpawnStep(cfg, s, s.boot.at);
      t.(boot := if next.None? then Boot(s.boot.left - 1, AtCheck) else s.boot.(at := next.value))
  }

  /** A worker in its loop that runs no task. */
  predicate Free(s: State, w: nat) {
    w < |s.workers| && s.workers[w] == Looping && w !in s.holding
  }

  function SetWorker(s: State, w: nat, p: Worker): State
    requires w < |s.workers|
  {
    s.(workers := s.workers[w := p])
  }

  function Step(cfg: Config, s: State, a: Action): State {
    match a
    case Submit(hasResponse, initial) =>
      s.(calls := s.calls + [Call(hasResponse, initial, initial, Entered, 0, None)])
    case Advance(c) =>
      if c < |s.calls| then AdvanceCall(cfg, s, c) else s
    case Timeout(c) =>
      if c < |s.calls| && s.calls[c].phase == Waiting && s.calls[c].promise.None?
      then SetPhase(s, c, Returned(DEADLINE_EXCEEDED)) else s
    case Start => StartStep(cfg, s)
    case Take(w) =>
      if !Free(s, w) then s
      else if s.queue == [] then SetWorker(s, w, Missed)
      else s.(queue := s.queue[1..], holding := s.holding[w := s.queue[0]])
    case WriteResult(w, value) =>
      if w in s.holding && s.holding[w] < |s.calls|
      then var c := s.holding[w]; s.(calls := s.calls[c := s.calls[c].(result := value)]) else s
    case Finish(w, end) =>
      if w in s.holding && s.holding[w] < |s.calls| then
        var c := s.holding[w];
        s.(calls := s.calls[c := s.calls[c].(promise := Some(StatusOf(end)))], holding := s.holding - {w})
      else s
    case Idle(w, long) =>
      if w < |s.workers| && s.workers[w] == Missed
      then SetWorker(s, w, if s.count > cfg.threadsMin && long then Leaving else Looping) else s
    case LeaveLoop(w) =>
      if Free(s, w) && !s.running && s.queue == [] then SetWorker(s, w, Leaving) else s
    case Sub(w) =>
      if w < |s.workers| && s.workers[w] == Leaving
      then SetWorker(s, w, Gone).(count := s.count - 1) else s
    case Stop => s.(running := false)
  }

  function Exec(cfg: Config, s: State, run: seq<Action>): State
    decreases |run|
  {
    if run == [] then s else Exec(cfg, Step(cfg, s, run[0]), run[1..])
  }

  // --------------------------------------------------------------- invariant

  predicate Held(s: State, c: nat) {
    exists w | w in s.holding :: s.holding[w] == c
  }

  /** The task has been handed over and its promise is still open. */
  predicate Outstanding(call: Call) {
    call.promise.None? && (call.phase == Waiting || call.phase == Returned(DEADLINE_EXCEEDED))
  }

  /** A status the dispatcher itself gives, without the task's say. */
  predicate OwnStatus(call: Call, st: Status) {
    st == DEADLINE_EXCEEDED || st == RESOURCE_EXHAUSTED || (st == INVALID_ARGUMENT && !call.hasResponse)
  }

  predicate CallInv(call: Call) {
    && (!call.hasResponse ==> call.phase.Entered? || call.phase == Returned(INVALID_ARGUMENT))
    && match call.phase
       case Returned(st) =>
         && (call.promise == Some(st) || OwnStatus(call, st))
         && call.response == if st == Ok then call.result else call.initial
       case Waiting => call.response == call.initial
       case Got(st) => call.promise == Some(st) && call.response == call.initial
       case Copying => call.promise == Some(Ok) && call.response == call.initial
       case _ => call.promise == None && call.response == call.initial
  }

  ghost predicate Inv(cfg: Config, s: State) {
    && |s.queue| <= cfg.Room()
    && Distinct(s.queue)
    && (forall c | c in s.queue :: c < |s.calls| && Outstanding(s.calls[c]) && !Held(s, c))
    && (forall w | w in s.holding :: s.holding[w] < |s.calls| && Outstanding(s.calls[s.holding[w]]))
    && (forall w | w in s.holding :: w < |s.workers| && s.workers[w] == Looping)
    && (forall w, v | w in s.holding && v in s.holding && w != v :: s.holding[w] != s.holding[v])
    && (forall c | 0 <= c < |s.calls| :: CallInv(s.calls[c]))
  }

  /** A step that leaves queue, calls and tasks alone and touches no worker that holds one. */
  lemma PoolChangeKeepsInv(cfg: Config, s: State, t: State)
    requires Inv(cfg, s) && t.queue == s.queue && t.calls == s.calls && t.holding == s.holding
    requires |s.workers| <= |t.workers|
    requires forall w | 0 <= w < |s.workers| && w in s.holding :: t.workers[w] == s.workers[w]
    ensures Inv(cfg, t)
  {
    assert forall k | k in s.queue :: Held(t, k) == Held(s, k);
  }

  lemma CallUpdateKeepsInv(cfg: Config, s: State, c: nat, call: Call)
    requires Inv(cfg, s) && c < |s.calls| && CallInv(call)
    requires Outstanding(s.calls[c]) ==> Outstanding(call)
    ensures Inv(cfg, s.(calls := s.calls[c := call]))
  {
    var t := s.(calls := s.calls[c := call]);
    assert forall k | k in s.queue :: Held(t, k) == Held(s, k);
  }

  lemma EnqueueKeepsInv(cfg: Config, s: State, c: nat)
    requires Inv(cfg, s) && c < |s.calls| && s.calls[c].phase == Writing && |s.queue| < cfg.Room()
    ensures Inv(cfg, SetPhase(s.(queue := s.queue + [c]), c, Waiting))
  {
    var t := SetPhase(s.(queue := s.queue + [c]), c, Waiting);
    assert CallInv(s.calls[c]);
    assert c !in s.queue && !Held(s, c);
    assert forall k | k in t.queue :: (k in s.queue || k == c) && Held(t, k) == Held(s, k);
  }

  lemma SpawnKeepsInv(cfg: Config, s: State, at: Spawn)
    requires Inv(cfg, s)
    ensures var t := SpawnStep(cfg, s, at).0;
            Inv(cfg, t) && t.calls == s.calls && t.queue == s.queue && t.holding == s.holding
  {
    PoolChangeKeepsInv(cfg, s, SpawnStep(cfg, s, at).0);
  }

  lemma MovedKeepsCallInv(cfg: Config, s: State, call: Call)
    requires CallInv(call)
    ensures CallInv(Moved(cfg, s, call)) && (Outstanding(call) ==> Outstanding(Moved(cfg, s, call)))
  {
  }

  lemma AdvanceKeepsInv(cfg: Config, s: State, c: nat)
    requires Inv(cfg, s) && c < |s.calls|
    ensures Inv(cfg, AdvanceCall(cfg, s, c))
  {
    var call := s.calls[c];
    assert CallInv(call);
    MovedKeepsCallInv(cfg, s, call);
    hide Inv;
    hide CallInv;
    if call.phase == Writing && |s.queue| < cfg.Room() {
      EnqueueKeepsInv(cfg, s, c);
    } else {
      hide Moved;
      var t := if call.phase.Spawning? then SpawnStep(cfg, s, call.phase.at).0 else s;
      if call.phase.Spawning? { SpawnKeepsInv(cfg, s, call.phase.at); }
      hide SpawnStep;
      CallUpdateKeepsInv(cfg, t, c, Moved(cfg, s, call));
    }
  }

  lemma TakeKeepsInv(cfg: Config, s: State, w: nat)
    requires Inv(cfg, s) && Free(s, w) && s.queue != []
    ensures Inv(cfg, s.(queue := s.queue[1..], holding := s.holding[w := s.queue[0]]))
  {
    var t := s.(queue := s.queue[1..], holding := s.holding[w := s.queue[0]]);
    assert s.queue[0] in s.queue;
    forall c | c in t.queue ensures c in s.queue && !Held(t, c) {
      var i :| 0 <= i < |t.queue| && t.queue[i] == c;
      assert s.queue[i + 1] == c;
    }
    forall v | v in s.holding ensures s.holding[v] != s.queue[0] {
      assert !Held(s, s.queue[0]);
    }
  }

  lemma WorkerKeepsInv(cfg: Config, s: State, w: nat, call: Call, release: bool)
    requires Inv(cfg, s) && w in s.holding
    requires var was := s.calls[s.holding[w]];
             if release then call.promise.Some? && call == was.(promise := call.promise)
             else call == was.(result := call.result)
    ensures Inv(cfg, s.(calls := s.calls[s.holding[w] := call],
                   holding := if release then s.holding - {w} else s.holding))
  {
    var c := s.holding[w];
    var t := s.(calls := s.calls[c := call], holding := if release then s.holding - {w} else s.holding);
    assert Held(s, c);
    forall k | k in t.queue ensures k != c && !Held(t, k) {
    }
    assert CallInv(s.calls[c]);
  }

  lemma SetWorkerKeepsInv(cfg: Config, s: State, w: nat, p: Worker, count: int)
    requires Inv(cfg, s) && w < |s.workers| && w !in s.holding
    ensures Inv(cfg, SetWorker(s, w, p).(count := count))
  {
    PoolChangeKeepsInv(cfg, s, SetWorker(s, w, p).(count := count));
  }

  lemma HoldersLoop(cfg: Config, s: State, w: nat)
    requires Inv(cfg, s) && w in s.holding
    ensures w < |s.workers| && s.workers[w] == Looping
  {
  }

  /** Steps of a worker without a task, and of `start` and `stop`. */
  lemma PoolStepKeepsInv(cfg: Config, s: State, a: Action)
    requires Inv(cfg, s)
    requires a.Start? || a.Idle? || a.LeaveLoop? || a.Sub? || a.Stop? || (a.Take? && s.queue == [])
    ensures Inv(cfg, Step(cfg, s, a))
  {
    hide Inv;
    match a
    case Start =>
      if s.boot.left > 0 {
        SpawnKeepsInv(cfg, s, s.boot.at);
        hide SpawnStep;
        PoolChangeKeepsInv(cfg, SpawnStep(cfg, s, s.boot.at).0, StartStep(cfg, s));
      }
    case Stop => PoolChangeKeepsInv(cfg, s, s.(running := false));
    case Idle(w, long) =>
      if w in s.holding { HoldersLoop(cfg, s, w); }
      if w < |s.workers| && w !in s.holding {
        SetWorkerKeepsInv(cfg, s, w, Leaving, s.count);
        SetWorkerKeepsInv(cfg, s, w, Looping, s.count);
      }
    case LeaveLoop(w) => if Free(s, w) { SetWorkerKeepsInv(cfg, s, w, Leaving, s.count); }
    case Take(w) => if Free(s, w) { SetWorkerKeepsInv(cfg, s, w, Missed, s.count); }
    case Sub(w) =>
      if w in s.holding { HoldersLoop(cfg, s, w); }
      if w < |s.workers| && w !in s.holding { SetWorkerKeepsInv(cfg, s, w, Gone, s.count - 1); }
  }

  lemma StepKeepsInv(cfg: Config, s: State, a: Action)
    requires Inv(cfg, s)
    ensures Inv(cfg, Step(cfg, s, a))
  {
    hide Inv;
    hide AdvanceCall;
    match a
    case Submit(hasResponse, initial) => SubmitKeepsInv(cfg, s, Call(hasResponse, initial, initial, Entered, 0, None));
    case Advance(c) => if c < |s.calls| { AdvanceKeepsInv(cfg, s, c); }
    case Timeout(c) => TimeoutKeepsInv(cfg, s, c);
    case Take(w) =>
      if s.queue == [] {
        PoolStepKeepsInv(cfg, s, a);
      } else if Free(s, w) {
        TakeKeepsInv(cfg, s, w);
      }
    case WriteResult(w, value) =>
      if w in s.holding && s.holding[w] < |s.calls| {
        WorkerKeepsInv(cfg, s, w, s.calls[s.holding[w]].(result := value), false);
      }
    case Finish(w, end) =>
      if w in s.holding && s.holding[w] < |s.calls| {
        WorkerKeepsInv(cfg, s, w, s.calls[s.holding[w]].(promise := Some(StatusOf(end))), true);
      }
    case _ => PoolStepKeepsInv(cfg, s, a);
  }

  lemma SubmitKeepsInv(cfg: Config, s: State, call: Call)
    requires Inv(cfg, s) && CallInv(call)
    ensures Inv(cfg, s.(calls := s.calls + [call]))
  {
    assert forall k | k in s.queue :: Held(s.(calls := s.calls + [call]), k) == Held(s, k);
  }

  lemma TimeoutKeepsInv(cfg: Config, s: State, c: nat)
    requires Inv(cfg, s)
    ensures Inv(cfg, Step(cfg, s, Timeout(c)))
  {
    if c < |s.calls| && s.calls[c].phase == Waiting && s.calls[c].promise.None? {
      assert CallInv(s.calls[c]);
      hide Inv;
      CallUpdateKeepsInv(cfg, s, c, s.calls[c].(phase := Returned(DEADLINE_EXCEEDED)));
    }
  }

  lemma {:induction false} RunKeepsInv(cfg: Config, s: State, run: seq<Action>)
    requires Inv(cfg, s)
    ensures Inv(cfg, Exec(cfg, s, run))
    decreases |run|
  {
    hide Step;
    hide Inv;
    if run != [] {
      StepKeepsInv(cfg, s, run[0]);
      RunKeepsInv(cfg, Step(cfg, s, run[0]), run[1..]);
    }
  }

  // ------------------------------------------------------------ main results

  /** In every interleaving: the queue stays within its capacity; a returned status is the one the
      task's promise carried or one of the dispatcher's own refusals; the caller's response changes
      only when the call returned OK, and then it is the result the task left; and a worker holding
      the task never meets its caller at the shared result, nor a second worker. */
  lemma ResponseOnlyOnOk(cfg: Config, run: seq<Action>, c: nat)
    requires c < |Exec(cfg, Initial(cfg), run).calls|
    ensures var s := Exec(cfg, Initial(cfg), run);
            var call := s.calls[c];
            |s.queue| <= cfg.Room() &&
            (call.phase.Returned? ==> call.promise == Some(call.phase.status) ||
                                      OwnStatus(call, call.phase.status)) &&
            call.response == (if call.phase == Returned(Ok) then call.result else call.initial) &&
            (Held(s, c) ==> call.promise.None? && !call.phase.Got? && !call.phase.Copying?) &&
            (forall w, v | w in s.holding && v in s.holding && s.holding[w] == s.holding[v] == c :: w == v)
  {
    RunKeepsInv(cfg, Initial(cfg), run);
    var s := Exec(cfg, Initial(cfg), run);
    assert CallInv(s.calls[c]);
    hide Exec;
    hide Step;
  }

  /** What no step changes about a call: the initial response; status and response after the return;
      a set promise and the result behind it. */
  ghost predicate Settled(before: Call, after: Call) {
    && after.initial == before.initial && after.hasResponse == before.hasResponse
    && (before.phase.Returned? ==> after.phase == before.phase && after.response == before.response)
    && (before.promise.Some? ==> after.promise == before.promise && after.result == before.result)
  }

  lemma MovedIsSettled(cfg: Config, s: State, call: Call)
    ensures Settled(call, Moved(cfg, s, call)) && Moved(cfg, s, call).promise == call.promise
  {
  }

  /** One step never touches a returned call's response or status, a set promise, or a result whose
      promise is set; and it never removes a call. */
  lemma StepIsFinal(cfg: Config, s: State, a: Action, c: nat)
    requires Inv(cfg, s) && c < |s.calls|
    ensures c < |Step(cfg, s, a).calls| && Settled(s.calls[c], Step(cfg, s, a).calls[c])
  {
    hide Moved;
    MovedIsSettled(cfg, s, s.calls[c]);
  }

  /** Whatever happens after the return, including a late worker, the call keeps its one status and
      the response the caller was given. */
  lemma {:induction false} ReturnIsFinal(cfg: Config, run: seq<Action>, more: seq<Action>, c: nat)
    requires c < |Exec(cfg, Initial(cfg), run).calls| && Exec(cfg, Initial(cfg), run).calls[c].phase.Returned?
    ensures var s, t := Exec(cfg, Initial(cfg), run), Exec(cfg, Exec(cfg, Initial(cfg), run), more);
            c < |t.calls| && t.calls[c].phase == s.calls[c].phase && t.calls[c].response == s.calls[c].response
  {
    RunKeepsInv(cfg, Initial(cfg), run);
    FinalFrom(cfg, Exec(cfg, Initial(cfg), run), more, c);
  }

  lemma {:induction false} FinalFrom(cfg: Config, s: State, more: seq<Action>, c: nat)
    requires Inv(cfg, s) && c < |s.calls| && s.calls[c].phase.Returned?
    ensures var t := Exec(cfg, s, more);
            c < |t.calls| && t.calls[c].phase == s.calls[c].phase && t.calls[c].response == s.calls[c].response
    decreases |more|
  {
    hide Step;
    hide Inv;
    if more != [] {
      StepKeepsInv(cfg, s, more[0]);
      StepIsFinal(cfg, s, more[0], c);
      FinalFrom(cfg, Step(cfg, s, more[0]), more[1..], c);
    }
  }

  /** Steps the caller still has to take. */
  function Rank(p: Phase): nat {
    match p
    case Entered => 13
    case CheckHigh => 12
    case ScaleQueue => 11
    case ScaleCount => 10
    case Spawning(at) => (match at case AtCheck => 9 case AtAdd => 8 case AtLaunch => 7)
    case CheckFull => 6
    case CheckRunning => 5
    case Writing => 4
    case Waiting => 3
    case Got(_) => 2
    case Copying => 1
    case Returned(_) => 0
  }

  /** A call that has not returned can always move on its own, by giving up if nothing else; nobody
      else moves it; so it returns after at most thirteen steps of its own, whatever the others do. */
  lemma CallerAlwaysProgresses(cfg: Config, s: State, c: nat)
    requires Inv(cfg, s) && c < |s.calls| && !s.calls[c].phase.Returned?
    ensures var own := if s.calls[c].phase == Waiting && s.calls[c].promise.None?
                       then Timeout(c) else Advance(c);
            var t := Step(cfg, s, own);
            c < |t.calls| && Rank(t.calls[c].phase) < Rank(s.calls[c].phase)
    ensures forall a | a != Advance(c) && a != Timeout(c) ::
              var t := Step(cfg, s, a); c < |t.calls| && t.calls[c].phase == s.calls[c].phase
  {
    hide Inv;
    forall a | a != Advance(c) && a != Timeout(c)
      ensures var t := Step(cfg, s, a); c < |t.calls| && t.calls[c].phase == s.calls[c].phase
    {
      OthersDoNotMove(cfg, s, c, a);
    }
  }

  lemma OthersDoNotMove(cfg: Config, s: State, c: nat, a: Action)
    requires c < |s.calls| && a != Advance(c) && a != Timeout(c)
    ensures var t := Step(cfg, s, a); c < |t.calls| && t.calls[c].phase == s.calls[c].phase
  {
    hide Moved;
  }

  // ------------------------------------------------------ where a status comes from

  lemma ExecCons(cfg: Config, s: State, a: Action, run: seq<Action>)
    ensures Exec(cfg, s, [a] + run) == Exec(cfg, Step(cfg, s, a), run)
  {
    hide Step;
    assert ([a] + run)[0] == a && ([a] + run)[1..] == run;
  }

  lemma {:induction false} ExecAppend(cfg: Config, s: State, a: seq<Action>, b: seq<Action>)
    ensures Exec(cfg, s, a + b) == Exec(cfg, Exec(cfg, s, a), b)
    decreases |a|
  {
    hide Step;
    if a == [] {
      assert a + b == b;
    } else {
      assert (a + b)[0] == a[0] && (a + b)[1..] == a[1..] + b;
      ExecAppend(cfg, Step(cfg, s, a[0]), a[1..], b);
    }
  }

  lemma ExecSnoc(cfg: Config, s: State, run: seq<Action>, a: Action)
    ensures Exec(cfg, s, run + [a]) == Step(cfg, Exec(cfg, s, run), a)
  {
    hide Step;
    ExecAppend(cfg, s, run, [a]);
    assert [a][1..] == [];
  }

  /** At step `n` of the run the worker holding the task of call `c` ended it with `end`. */
  ghost predicate EndedAt(cfg: Config, run: seq<Action>, n: nat, c: nat, end: TaskEnd) {
    n < |run| && run[n].Finish? && run[n].end == end &&
    var s := Exec(cfg, Initial(cfg), run[..n]);
    run[n].worker in s.holding && s.holding[run[n].worker] == c
  }

  /** A promise is set only by the end of its own task, to the status of that end. */
  lemma {:induction false} PromiseComesFromTask(cfg: Config, run: seq<Action>, c: nat)
    requires c < |Exec(cfg, Initial(cfg), run).calls| && Exec(cfg, Initial(cfg), run).calls[c].promise.Some?
    ensures exists n: nat, end :: EndedAt(cfg, run, n, c, end) &&
                                  Exec(cfg, Initial(cfg), run).calls[c].promise == Some(StatusOf(end))
    ensures exists n: nat, end :: EndedAt(cfg, run, n, c, end) &&
                                  Exec(cfg, Initial(cfg), run).calls[c].promise ==
                                  Some(if end.Throws? then Error(13) else end.status)
    decreases |run|
  {
    assert run != [];
    hide Step;
    hide Exec;
    var m := |run| - 1;
    var init, last := run[..m], run[m];
    assert run == init + [last];
    ExecSnoc(cfg, Initial(cfg), init, last);
    var s := Exec(cfg, Initial(cfg), init);
    if c < |s.calls| && s.calls[c].promise.Some? {
      RunKeepsInv(cfg, Initial(cfg), init);
      hide Inv;
      StepIsFinal(cfg, s, last, c);
      PromiseComesFromTask(cfg, init, c);
      var n: nat, end :| EndedAt(cfg, init, n, c, end) && s.calls[c].promise == Some(StatusOf(end));
      assert init[..n] == run[..n];
      assert EndedAt(cfg, run, n, c, end);
    } else {
      OnlyFinishSets(cfg, s, last, c);
      assert EndedAt(cfg, run, m, c, last.end);
    }
  }

  lemma OnlyFinishSets(cfg: Config, s: State, a: Action, c: nat)
    requires c < |Step(cfg, s, a).calls| && Step(cfg, s, a).calls[c].promise.Some?
    requires c < |s.calls| ==> s.calls[c].promise.None?
    ensures a.Finish? && a.worker in s.holding && s.holding[a.worker] == c
    ensures Step(cfg, s, a).calls[c].promise == Some(StatusOf(a.end))
  {
    hide Moved;
    if c < |s.calls| { MovedIsSettled(cfg, s, s.calls[c]); }
  }

  // ------------------------------------------------------- what decides a call

  /** A call whose promise is set to `st` has that status to come, or has it. */
  ghost predicate HasOutcome(call: Call, st: Status) {
    call.promise == Some(st) &&
    (call.phase == Waiting || call.phase == Got(st) || (call.phase == Copying && st == Ok) ||
     call.phase == Returned(st))
  }

  lemma OutcomeStep(cfg: Config, s: State, a: Action, c: nat, st: Status)
    requires Inv(cfg, s) && c < |s.calls| && HasOutcome(s.calls[c], st)
    ensures c < |Step(cfg, s, a).calls| && HasOutcome(Step(cfg, s, a).calls[c], st)
  {
    StepIsFinal(cfg, s, a, c);
    if a != Advance(c) && a != Timeout(c) {
      OthersDoNotMove(cfg, s, c, a);
      hide Step;
    }
    hide Inv;
  }

  /** Once the promise is set while the caller waits, the call can only return its status: it does not
      time out any more. */
  lemma {:induction false} PromiseDecides(cfg: Config, s: State, run: seq<Action>, c: nat, st: Status)
    requires Inv(cfg, s) && c < |s.calls| && HasOutcome(s.calls[c], st)
    ensures c < |Exec(cfg, s, run).calls| && HasOutcome(Exec(cfg, s, run).calls[c], st)
    decreases |run|
  {
    hide Step;
    hide Inv;
    hide HasOutcome;
    if run != [] {
      OutcomeStep(cfg, s, run[0], c, st);
      StepKeepsInv(cfg, s, run[0]);
      PromiseDecides(cfg, Step(cfg, s, run[0]), run[1..], c, st);
    }
  }

  predicate InLoop(s: State, w: nat) {
    w < |s.workers| && (s.workers[w] == Looping || s.workers[w] == Missed)
  }

  /** A step takes a worker out of its loop exactly when the worker has found the queue empty and been
      idle for long with more than the minimum counted, or, without a task, finds the dispatcher stopped
      and the queue empty: a stopped dispatcher with queued tasks loses workers to shrinking only. */
  lemma LeavesLoopIff(cfg: Config, s: State, a: Action, w: nat)
    requires InLoop(s, w)
    ensures !InLoop(Step(cfg, s, a), w) <==>
            (a == Idle(w, true) && s.workers[w] == Missed && s.count > cfg.threadsMin) ||
            (a == LeaveLoop(w) && s.workers[w] == Looping && w !in s.holding && !s.running && s.queue == [])
  {
    hide Moved;
  }

  /** A caller that waits for a promise nobody has set can give up, with the status for an exceeded
      deadline and an untouched response; nothing else changes. */
  lemma GivesUp(cfg: Config, s: State, c: nat)
    requires c < |s.calls| && s.calls[c].phase == Waiting && s.calls[c].promise.None?
    ensures Step(cfg, s, Timeout(c)) == s.(calls := s.calls[c := s.calls[c].(phase := Returned(Error(4)))])
  {
  }
}
