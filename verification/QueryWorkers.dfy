/** Calls and workers of the query path together: the worker pool of the dispatcher refines the pool
    of `QueryScaling`, and which configurations can answer a call at all. */
module QueryWorkers {
  import opened Options
  import opened Seqs
  import opened QueryCalls
  import QS = QueryScaling

  // ------------------------------------------------- the pool, seen on its own

  function SpawnerOf(at: Spawn): QS.Spawner {
    match at case AtCheck => QS.Gated case AtAdd => QS.Cleared case AtLaunch => QS.Counted
  }

  function CallSpawner(calls: seq<Call>, i: nat): QS.Spawner {
    if i < |calls| && calls[i].phase.Spawning? then SpawnerOf(calls[i].phase.at) else QS.Away
  }

  function BootSpawner(b: Boot): QS.Spawner {
    if b.left == 0 || b.at == AtCheck then QS.Away else SpawnerOf(b.at)
  }

  function WorkerOf(w: Worker): QS.Worker {
    match w case Looping => QS.Looping case Missed => QS.Looping case Leaving => QS.Leaving case Gone => QS.Gone
  }

  /** Thread 0 is `start`, thread `i + 1` is the caller `i` of at most `n` callers. */
  function View(s: State, n: nat): QS.State {
    QS.State(s.count, Threads(s, n), Crew(s.workers))
  }

  function Crew(workers: seq<Worker>): (crew: seq<QS.Worker>)
    ensures |crew| == |workers| && forall i | 0 <= i < |workers| :: crew[i] == WorkerOf(workers[i])
  {
    seq(|workers|, i requires 0 <= i < |workers| => WorkerOf(workers[i]))
  }

  function Threads(s: State, n: nat): (spawners: seq<QS.Spawner>)
    ensures |spawners| == n + 1 && spawners[0] == BootSpawner(s.boot)
    ensures forall i | 1 <= i <= n :: spawners[i] == CallSpawner(s.calls, i - 1)
  {
    [BootSpawner(s.boot)] + seq(n, i requires 0 <= i => CallSpawner(s.calls, i))
  }

  /** Threads whose spawning has not moved look the same. */
  lemma SameThreads(s: State, t: State, n: nat)
    requires BootSpawner(s.boot) == BootSpawner(t.boot)
    requires forall i | 0 <= i < n :: CallSpawner(s.calls, i) == CallSpawner(t.calls, i)
    ensures Threads(s, n) == Threads(t, n)
  {
    hide CallSpawner;
  }

  lemma BootMoves(s: State, t: State, n: nat)
    requires t.calls == s.calls
    ensures Threads(t, n) == Threads(s, n)[0 := BootSpawner(t.boot)]
  {
    hide CallSpawner;
  }

  lemma OneThreadMoves(s: State, t: State, c: nat, n: nat)
    requires c < n && BootSpawner(s.boot) == BootSpawner(t.boot)
    requires forall i | 0 <= i < n && i != c :: CallSpawner(s.calls, i) == CallSpawner(t.calls, i)
    ensures Threads(t, n) == Threads(s, n)[c + 1 := CallSpawner(t.calls, c)]
  {
    hide CallSpawner;
  }

  function ViewConfig(cfg: Config, n: nat): QS.Config {
    QS.Config(cfg.threadsMin, cfg.threadsMax, n + 1)
  }

  /** The step of the pool that an action of the dispatcher amounts to. */
  function SpawnMove(at: Spawn, thread: nat): QS.Action {
    match at case AtCheck => QS.Check(thread) case AtAdd => QS.Add(thread) case AtLaunch => QS.Launch(thread)
  }

  function Moves(cfg: Config, s: State, a: Action): seq<QS.Action> {
    match a
    case Advance(c) =>
      if c < |s.calls| && s.calls[c].phase == ScaleCount then [QS.Gate(c + 1)]
      else if c < |s.calls| && s.calls[c].phase.Spawning? then [SpawnMove(s.calls[c].phase.at, c + 1)]
      else []
    case Start => if s.boot.left > 0 then [SpawnMove(s.boot.at, 0)] else []
    case Idle(w, long) => if w < |s.workers| && s.workers[w] == Missed && long then [QS.Shrink(w)] else []
    case LeaveLoop(w) => if Free(s, w) && !s.running && s.queue == [] then [QS.LeaveLoop(w)] else []
    case Sub(w) => [QS.Sub(w)]
    case _ => []
  }

  /** A thread's next place in a spawn, as the pool sees it. */
  function NextSpawner(cfg: QS.Config, count: int, at: Spawn): QS.Spawner {
    match at
    case AtCheck => if count < cfg.max then QS.Cleared else QS.Away
    case AtAdd => QS.Counted
    case AtLaunch => QS.Away
  }

  lemma SpawnMoves(cfg: QS.Config, v: QS.State, thread: nat, at: Spawn)
    requires thread < |v.spawners|
    requires v.spawners[thread] == SpawnerOf(at) || (at == AtCheck && v.spawners[thread] == QS.Away)
    ensures QS.Exec(cfg, v, [SpawnMove(at, thread)]) ==
            QS.State(v.count + if at == AtAdd then 1 else 0,
                     v.spawners[thread := NextSpawner(cfg, v.count, at)],
                     if at == AtLaunch then v.workers + [QS.Looping] else v.workers)
  {
    QSExecOne(cfg, v, SpawnMove(at, thread));
  }

  lemma QSExecOne(cfg: QS.Config, s: QS.State, a: QS.Action)
    ensures QS.Exec(cfg, s, [a]) == QS.Step(cfg, s, a)
  {
    hide QS.Step;
    assert [a][1..] == [];
  }

  lemma CrewGrows(workers: seq<Worker>)
    ensures Crew(workers + [Looping]) == Crew(workers) + [QS.Looping]
  {
    assert forall i | 0 <= i < |workers| :: (workers + [Looping])[i] == workers[i];
  }

  lemma AdvanceRefines(cfg: Config, s: State, c: nat, n: nat)
    requires c < |s.calls| <= n
    ensures View(AdvanceCall(cfg, s, c), n) == QS.Exec(ViewConfig(cfg, n), View(s, n), Moves(cfg, s, Advance(c)))
  {
    hide Threads;
    hide Crew;
    if s.calls[c].phase.Spawning? {
      SpawningRefines(cfg, s, c, n);
    } else {
      var t, v := AdvanceCall(cfg, s, c), View(s, n);
      if s.calls[c].phase == ScaleCount {
        assert v.spawners[c + 1] == CallSpawner(s.calls, c);
        QSExecOne(ViewConfig(cfg, n), v, QS.Gate(c + 1));
        OneThreadMoves(s, t, c, n);
      } else {
        SameThreads(s, t, n);
      }
    }
  }

  lemma SpawningRefines(cfg: Config, s: State, c: nat, n: nat)
    requires c < |s.calls| <= n && s.calls[c].phase.Spawning?
    ensures View(AdvanceCall(cfg, s, c), n) == QS.Exec(ViewConfig(cfg, n), View(s, n), Moves(cfg, s, Advance(c)))
  {
    hide Threads;
    hide Crew;
    hide QS.Exec;
    var t, v := AdvanceCall(cfg, s, c), View(s, n);
    assert v.spawners[c + 1] == CallSpawner(s.calls, c);
    CrewGrows(s.workers);
    SpawnMoves(ViewConfig(cfg, n), v, c + 1, s.calls[c].phase.at);
    OneThreadMoves(s, t, c, n);
  }

  lemma StartRefines(cfg: Config, s: State, n: nat)
    requires |s.calls| <= n
    ensures View(StartStep(cfg, s), n) == QS.Exec(ViewConfig(cfg, n), View(s, n), Moves(cfg, s, Start))
  {
    hide Crew;
    if s.boot.left > 0 {
      var t := StartStep(cfg, s);
      CrewGrows(s.workers);
      BootMoves(s, t, n);
      hide Threads;
      SpawnMoves(ViewConfig(cfg, n), View(s, n), 0, s.boot.at);
      hide QS.Exec;
    }
  }

  lemma WorkerRefines(cfg: Config, s: State, a: Action, n: nat)
    requires |s.calls| <= n && (a.Idle? || a.LeaveLoop? || a.Sub? || a.Take?)
    ensures View(Step(cfg, s, a), n) == QS.Exec(ViewConfig(cfg, n), View(s, n), Moves(cfg, s, a))
  {
    var moves := Moves(cfg, s, a);
    SameThreads(s, Step(cfg, s, a), n);
    hide Threads;
    hide Crew;
    if a.worker < |s.workers| { CrewChange(s.workers, a.worker); }
    if moves == [] {
      assert QS.Exec(ViewConfig(cfg, n), View(s, n), []) == View(s, n);
    } else {
      QSExecOne(ViewConfig(cfg, n), View(s, n), moves[0]);
      hide QS.Exec;
    }
  }

  /** Replacing one worker replaces one worker in the view, and a missed read is no change there. */
  lemma CrewChange(workers: seq<Worker>, w: nat)
    requires w < |workers|
    ensures Crew(workers[w := Leaving]) == Crew(workers)[w := QS.Leaving]
    ensures Crew(workers[w := Gone]) == Crew(workers)[w := QS.Gone]
    ensures workers[w] == Looping || workers[w] == Missed ==>
              Crew(workers[w := Missed]) == Crew(workers) && Crew(workers[w := Looping]) == Crew(workers)
    ensures Crew(workers)[w] == WorkerOf(workers[w])
  {
  }

  lemma OtherRefines(cfg: Config, s: State, a: Action, n: nat)
    requires |Step(cfg, s, a).calls| <= n
    requires a.Submit? || a.Timeout? || a.WriteResult? || a.Finish? || a.Stop?
    ensures View(Step(cfg, s, a), n) == View(s, n)
  {
    SameThreads(s, Step(cfg, s, a), n);
  }

  /** Every step of the dispatcher is, for the pool, one of its steps or none. */
  lemma StepRefines(cfg: Config, s: State, a: Action, n: nat)
    requires |Step(cfg, s, a).calls| <= n
    ensures |s.calls| <= n
    ensures View(Step(cfg, s, a), n) == QS.Exec(ViewConfig(cfg, n), View(s, n), Moves(cfg, s, a))
  {
    CallsStay(cfg, s, a);
    hide View;
    match a
    case Advance(c) => if c < |s.calls| { AdvanceRefines(cfg, s, c, n); }
    case Start => StartRefines(cfg, s, n);
    case Idle(_, _) => WorkerRefines(cfg, s, a, n);
    case LeaveLoop(_) => WorkerRefines(cfg, s, a, n);
    case Sub(_) => WorkerRefines(cfg, s, a, n);
    case Take(_) => WorkerRefines(cfg, s, a, n);
    case _ => OtherRefines(cfg, s, a, n);
  }

  lemma CallsStay(cfg: Config, s: State, a: Action)
    ensures |s.calls| <= |Step(cfg, s, a).calls|
  {
    hide Moved;
  }

  lemma {:induction false} RunRefines(cfg: Config, s: State, run: seq<Action>, n: nat) returns (moves: seq<QS.Action>)
    requires |Exec(cfg, s, run).calls| <= n
    ensures |s.calls| <= n
    ensures View(Exec(cfg, s, run), n) == QS.Exec(ViewConfig(cfg, n), View(s, n), moves)
    decreases |run|
  {
    hide Step;
    hide View;
    hide Moves;
    if run == [] {
      moves := [];
    } else {
      var t := Step(cfg, s, run[0]);
      assert Exec(cfg, s, run) == Exec(cfg, t, run[1..]);
      var rest := RunRefines(cfg, t, run[1..], n);
      StepRefines(cfg, s, run[0], n);
      moves := Moves(cfg, s, run[0]) + rest;
      QS.ExecAppend(ViewConfig(cfg, n), View(s, n), Moves(cfg, s, run[0]), rest);
    }
  }

  /** In every run of callers, workers, `start` and `stop` together the pool goes through a run of
      `QueryScaling`, so the counter equals the workers counted in and not out, and with `n` callers it
      is at most the maximum plus `n`. */
  lemma PoolRefinesScaling(cfg: Config, run: seq<Action>) returns (moves: seq<QS.Action>)
    ensures var s := Exec(cfg, Initial(cfg), run);
            var n := |s.calls|;
            View(s, n) == QS.Exec(ViewConfig(cfg, n), QS.Initial(ViewConfig(cfg, n)), moves) &&
            s.count == QS.Accounted(View(s, n)) && (s.count == 0 || s.count <= cfg.threadsMax + n)
  {
    var n := |Exec(cfg, Initial(cfg), run).calls|;
    moves := RunRefines(cfg, Initial(cfg), run, n);
    assert Threads(Initial(cfg), n) == QS.Initial(ViewConfig(cfg, n)).spawners;
    hide Exec;
    QS.WorkerCountBound(ViewConfig(cfg, n), moves);
  }

  // ------------------------------------------------------------- served calls

  /** Whatever a queued task does, its status and result can reach the caller. */
  lemma QueuedCallIsServed(cfg: Config, s: State, c: nat, w: nat, value: int, end: TaskEnd)
    returns (run: seq<Action>)
    requires c < |s.calls| && s.calls[c].phase == Waiting && s.queue == [c] && Free(s, w)
    ensures var t := Exec(cfg, s, run);
            |t.calls| == |s.calls| && t.calls[c].phase == Returned(StatusOf(end)) &&
            t.calls[c].response == if StatusOf(end) == Ok then value else s.calls[c].response
  {
    var s1 := Step(cfg, s, Take(w));
    var s2 := Step(cfg, s1, WriteResult(w, value));
    var s3 := Step(cfg, s2, Finish(w, end));
    assert s1.holding[w] == c && s2.calls[c].result == value;
    assert s3.calls == s.calls[c := s.calls[c].(result := value, promise := Some(StatusOf(end)))];
    run := CallTakesOutcome(cfg, s3, c);
    hide Step;
    hide Exec;
    ExecCons(cfg, s2, Finish(w, end), run);
    run := [Finish(w, end)] + run;
    ExecCons(cfg, s1, WriteResult(w, value), run);
    run := [WriteResult(w, value)] + run;
    ExecCons(cfg, s, Take(w), run);
    run := [Take(w)] + run;
  }

  lemma CallTakesOutcome(cfg: Config, s: State, c: nat) returns (run: seq<Action>)
    requires c < |s.calls| && s.calls[c].phase == Waiting && s.calls[c].promise.Some?
    ensures var t, st := Exec(cfg, s, run), s.calls[c].promise.value;
            |t.calls| == |s.calls| && t.calls[c].phase == Returned(st) &&
            t.calls[c].response == if st == Ok then s.calls[c].result else s.calls[c].response
  {
    var s1 := Step(cfg, s, Advance(c));
    var s2 := Step(cfg, s1, Advance(c));
    var s3 := Step(cfg, s2, Advance(c));
    ghost var st := s.calls[c].promise.value;
    assert s1 == SetPhase(s, c, Got(st)) && s2 == SetPhase(s, c, if st.Ok? then Copying else Returned(st));
    assert |s3.calls| == |s.calls| && s3.calls[c].phase == Returned(st);
    assert s3.calls[c].response == if st == Ok then s.calls[c].result else s.calls[c].response;
    hide Step;
    run := [Advance(c)] + [];
    ExecCons(cfg, s2, Advance(c), []);
    assert Exec(cfg, s3, []) == s3;
    hide Exec;
    ExecCons(cfg, s1, Advance(c), run);
    run := [Advance(c)] + run;
    ExecCons(cfg, s, Advance(c), run);
    run := [Advance(c)] + run;
  }

  /** A phase on the way to the capacity check. */
  predicate BeforeFull(p: Phase) { p.ScaleQueue? || p.ScaleCount? || p.Spawning? || p == CheckFull }

  /** A caller still on its way to an empty queue of a running dispatcher with a free worker can get
      every outcome its task may have: status and, when that is OK, result. */
  lemma {:induction false} LoneCallIsServed(cfg: Config, s: State, c: nat, w: nat, value: int, end: TaskEnd)
    returns (run: seq<Action>)
    requires c < |s.calls| && s.running && s.queue == [] && Free(s, w) && s.calls[c].hasResponse
    requires cfg.capacity > 0 || cfg.highWatermark > 0
    requires Rank(s.calls[c].phase) > Rank(Waiting) && (BeforeFull(s.calls[c].phase) ==> cfg.capacity > 0)
    ensures var t := Exec(cfg, s, run);
            |t.calls| == |s.calls| && t.calls[c].phase == Returned(StatusOf(end)) &&
            t.calls[c].response == if StatusOf(end) == Ok then value else s.calls[c].response
    decreases Rank(s.calls[c].phase)
  {
    var t := Step(cfg, s, Advance(c));
    AdvanceTowardsQueue(cfg, s, c, w);
    ghost var writing := s.calls[c].phase == Writing;
    hide Step;
    hide Exec;
    if writing {
      run := QueuedCallIsServed(cfg, t, c, w, value, end);
    } else {
      run := LoneCallIsServed(cfg, t, c, w, value, end);
    }
    ExecCons(cfg, s, Advance(c), run);
    run := [Advance(c)] + run;
  }

  lemma AdvanceTowardsQueue(cfg: Config, s: State, c: nat, w: nat)
    requires c < |s.calls| && s.running && s.queue == [] && Free(s, w) && s.calls[c].hasResponse
    requires cfg.capacity > 0 || cfg.highWatermark > 0
    requires Rank(s.calls[c].phase) > Rank(Waiting) && (BeforeFull(s.calls[c].phase) ==> cfg.capacity > 0)
    ensures var t := Step(cfg, s, Advance(c));
            |t.calls| == |s.calls| && t.calls[c] == s.calls[c].(phase := t.calls[c].phase) &&
            t.running && Free(t, w) &&
            if s.calls[c].phase == Writing then t.queue == [c] && t.calls[c].phase == Waiting
            else t.queue == [] && Rank(Waiting) < Rank(t.calls[c].phase) < Rank(s.calls[c].phase) &&
                 (BeforeFull(t.calls[c].phase) ==> cfg.capacity > 0)
  {
  }

  // ------------------------------------------- configurations that answer nothing

  /** With both queue limits zero the capacity check refuses every call. */
  predicate NeverQueued(call: Call) {
    call.promise.None? &&
    (Rank(call.phase) > Rank(CheckRunning) ||
     call.phase == Returned(INVALID_ARGUMENT) || call.phase == Returned(RESOURCE_EXHAUSTED))
  }

  /** Without a thread nobody ever takes a task. */
  predicate Unserved(call: Call) {
    && call.promise.None? && !call.phase.Got? && !call.phase.Copying? && call.phase != Returned(Ok)
    && (call.phase.Spawning? ==> call.phase.at == AtCheck)
  }

  ghost predicate Mute(cfg: Config, s: State) {
    && s.holding == map[]
    && (cfg.threadsMax < 1 ==>
          s.count == 0 && s.workers == [] && (s.boot.left > 0 ==> s.boot.at == AtCheck) &&
          forall c | 0 <= c < |s.calls| :: Unserved(s.calls[c]))
    && (cfg.capacity == 0 && cfg.highWatermark == 0 ==>
          s.queue == [] && forall c | 0 <= c < |s.calls| :: NeverQueued(s.calls[c]))
  }

  predicate Servable(cfg: Config) {
    cfg.threadsMax >= 1 && (cfg.capacity > 0 || cfg.highWatermark > 0)
  }

  lemma MovedStaysMute(cfg: Config, s: State, call: Call)
    requires !Servable(cfg)
    ensures cfg.threadsMax < 1 && s.count == 0 && Unserved(call) ==> Unserved(Moved(cfg, s, call))
    ensures cfg.capacity == 0 && cfg.highWatermark == 0 && NeverQueued(call) ==>
              NeverQueued(Moved(cfg, s, call))
  {
  }

  lemma MuteStep(cfg: Config, s: State, a: Action)
    requires !Servable(cfg) && Mute(cfg, s)
    ensures Mute(cfg, Step(cfg, s, a))
  {
    if a.Advance? && a.call < |s.calls| { MovedStaysMute(cfg, s, s.calls[a.call]); }
    hide Moved;
    hide Rank;
    assert Rank(Entered) > Rank(CheckRunning) by { RankFacts(); }
  }

  lemma RankFacts()
    ensures Rank(Entered) > Rank(CheckRunning)
  {
  }

  lemma {:induction false} MuteRun(cfg: Config, s: State, run: seq<Action>)
    requires !Servable(cfg) && Mute(cfg, s)
    ensures Mute(cfg, Exec(cfg, s, run))
    decreases |run|
  {
    hide Step;
    hide Mute;
    if run != [] {
      MuteStep(cfg, s, run[0]);
      MuteRun(cfg, Step(cfg, s, run[0]), run[1..]);
    }
  }

  /** Call `c` of the run is answered OK. */
  ghost predicate AnswersOk(cfg: Config, run: seq<Action>, c: nat) {
    var s := Exec(cfg, Initial(cfg), run);
    c < |s.calls| && s.calls[c].phase == Returned(Ok)
  }

  /** `start` alone brings up the first worker. */
  lemma FirstWorker(cfg: Config) returns (s: State)
    requires cfg.threadsMax >= 1
    ensures s == Exec(cfg, Initial(cfg), [Start, Start, Start])
    ensures s == Initial(cfg).(boot := Boot(cfg.InitialThreads() - 1, AtCheck), count := 1, workers := [Looping])
  {
    var s0 := Initial(cfg);
    var s1 := Step(cfg, s0, Start);
    var s2 := Step(cfg, s1, Start);
    s := Step(cfg, s2, Start);
    assert s1 == s0.(boot := s0.boot.(at := AtAdd)) && s2 == s0.(boot := s0.boot.(at := AtLaunch), count := 1);
    assert s == s0.(boot := Boot(cfg.InitialThreads() - 1, AtCheck), count := 1, workers := [Looping]);
    hide Step;
    assert [Start, Start, Start][1..] == [Start, Start] && [Start, Start][1..] == [Start] && [Start][1..] == [];
    assert Exec(cfg, s2, [Start]) == Exec(cfg, s, []) == s;
    assert Exec(cfg, s1, [Start, Start]) == s;
  }

  /** Some run answers some call with OK exactly when a worker may exist and a queue limit is not zero:
      the room for one task that the constructor gives to a queue of capacity zero is of no use if the
      watermark is zero too. */
  lemma ServableIff(cfg: Config)
    ensures (exists run, c: nat :: AnswersOk(cfg, run, c)) <==> Servable(cfg)
  {
    hide Exec;
    if Servable(cfg) {
      var s := FirstWorker(cfg);
      var t := Step(cfg, s, Submit(true, 0));
      var run := LoneCallIsServed(cfg, t, 0, 0, 1, Returns(Ok));
      ExecCons(cfg, s, Submit(true, 0), run);
      ExecAppend(cfg, Initial(cfg), [Start, Start, Start], [Submit(true, 0)] + run);
      assert AnswersOk(cfg, [Start, Start, Start] + ([Submit(true, 0)] + run), 0);
    } else {
      forall run, c: nat ensures !AnswersOk(cfg, run, c) {
        MuteRun(cfg, Initial(cfg), run);
        var s := Exec(cfg, Initial(cfg), run);
        if c < |s.calls| { assert Unserved(s.calls[c]) || NeverQueued(s.calls[c]); }
      }
    }
  }

  // -------------------------------------------------- a caller that nobody disturbs

  /** A caller at this phase will be queued if nobody else moves. */
  predicate WillQueue(cfg: Config, s: State, p: Phase) {
    |s.queue| < cfg.Room() &&
    match p
    case Entered => s.running && (|s.queue| < cfg.highWatermark || |s.queue| < cfg.capacity)
    case CheckHigh => s.running && (|s.queue| < cfg.highWatermark || |s.queue| < cfg.capacity)
    case CheckRunning => s.running
    case Writing => true
    case _ => s.running && |s.queue| < cfg.capacity
  }

  /** Nothing but call `c`, the queue and the pool has moved. */
  predicate OnlyCallMoved(s: State, t: State, c: nat)
    requires c < |s.calls|
  {
    && |t.calls| == |s.calls| && t.calls[c] == s.calls[c].(phase := t.calls[c].phase)
    && (forall d | 0 <= d < |s.calls| && d != c :: t.calls[d] == s.calls[d])
    && t.running == s.running && t.holding == s.holding && t.boot == s.boot
  }

  lemma AdvanceAloneStep(cfg: Config, s: State, c: nat)
    requires c < |s.calls| && s.calls[c].hasResponse && Rank(s.calls[c].phase) > Rank(Waiting)
    ensures var t, p := Step(cfg, s, Advance(c)), s.calls[c].phase;
            OnlyCallMoved(s, t, c) &&
            if WillQueue(cfg, s, p) && p == Writing then t.queue == s.queue + [c] && t.calls[c].phase == Waiting
            else t.queue == s.queue &&
                 ((t.calls[c].phase == Returned(RESOURCE_EXHAUSTED) && !WillQueue(cfg, s, p)) ||
                  (Rank(Waiting) < Rank(t.calls[c].phase) < Rank(p) &&
                   (WillQueue(cfg, t, t.calls[c].phase) <==> WillQueue(cfg, s, p))))
  {
  }

  lemma {:induction false} AdvanceAlone(cfg: Config, s: State, c: nat) returns (run: seq<Action>)
    requires c < |s.calls| && s.calls[c].hasResponse && Rank(s.calls[c].phase) > Rank(Waiting)
    ensures forall a | a in run :: a == Advance(c)
    ensures var t, ok := Exec(cfg, s, run), WillQueue(cfg, s, s.calls[c].phase);
            OnlyCallMoved(s, t, c) && t.queue == (if ok then s.queue + [c] else s.queue) &&
            t.calls[c].phase == if ok then Waiting else Returned(RESOURCE_EXHAUSTED)
    decreases Rank(s.calls[c].phase)
  {
    var a := Advance(c);
    var t := Step(cfg, s, a);
    AdvanceAloneStep(cfg, s, c);
    hide Step;
    hide WillQueue;
    if t.calls[c].phase == Waiting || t.calls[c].phase.Returned? {
      ExecCons(cfg, s, a, []);
      assert Exec(cfg, t, []) == t;
      run := [a] + [];
    } else {
      hide Exec;
      var rest := AdvanceAlone(cfg, t, c);
      ExecCons(cfg, s, a, rest);
      run := [a] + rest;
    }
  }

  /** For every state, every queue length and every caller with a response whose own steps nobody
      disturbs: it ends up queued and waiting if and only if the dispatcher is running, the queue holds
      less than the larger of one and the capacity, and it holds less than the watermark or less than the
      capacity; otherwise the call is refused. A caller without a response is turned away at once. */
  lemma CallAloneIff(cfg: Config, s: State, c: nat) returns (run: seq<Action>)
    requires c < |s.calls| && s.calls[c].phase == Entered
    ensures forall a | a in run :: a == Advance(c)
    ensures var t, n := Exec(cfg, s, run), |s.queue|;
            var room := if cfg.capacity < 1 then 1 else cfg.capacity;
            var accepted := s.calls[c].hasResponse && s.running && n < room &&
                            (n < cfg.highWatermark || n < cfg.capacity);
            OnlyCallMoved(s, t, c) && t.queue == (if accepted then s.queue + [c] else s.queue) &&
            t.calls[c].phase == if accepted then Waiting
                                else if s.calls[c].hasResponse then Returned(Error(8)) else Returned(Error(3))
  {
    if s.calls[c].hasResponse {
      run := AdvanceAlone(cfg, s, c);
    } else {
      var t := Step(cfg, s, Advance(c));
      assert t == SetPhase(s, c, Returned(INVALID_ARGUMENT));
      hide Step;
      ExecCons(cfg, s, Advance(c), []);
      run := [Advance(c)] + [];
    }
  }

  // ------------------------------------------------------------------ start alone

  lemma {:induction false} StartSpawns(cfg: Config, s: State) returns (run: seq<Action>)
    requires s.boot.at == AtCheck
    ensures forall a | a in run :: a == Start
    ensures var room: nat := if s.count < cfg.threadsMax then cfg.threadsMax - s.count else 0;
            var k := if s.boot.left < room then s.boot.left else room;
            var t := Exec(cfg, s, run);
            t == s.(boot := Boot(0, AtCheck), count := s.count + k, workers := t.workers) &&
            |t.workers| == |s.workers| + k
    decreases s.boot.left
  {
    if s.boot.left == 0 {
      run := [];
    } else if s.count >= cfg.threadsMax {
      var t := s.(boot := Boot(s.boot.left - 1, AtCheck));
      assert Step(cfg, s, Start) == t;
      hide Step;
      hide Exec;
      var rest := StartSpawns(cfg, t);
      ExecCons(cfg, s, Start, rest);
      run := [Start] + rest;
    } else {
      var s1 := s.(boot := s.boot.(at := AtAdd));
      var s2 := s.(boot := s.boot.(at := AtLaunch), count := s.count + 1);
      var t := s.(boot := Boot(s.boot.left - 1, AtCheck), count := s.count + 1, workers := s.workers + [Looping]);
      assert Step(cfg, s, Start) == s1 && Step(cfg, s1, Start) == s2 && Step(cfg, s2, Start) == t;
      hide Step;
      hide Exec;
      var rest := StartSpawns(cfg, t);
      ExecCons(cfg, s2, Start, rest);
      ExecCons(cfg, s1, Start, [Start] + rest);
      ExecCons(cfg, s, Start, [Start] + ([Start] + rest));
      run := [Start] + ([Start] + ([Start] + rest));
    }
  }

  /** Left alone, `start` brings up the smaller of minimum and maximum, but at least one worker if the
      maximum allows any. */
  lemma StartAlone(cfg: Config) returns (run: seq<Action>)
    ensures forall a | a in run :: a == Start
    ensures var t := Exec(cfg, Initial(cfg), run);
            var n := if cfg.threadsMax < 1 then 0
                     else if cfg.threadsMin < 1 then 1
                     else if cfg.threadsMin < cfg.threadsMax then cfg.threadsMin else cfg.threadsMax;
            t.boot.left == 0 && t.count == n && |t.workers| == n
  {
    run := StartSpawns(cfg, Initial(cfg));
  }
}
