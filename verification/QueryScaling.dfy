/** Growing and shrinking the query worker pool of the manager dispatcher. The counter checks and
    updates are separate atomic steps and no lock spans them. A run is any sequence of actions of a
    fixed number of spawning threads and of the workers; a disabled action changes nothing. */
module QueryScaling {
  import opened Seqs

  /** `threads` threads can be inside `start`, `maybeScaleUpQuery` or `spawnQueryWorker`. */
  datatype Config = Config(min: int, max: int, threads: nat)

  /** A thread on the way to creating a worker. */
  datatype Spawner =
    | Away
    | Gated       // passed the check of `maybeScaleUpQuery`
    | Cleared     // passed the check of `spawnQueryWorker`
    | Counted     // added one to `queryWorkerCount_`, worker thread not created yet

  datatype Worker =
    | Looping
    | Leaving     // decided to leave: idle shrink, or the loop ended
    | Gone        // subtracted one

  datatype State = State(count: int, spawners: seq<Spawner>, workers: seq<Worker>)

  datatype Action =
    | Gate(thread: nat)       // the count check of `maybeScaleUpQuery`
    | Check(thread: nat)      // the count check of `spawnQueryWorker`
    | Add(thread: nat)        // `fetch_add`
    | Launch(thread: nat)     // the worker thread is created
    | Shrink(worker: nat)     // an idle worker sees more than the minimum
    | LeaveLoop(worker: nat)  // the loop condition fails after a stop
    | Sub(worker: nat)        // `fetch_sub`

  function Initial(cfg: Config): State {
    State(0, seq(cfg.threads, _ => Away), [])
  }

  function SetSpawner(s: State, i: nat, p: Spawner): State
    requires i < |s.spawners|
  {
    s.(spawners := s.spawners[i := p])
  }

  function SetWorker(s: State, j: nat, p: Worker): State
    requires j < |s.workers|
  {
    s.(workers := s.workers[j := p])
  }

  function Step(cfg: Config, s: State, a: Action): State {
    match a
    case Gate(i) =>
      if i < |s.spawners| && s.spawners[i] == Away && s.count < cfg.max
      then SetSpawner(s, i, Gated) else s
    case Check(i) =>
      if i < |s.spawners| && s.spawners[i] in {Away, Gated}
      then SetSpawner(s, i, if s.count < cfg.max then Cleared else Away) else s
    case Add(i) =>
      if i < |s.spawners| && s.spawners[i] == Cleared
      then SetSpawner(s, i, Counted).(count := s.count + 1) else s
    case Launch(i) =>
      if i < |s.spawners| && s.spawners[i] == Counted
      then SetSpawner(s, i, Away).(workers := s.workers + [Looping]) else s
    case Shrink(j) =>
      if j < |s.workers| && s.workers[j] == Looping && s.count > cfg.min
      then SetWorker(s, j, Leaving) else s
    case LeaveLoop(j) =>
      if j < |s.workers| && s.workers[j] == Looping then SetWorker(s, j, Leaving) else s
    case Sub(j) =>
      if j < |s.workers| && s.workers[j] == Leaving
      then SetWorker(s, j, Gone).(count := s.count - 1) else s
  }

  function Exec(cfg: Config, s: State, run: seq<Action>): State
    decreases |run|
  {
    if run == [] then s else Exec(cfg, Step(cfg, s, run[0]), run[1..])
  }

  lemma {:induction false} ExecAppend(cfg: Config, s: State, a: seq<Action>, b: seq<Action>)
    ensures Exec(cfg, s, a + b) == Exec(cfg, Exec(cfg, s, a), b)
    decreases |a|
  {
    if a == [] {
      assert a + b == b;
    } else {
      assert (a + b)[0] == a[0] && (a + b)[1..] == a[1..] + b;
      ExecAppend(cfg, Step(cfg, s, a[0]), a[1..], b);
    }
  }

  // ---------------------------------------------------------------- invariant

  function IsCleared(): Spawner -> bool { (p: Spawner) => p == Cleared }
  function IsCounted(): Spawner -> bool { (p: Spawner) => p == Counted }
  function IsPresent(): Worker -> bool { (p: Worker) => p != Gone }

  /** Workers counted in and not yet counted out. */
  function Accounted(s: State): nat {
    Count(IsCounted(), s.spawners) + Count(IsPresent(), s.workers)
  }

  ghost predicate Inv(cfg: Config, s: State) {
    && |s.spawners| == cfg.threads
    && s.count == Accounted(s)
    && (s.count + Count(IsCleared(), s.spawners) > 0 ==>
          s.count + Count(IsCleared(), s.spawners) <= cfg.max - 1 + cfg.threads)
  }

  lemma SpawnerChange(s: State, i: nat, p: Spawner)
    requires i < |s.spawners|
    ensures var t := SetSpawner(s, i, p);
            Count(IsCleared(), t.spawners) == Count(IsCleared(), s.spawners)
              - (if s.spawners[i] == Cleared then 1 else 0) + (if p == Cleared then 1 else 0) &&
            Count(IsCounted(), t.spawners) == Count(IsCounted(), s.spawners)
              - (if s.spawners[i] == Counted then 1 else 0) + (if p == Counted then 1 else 0)
  {
    CountUpdate(IsCleared(), s.spawners, i, p);
    CountUpdate(IsCounted(), s.spawners, i, p);
  }

  lemma StepKeepsInv(cfg: Config, s: State, a: Action)
    requires Inv(cfg, s)
    ensures Inv(cfg, Step(cfg, s, a))
  {
    hide Count;
    match a
    case Gate(i) =>
      if i < |s.spawners| { SpawnerChange(s, i, Gated); }
    case Check(i) =>
      if i < |s.spawners| {
        SpawnerChange(s, i, Cleared);
        SpawnerChange(s, i, Away);
        CountBound(IsCleared(), SetSpawner(s, i, Cleared).spawners);
      }
    case Add(i) =>
      if i < |s.spawners| { SpawnerChange(s, i, Counted); }
    case Launch(i) =>
      if i < |s.spawners| {
        SpawnerChange(s, i, Away);
        CountAppend(IsPresent(), s.workers, [Looping]);
        CountBound(IsPresent(), [Looping]);
      }
    case Shrink(j) =>
      if j < |s.workers| { CountUpdate(IsPresent(), s.workers, j, Leaving); }
    case LeaveLoop(j) =>
      if j < |s.workers| { CountUpdate(IsPresent(), s.workers, j, Leaving); }
    case Sub(j) =>
      if j < |s.workers| { CountUpdate(IsPresent(), s.workers, j, Gone); }
  }

  lemma {:induction false} RunKeepsInv(cfg: Config, s: State, run: seq<Action>)
    requires Inv(cfg, s)
    ensures Inv(cfg, Exec(cfg, s, run))
    decreases |run|
  {
    if run != [] {
      StepKeepsInv(cfg, s, run[0]);
      RunKeepsInv(cfg, Step(cfg, s, run[0]), run[1..]);
    }
  }

  lemma InitialInv(cfg: Config)
    ensures Inv(cfg, Initial(cfg))
  {
    CountBound(IsCleared(), Initial(cfg).spawners);
    CountBound(IsCounted(), Initial(cfg).spawners);
  }

  /** In every reachable state the counter equals the workers counted in and not out, and unless the
      pool is empty it is at most the configured maximum minus one plus the spawning threads. */
  lemma WorkerCountBound(cfg: Config, run: seq<Action>)
    ensures var s := Exec(cfg, Initial(cfg), run);
            s.count == Accounted(s) &&
            (s.count == 0 || s.count <= cfg.max - 1 + cfg.threads)
  {
    InitialInv(cfg);
    RunKeepsInv(cfg, Initial(cfg), run);
  }

  // ---------------------------------------------------------------- tightness

  /** `k` looping workers; the first `cleared` threads have passed the check, of which the first
      `added` have added one. */
  function Picture(cfg: Config, k: nat, cleared: nat, added: nat): State {
    State(k + added,
          seq(cfg.threads, i => if i < added then Counted else if i < cleared then Cleared else Away),
          seq(k, _ => Looping))
  }

  /** One thread alone fills the pool up to any size not above the maximum. */
  lemma {:induction false} FillPool(cfg: Config, k: nat) returns (run: seq<Action>)
    requires cfg.threads >= 1 && k <= cfg.max
    ensures Exec(cfg, Initial(cfg), run) == Picture(cfg, k, 0, 0)
    ensures forall a | a in run :: !a.LeaveLoop?
  {
    if k == 0 {
      run := [];
      assert Initial(cfg) == Picture(cfg, 0, 0, 0);
    } else {
      var before := FillPool(cfg, k - 1);
      var more := [Check(0), Add(0), Launch(0)];
      run := before + more;
      ExecAppend(cfg, Initial(cfg), before, more);
      var s0 := Picture(cfg, k - 1, 0, 0);
      var s1 := Step(cfg, s0, Check(0));
      var s2 := Step(cfg, s1, Add(0));
      var s3 := Step(cfg, s2, Launch(0));
      assert s3 == Picture(cfg, k, 0, 0) by {
        assert s3.spawners == s0.spawners;
      }
      assert more[1..] == [Add(0), Launch(0)] && more[1..][1..] == [Launch(0)];
      assert Exec(cfg, s2, [Launch(0)]) == s3;
    }
  }

  lemma {:induction false} ClearAll(cfg: Config, k: nat, cleared: nat) returns (run: seq<Action>)
    requires k < cfg.max && cleared <= cfg.threads
    ensures Exec(cfg, Picture(cfg, k, 0, 0), run) == Picture(cfg, k, cleared, 0)
    ensures forall a | a in run :: !a.LeaveLoop?
  {
    if cleared == 0 {
      run := [];
    } else {
      var before := ClearAll(cfg, k, cleared - 1);
      run := before + [Check(cleared - 1)];
      ExecAppend(cfg, Picture(cfg, k, 0, 0), before, [Check(cleared - 1)]);
      var s := Picture(cfg, k, cleared - 1, 0);
      assert Step(cfg, s, Check(cleared - 1)) == Picture(cfg, k, cleared, 0);
    }
  }

  lemma {:induction false} AddAll(cfg: Config, k: nat, added: nat) returns (run: seq<Action>)
    requires added <= cfg.threads
    ensures Exec(cfg, Picture(cfg, k, cfg.threads, 0), run) == Picture(cfg, k, cfg.threads, added)
    ensures forall a | a in run :: !a.LeaveLoop?
  {
    if added == 0 {
      run := [];
    } else {
      var before := AddAll(cfg, k, added - 1);
      run := before + [Add(added - 1)];
      ExecAppend(cfg, Picture(cfg, k, cfg.threads, 0), before, [Add(added - 1)]);
      var s := Picture(cfg, k, cfg.threads, added - 1);
      assert Step(cfg, s, Add(added - 1)) == Picture(cfg, k, cfg.threads, added);
    }
  }

  /** The bound is reached: all threads pass the check while one slot is left, then all add. */
  lemma WorkerCountBoundIsReached(cfg: Config) returns (run: seq<Action>)
    requires cfg.threads >= 1 && cfg.max >= 1
    ensures Exec(cfg, Initial(cfg), run).count == cfg.max - 1 + cfg.threads
  {
    var k := cfg.max - 1;
    var fill := FillPool(cfg, k);
    var clear := ClearAll(cfg, k, cfg.threads);
    var add := AddAll(cfg, k, cfg.threads);
    run := fill + (clear + add);
    ExecAppend(cfg, Initial(cfg), fill, clear + add);
    ExecAppend(cfg, Picture(cfg, k, 0, 0), clear, add);
  }

  // ----------------------------------------------------------- no lower bound

  /** `k` workers, of which the first `leaving` have decided to leave and the first `gone` have
      subtracted one. */
  function ShrinkPicture(cfg: Config, k: nat, leaving: nat, gone: nat): State {
    State(k - gone, seq(cfg.threads, _ => Away),
          seq(k, i => if i < gone then Gone else if i < leaving then Leaving else Looping))
  }

  lemma {:induction false} DecideAll(cfg: Config, k: nat, leaving: nat) returns (run: seq<Action>)
    requires k > cfg.min && leaving <= k
    ensures Exec(cfg, ShrinkPicture(cfg, k, 0, 0), run) == ShrinkPicture(cfg, k, leaving, 0)
    ensures forall a | a in run :: !a.LeaveLoop?
  {
    if leaving == 0 {
      run := [];
    } else {
      var before := DecideAll(cfg, k, leaving - 1);
      run := before + [Shrink(leaving - 1)];
      ExecAppend(cfg, ShrinkPicture(cfg, k, 0, 0), before, [Shrink(leaving - 1)]);
      var s := ShrinkPicture(cfg, k, leaving - 1, 0);
      assert Step(cfg, s, Shrink(leaving - 1)) == ShrinkPicture(cfg, k, leaving, 0);
    }
  }

  lemma {:induction false} SubAll(cfg: Config, k: nat, gone: nat) returns (run: seq<Action>)
    requires gone <= k
    ensures Exec(cfg, ShrinkPicture(cfg, k, k, 0), run) == ShrinkPicture(cfg, k, k, gone)
    ensures forall a | a in run :: !a.LeaveLoop?
  {
    if gone == 0 {
      run := [];
    } else {
      var before := SubAll(cfg, k, gone - 1);
      run := before + [Sub(gone - 1)];
      ExecAppend(cfg, ShrinkPicture(cfg, k, k, 0), before, [Sub(gone - 1)]);
      var s := ShrinkPicture(cfg, k, k, gone - 1);
      assert Step(cfg, s, Sub(gone - 1)) == ShrinkPicture(cfg, k, k, gone);
    }
  }

  /** `k + launched` looping workers; the last of the threads have added one and not launched yet. */
  function LaunchPicture(cfg: Config, k: nat, launched: nat): State {
    State(k + cfg.threads,
          seq(cfg.threads, i => if i < launched then Away else Counted),
          seq(k + launched, _ => Looping))
  }

  lemma {:induction false} LaunchAll(cfg: Config, k: nat, launched: nat) returns (run: seq<Action>)
    requires launched <= cfg.threads
    ensures Exec(cfg, LaunchPicture(cfg, k, 0), run) == LaunchPicture(cfg, k, launched)
    ensures forall a | a in run :: !a.LeaveLoop?
  {
    if launched == 0 {
      run := [];
    } else {
      var before := LaunchAll(cfg, k, launched - 1);
      run := before + [Launch(launched - 1)];
      ExecAppend(cfg, LaunchPicture(cfg, k, 0), before, [Launch(launched - 1)]);
      var s := LaunchPicture(cfg, k, launched - 1);
      assert Step(cfg, s, Launch(launched - 1)) == LaunchPicture(cfg, k, launched);
    }
  }

  /** Workers were launched, none is left, and none is on its way. */
  predicate Emptied(s: State) {
    s.workers != [] && s.count == 0
  }

  /** No worker has left by a stop. */
  predicate WithoutStop(run: seq<Action>) {
    forall a | a in run :: !a.LeaveLoop?
  }

  /** The most workers there can be is above the minimum. */
  predicate CanShrink(cfg: Config) {
    cfg.threads >= 1 && cfg.max >= 1 && cfg.max - 1 + cfg.threads > cfg.min
  }

  /** All threads overshoot the maximum, then all workers see more than the minimum, then all leave. */
  lemma OvershootThenEmpty(cfg: Config) returns (run: seq<Action>)
    requires CanShrink(cfg)
    ensures WithoutStop(run) && Emptied(Exec(cfg, Initial(cfg), run))
  {
    var k, n := cfg.max - 1, cfg.max - 1 + cfg.threads;
    var fill := FillPool(cfg, k);
    var clear := ClearAll(cfg, k, cfg.threads);
    var add := AddAll(cfg, k, cfg.threads);
    var launch := LaunchAll(cfg, k, cfg.threads);
    var decide := DecideAll(cfg, n, n);
    var sub := SubAll(cfg, n, n);
    run := fill + (clear + (add + (launch + (decide + sub))));
    ExecAppend(cfg, Initial(cfg), fill, clear + (add + (launch + (decide + sub))));
    ExecAppend(cfg, Picture(cfg, k, 0, 0), clear, add + (launch + (decide + sub)));
    ExecAppend(cfg, Picture(cfg, k, cfg.threads, 0), add, launch + (decide + sub));
    assert Picture(cfg, k, cfg.threads, cfg.threads) == LaunchPicture(cfg, k, 0);
    ExecAppend(cfg, LaunchPicture(cfg, k, 0), launch, decide + sub);
    assert LaunchPicture(cfg, k, cfg.threads) == ShrinkPicture(cfg, n, 0, 0);
    ExecAppend(cfg, ShrinkPicture(cfg, n, 0, 0), decide, sub);
  }

  /** Without room above the minimum nobody shrinks. */
  ghost predicate Steady(cfg: Config, s: State) {
    && Inv(cfg, s)
    && (forall p | p in s.workers :: p == Looping)
    && (cfg.max < 1 || cfg.threads < 1 ==> s.count + Count(IsCleared(), s.spawners) == 0)
  }

  lemma SteadyStep(cfg: Config, s: State, a: Action)
    requires Steady(cfg, s) && !CanShrink(cfg) && !a.LeaveLoop?
    ensures Steady(cfg, Step(cfg, s, a))
  {
    hide Count;
    StepKeepsInv(cfg, s, a);
    match a
    case Gate(i) => if i < |s.spawners| { SpawnerChange(s, i, Gated); }
    case Check(i) => if i < |s.spawners| { SpawnerChange(s, i, Away); }
    case Add(i) => if i < |s.spawners| { SpawnerChange(s, i, Counted); }
    case Launch(i) => if i < |s.spawners| { SpawnerChange(s, i, Away); }
    case Shrink(j) =>
      if j < |s.workers| {
        assert s.workers[j] in s.workers && IsPresent()(s.workers[j]);
        CountBound(IsPresent(), s.workers);
      }
    case Sub(j) =>
      if j < |s.workers| { assert s.workers[j] in s.workers; }
    case LeaveLoop(j) =>
  }

  lemma {:induction false} SteadyRun(cfg: Config, s: State, run: seq<Action>)
    requires Steady(cfg, s) && !CanShrink(cfg) && WithoutStop(run)
    ensures Steady(cfg, Exec(cfg, s, run))
    decreases |run|
  {
    hide Steady;
    hide Step;
    if run != [] {
      assert run[0] in run;
      SteadyStep(cfg, s, run[0]);
      SteadyRun(cfg, Step(cfg, s, run[0]), run[1..]);
    }
  }

  lemma SteadyIsNotEmptied(cfg: Config, s: State)
    requires Steady(cfg, s)
    ensures !Emptied(s)
  {
    if s.workers != [] {
      assert s.workers[0] in s.workers && IsPresent()(s.workers[0]);
      CountBound(IsPresent(), s.workers);
    }
  }

  /** The configured minimum is no floor: idle shrinking alone can leave no worker at all exactly when
      the count can exceed the minimum, that is when the maximum minus one plus the spawning threads
      does. */
  lemma ShrinkCanEmptyIff(cfg: Config)
    ensures (exists run :: WithoutStop(run) && Emptied(Exec(cfg, Initial(cfg), run))) <==> CanShrink(cfg)
  {
    if CanShrink(cfg) {
      var run := OvershootThenEmpty(cfg);
    } else {
      forall run | WithoutStop(run) ensures !Emptied(Exec(cfg, Initial(cfg), run)) {
        InitialInv(cfg);
        CountBound(IsCleared(), Initial(cfg).spawners);
        SteadyRun(cfg, Initial(cfg), run);
        SteadyIsNotEmptied(cfg, Exec(cfg, Initial(cfg), run));
      }
    }
  }
}
