/** The query path without workers: what callers get when every worker has left, what ends it, and in
    which configurations idle shrinking alone can bring it about. */
module QueryOutage {
  import opened Options
  import opened Seqs
  import opened QueryCalls
  import opened QueryWorkers

  // ------------------------------------------------------ when every worker left

  /** All workers have ended, `start` is through, and no caller is past the checks of a scale-up. */
  ghost predicate Unattended(s: State) {
    && (forall w | 0 <= w < |s.workers| :: s.workers[w] == Gone)
    && s.boot.left == 0
    && (forall c | 0 <= c < |s.calls| :: !s.calls[c].phase.ScaleCount? && !s.calls[c].phase.Spawning?)
  }

  /** The promises of `s` are those of `t`, and calls that came later have none. */
  ghost predicate NothingAnswered(s: State, t: State) {
    |s.calls| <= |t.calls| &&
    forall c | 0 <= c < |t.calls| ::
      t.calls[c].promise == if c < |s.calls| then s.calls[c].promise else None
  }

  lemma MovedStaysUnattended(cfg: Config, s: State, call: Call)
    requires !call.phase.ScaleCount? && !call.phase.Spawning? && |s.queue| < cfg.highWatermark
    ensures var m := Moved(cfg, s, call);
            !m.phase.ScaleCount? && !m.phase.Spawning? && m.promise == call.promise
  {
  }

  lemma UnattendedStep(cfg: Config, s: State, a: Action)
    requires Inv(cfg, s) && Unattended(s) && |s.queue| < cfg.highWatermark
    ensures Unattended(Step(cfg, s, a)) && NothingAnswered(s, Step(cfg, s, a))
  {
    if w :| w in s.holding { HoldersLoop(cfg, s, w); }
    hide Inv;
    if a.Advance? && a.call < |s.calls| { MovedStaysUnattended(cfg, s, s.calls[a.call]); }
    hide Moved;
  }

  lemma AnsweredChain(s: State, t: State, u: State)
    requires NothingAnswered(s, t) && NothingAnswered(t, u)
    ensures NothingAnswered(s, u)
  {
  }

  /** With no worker left, as long as the queue stays below the watermark no call is answered by its
      task, whoever calls, and no worker comes back. */
  lemma {:induction false} NobodyAnswers(cfg: Config, s: State, run: seq<Action>)
    requires Inv(cfg, s) && Unattended(s)
    requires forall n | 0 <= n < |run| :: |Exec(cfg, s, run[..n]).queue| < cfg.highWatermark
    ensures Unattended(Exec(cfg, s, run)) && NothingAnswered(s, Exec(cfg, s, run))
    decreases |run|
  {
    hide Step;
    hide Inv;
    hide Unattended;
    if run != [] {
      var t := Step(cfg, s, run[0]);
      assert run[..0] == [] && |s.queue| < cfg.highWatermark;
      UnattendedStep(cfg, s, run[0]);
      StepKeepsInv(cfg, s, run[0]);
      forall n | 0 <= n < |run[1..]| ensures |Exec(cfg, t, run[1..][..n]).queue| < cfg.highWatermark {
        assert run[..n + 1] == [run[0]] + run[1..][..n];
        ExecCons(cfg, s, run[0], run[1..][..n]);
      }
      NobodyAnswers(cfg, t, run[1..]);
      assert Exec(cfg, s, run) == Exec(cfg, t, run[1..]);
      AnsweredChain(s, t, Exec(cfg, t, run[1..]));
    }
  }

  /** So every call that comes in meanwhile and returns gets an error of the dispatcher itself. */
  lemma NewCallsAreRefused(cfg: Config, s: State, run: seq<Action>, c: nat)
    requires Inv(cfg, s) && Unattended(s)
    requires forall n | 0 <= n < |run| :: |Exec(cfg, s, run[..n]).queue| < cfg.highWatermark
    requires |s.calls| <= c < |Exec(cfg, s, run).calls| && Exec(cfg, s, run).calls[c].phase.Returned?
    ensures var call := Exec(cfg, s, run).calls[c];
            OwnStatus(call, call.phase.status) && call.response == call.initial
  {
    NobodyAnswers(cfg, s, run);
    RunKeepsInv(cfg, s, run);
    hide Exec;
    assert CallInv(Exec(cfg, s, run).calls[c]);
  }

  /** At the watermark the next caller brings a worker, and the oldest queued task gets its outcome. */
  lemma WatermarkBringsWorker(cfg: Config, s: State, end: TaskEnd) returns (run: seq<Action>)
    requires Inv(cfg, s) && s.queue != [] && |s.queue| >= cfg.highWatermark && s.count + 1 <= cfg.threadsMax
    ensures var t := Exec(cfg, s, run);
            s.queue[0] < |t.calls| && t.calls[s.queue[0]].promise == Some(StatusOf(end))
  {
    assert s.queue[0] in s.queue;
    var c, w, head := |s.calls|, |s.workers|, s.queue[0];
    if w in s.holding { HoldersLoop(cfg, s, w); }
    var s1 := Step(cfg, s, Submit(true, 0));
    hide Inv;
    run := CallerSpawns(cfg, s1, c);
    var s2 := Exec(cfg, s1, run);
    var s3 := Step(cfg, s2, Take(w));
    assert s3.holding[w] == head;
    ghost var s4 := Step(cfg, s3, Finish(w, end));
    assert s4.calls[head].promise == Some(StatusOf(end));
    hide Step;
    ExecAppend(cfg, s1, run, [Take(w)] + ([Finish(w, end)] + []));
    ExecCons(cfg, s2, Take(w), [Finish(w, end)] + []);
    ExecCons(cfg, s3, Finish(w, end), []);
    ExecCons(cfg, s, Submit(true, 0), run + ([Take(w)] + ([Finish(w, end)] + [])));
    run := [Submit(true, 0)] + (run + ([Take(w)] + ([Finish(w, end)] + [])));
    assert Exec(cfg, s4, []) == s4;
  }

  lemma CallerSpawns(cfg: Config, s: State, c: nat) returns (run: seq<Action>)
    requires c < |s.calls| && s.calls[c].phase == Entered && s.calls[c].hasResponse
    requires |s.queue| >= cfg.highWatermark && s.count + 1 <= cfg.threadsMax
    ensures Exec(cfg, s, run) == SetPhase(s, c, CheckFull).(count := s.count + 1, workers := s.workers + [Looping])
  {
    var a := Advance(c);
    var s1 := SetPhase(s, c, CheckHigh);
    var s2 := SetPhase(s, c, ScaleQueue);
    var s3 := SetPhase(s, c, ScaleCount);
    var s4 := SetPhase(s, c, Spawning(AtCheck));
    var s5 := SetPhase(s, c, Spawning(AtAdd));
    var s6 := SetPhase(s, c, Spawning(AtLaunch)).(count := s.count + 1);
    var s7 := SetPhase(s, c, CheckFull).(count := s.count + 1, workers := s.workers + [Looping]);
    assert Step(cfg, s, a) == s1;
    assert Step(cfg, s1, a) == s2;
    assert Step(cfg, s2, a) == s3;
    assert Step(cfg, s3, a) == s4;
    assert Step(cfg, s4, a) == s5;
    assert Step(cfg, s5, a) == s6;
    assert Step(cfg, s6, a) == s7;
    hide Step;
    run := [a] + [];
    ExecCons(cfg, s6, a, []);
    assert Exec(cfg, s7, []) == s7;
    hide Exec;
    ExecCons(cfg, s5, a, run);
    run := [a] + run;
    ExecCons(cfg, s4, a, run);
    run := [a] + run;
    ExecCons(cfg, s3, a, run);
    run := [a] + run;
    ExecCons(cfg, s2, a, run);
    run := [a] + run;
    ExecCons(cfg, s1, a, run);
    run := [a] + run;
    ExecCons(cfg, s, a, run);
    run := [a] + run;
  }

  // ----------------------------------------------- how it comes to no worker at all

  /** Each worker from `i` on reads the empty queue and passes the shrink check before anyone has
      subtracted itself. */
  lemma {:induction false} AllDecide(cfg: Config, s: State, i: nat) returns (run: seq<Action>)
    requires i <= |s.workers| && s.queue == [] && s.holding == map[] && s.count > cfg.threadsMin
    requires forall k | 0 <= k < |s.workers| :: s.workers[k] == Gone || (k >= i && s.workers[k] == Looping) ||
                                                (k < i && s.workers[k] == Leaving)
    ensures var t := Exec(cfg, s, run);
            t == s.(workers := t.workers) && |t.workers| == |s.workers| &&
            forall k | 0 <= k < |t.workers| :: t.workers[k] == Gone || t.workers[k] == Leaving
    decreases |s.workers| - i
  {
    if i == |s.workers| {
      run := [];
    } else if s.workers[i] == Gone {
      run := AllDecide(cfg, s, i + 1);
    } else {
      var s1 := SetWorker(s, i, Missed);
      var s2 := SetWorker(s, i, Leaving);
      assert Step(cfg, s, Take(i)) == s1 && Step(cfg, s1, Idle(i, true)) == s2;
      hide Step;
      hide Exec;
      var rest := AllDecide(cfg, s2, i + 1);
      ExecCons(cfg, s1, Idle(i, true), rest);
      ExecCons(cfg, s, Take(i), [Idle(i, true)] + rest);
      run := [Take(i)] + ([Idle(i, true)] + rest);
    }
  }

  lemma {:induction false} AllSubtract(cfg: Config, s: State, i: nat) returns (run: seq<Action>)
    requires i <= |s.workers|
    requires forall k | 0 <= k < |s.workers| :: s.workers[k] == Gone || (k >= i && s.workers[k] == Leaving)
    ensures var t := Exec(cfg, s, run);
            t == s.(workers := t.workers, count := t.count) && |t.workers| == |s.workers| &&
            forall k | 0 <= k < |t.workers| :: t.workers[k] == Gone
    decreases |s.workers| - i
  {
    if i == |s.workers| {
      run := [];
    } else if s.workers[i] == Gone {
      run := AllSubtract(cfg, s, i + 1);
    } else {
      var t := Step(cfg, s, Sub(i));
      assert t == SetWorker(s, i, Gone).(count := s.count - 1);
      hide Step;
      hide Exec;
      var rest := AllSubtract(cfg, t, i + 1);
      ExecCons(cfg, s, Sub(i), rest);
      run := [Sub(i)] + rest;
    }
  }

  /** Whenever more than the minimum of workers are counted and all of them are free, they can all
      leave, and the dispatcher is unattended. */
  lemma AllWorkersCanLeave(cfg: Config, s: State) returns (run: seq<Action>)
    requires s.queue == [] && s.holding == map[] && s.count > cfg.threadsMin && s.boot.left == 0
    requires forall w | 0 <= w < |s.workers| :: s.workers[w] == Looping || s.workers[w] == Gone
    requires forall c | 0 <= c < |s.calls| :: !s.calls[c].phase.ScaleCount? && !s.calls[c].phase.Spawning?
    ensures var t := Exec(cfg, s, run);
            Unattended(t) && t.calls == s.calls && t.queue == [] && t.running == s.running &&
            |t.workers| == |s.workers|
  {
    hide Step;
    var decide := AllDecide(cfg, s, 0);
    var sub := AllSubtract(cfg, Exec(cfg, s, decide), 0);
    run := decide + sub;
    ExecAppend(cfg, s, decide, sub);
  }

  // -------------------------------------------------- when it can come to that

  /** Workers have been there, all of them have left, and nobody stopped the dispatcher. */
  ghost predicate Outage(s: State) {
    s.running && s.workers != [] && Unattended(s)
  }

  /** A caller that meets room below the watermark ends up waiting for its queued task. */
  lemma CallQueues(cfg: Config, s: State) returns (run: seq<Action>)
    requires s.running && |s.queue| < cfg.highWatermark && |s.queue| < cfg.Room()
    ensures Exec(cfg, s, run) ==
            s.(queue := s.queue + [|s.calls|], calls := s.calls + [Call(true, 0, 0, Waiting, 0, None)])
  {
    var c, a := |s.calls|, Advance(|s.calls|);
    var s1 := WithCall(s, Entered);
    assert Step(cfg, s, Submit(true, 0)) == s1;
    assert Step(cfg, s1, a) == WithCall(s, CheckHigh);
    assert Step(cfg, WithCall(s, CheckHigh), a) == WithCall(s, CheckRunning);
    assert Step(cfg, WithCall(s, CheckRunning), a) == WithCall(s, Writing);
    var s5 := WithCall(s, Waiting).(queue := s.queue + [c]);
    assert Step(cfg, WithCall(s, Writing), a) == s5;
    hide Step;
    ExecCons(cfg, WithCall(s, Writing), a, []);
    assert Exec(cfg, s5, []) == s5;
    hide Exec;
    run := [a] + [];
    ExecCons(cfg, WithCall(s, CheckRunning), a, run);
    run := [a] + run;
    ExecCons(cfg, WithCall(s, CheckHigh), a, run);
    run := [a] + run;
    ExecCons(cfg, s1, a, run);
    run := [a] + run;
    ExecCons(cfg, s, Submit(true, 0), run);
    run := [Submit(true, 0)] + run;
  }

  /** `s` with one more call, in phase `p`. */
  function WithCall(s: State, p: Phase): State {
    s.(calls := s.calls + [Call(true, 0, 0, p, 0, None)])
  }

  /** `s` with `k` more calls, all in phase `p`. */
  function WithCalls(s: State, k: nat, p: Phase): State {
    s.(calls := s.calls + seq(k, _ => Call(true, 0, 0, p, 0, None)))
  }

  lemma {:induction false} FillQueue(cfg: Config, s: State, n: nat) returns (run: seq<Action>)
    requires s.running && |s.queue| + n <= cfg.highWatermark && |s.queue| + n <= cfg.Room()
    ensures var t := Exec(cfg, s, run);
            t == WithCalls(s, n, Waiting).(queue := t.queue) && |t.queue| == |s.queue| + n
    decreases n
  {
    if n == 0 {
      run := [];
      assert WithCalls(s, 0, Waiting).calls == s.calls;
    } else {
      var first := CallQueues(cfg, s);
      var t := Exec(cfg, s, first);
      var rest := FillQueue(cfg, t, n - 1);
      ExecAppend(cfg, s, first, rest);
      run := first + rest;
      hide Exec;
      OneMoreCall(s, n, Waiting);
    }
  }

  lemma OneMoreCall(s: State, k: nat, p: Phase)
    requires k > 0
    ensures WithCalls(WithCall(s, p), k - 1, p) == WithCalls(s, k, p)
  {
    var call := Call(true, 0, 0, p, 0, None);
    assert s.calls + [call] + seq(k - 1, _ => call) == s.calls + seq(k, _ => call);
  }

  /** A caller that meets the watermark gets past the checks of a scale-up. */
  lemma CallPassesChecks(cfg: Config, s: State) returns (run: seq<Action>)
    requires |s.queue| >= cfg.highWatermark && s.count < cfg.threadsMax
    ensures Exec(cfg, s, run) == WithCall(s, Spawning(AtAdd))
  {
    var a := Advance(|s.calls|);
    assert Step(cfg, s, Submit(true, 0)) == WithCall(s, Entered);
    assert Step(cfg, WithCall(s, Entered), a) == WithCall(s, CheckHigh);
    assert Step(cfg, WithCall(s, CheckHigh), a) == WithCall(s, ScaleQueue);
    assert Step(cfg, WithCall(s, ScaleQueue), a) == WithCall(s, ScaleCount);
    assert Step(cfg, WithCall(s, ScaleCount), a) == WithCall(s, Spawning(AtCheck));
    assert Step(cfg, WithCall(s, Spawning(AtCheck)), a) == WithCall(s, Spawning(AtAdd));
    hide Step;
    ExecCons(cfg, WithCall(s, Spawning(AtCheck)), a, []);
    assert Exec(cfg, WithCall(s, Spawning(AtAdd)), []) == WithCall(s, Spawning(AtAdd));
    hide Exec;
    run := [a] + [];
    ExecCons(cfg, WithCall(s, ScaleCount), a, run);
    run := [a] + run;
    ExecCons(cfg, WithCall(s, ScaleQueue), a, run);
    run := [a] + run;
    ExecCons(cfg, WithCall(s, CheckHigh), a, run);
    run := [a] + run;
    ExecCons(cfg, WithCall(s, Entered), a, run);
    run := [a] + run;
    ExecCons(cfg, s, Submit(true, 0), run);
    run := [Submit(true, 0)] + run;
  }

  lemma {:induction false} ManyPassChecks(cfg: Config, s: State, k: nat) returns (run: seq<Action>)
    requires |s.queue| >= cfg.highWatermark && s.count < cfg.threadsMax
    ensures Exec(cfg, s, run) == WithCalls(s, k, Spawning(AtAdd))
    decreases k
  {
    if k == 0 {
      run := [];
      assert WithCalls(s, 0, Spawning(AtAdd)).calls == s.calls;
    } else {
      var first := CallPassesChecks(cfg, s);
      var rest := ManyPassChecks(cfg, WithCall(s, Spawning(AtAdd)), k - 1);
      ExecAppend(cfg, s, first, rest);
      run := first + rest;
      hide Exec;
      OneMoreCall(s, k, Spawning(AtAdd));
    }
  }

  /** The callers from `c` on, all past the check, add and launch one worker each. */
  lemma {:induction false} AllLaunch(cfg: Config, s: State, c: nat) returns (run: seq<Action>)
    requires c <= |s.calls| && forall d | c <= d < |s.calls| :: s.calls[d].phase == Spawning(AtAdd)
    ensures var t, k := Exec(cfg, s, run), |s.calls| - c;
            t == s.(calls := t.calls, count := s.count + k, workers := s.workers + seq(k, _ => Looping)) &&
            |t.calls| == |s.calls| && (forall d | 0 <= d < c :: t.calls[d] == s.calls[d]) &&
            (forall d | c <= d < |t.calls| :: t.calls[d] == s.calls[d].(phase := CheckFull))
    decreases |s.calls| - c
  {
    if c == |s.calls| {
      run := [];
      assert s.workers + seq(0, _ => Looping) == s.workers;
    } else {
      var t := LaunchOne(cfg, s, c);
      var rest := AllLaunch(cfg, t, c + 1);
      ExecAppend(cfg, s, [Advance(c), Advance(c)], rest);
      run := [Advance(c), Advance(c)] + rest;
      hide Exec;
      var k := |s.calls| - c;
      assert s.workers + [Looping] + seq(k - 1, _ => Looping) == s.workers + seq(k, _ => Looping);
    }
  }

  lemma LaunchOne(cfg: Config, s: State, c: nat) returns (t: State)
    requires c < |s.calls| && s.calls[c].phase == Spawning(AtAdd)
    ensures t == Exec(cfg, s, [Advance(c), Advance(c)])
    ensures t == SetPhase(s, c, CheckFull).(count := s.count + 1, workers := s.workers + [Looping])
  {
    var s1 := SetPhase(s, c, Spawning(AtLaunch)).(count := s.count + 1);
    t := SetPhase(s, c, CheckFull).(count := s.count + 1, workers := s.workers + [Looping]);
    assert Step(cfg, s, Advance(c)) == s1;
    assert Step(cfg, s1, Advance(c)) == t;
    hide Step;
    assert [Advance(c), Advance(c)] == [Advance(c)] + ([Advance(c)] + []);
    ExecCons(cfg, s, Advance(c), [Advance(c)] + []);
    ExecCons(cfg, s1, Advance(c), []);
    assert Exec(cfg, t, []) == t;
  }

  /** With the maximum reached `start` gives up the rest of its workers. */
  lemma {:induction false} StartEnds(cfg: Config, s: State) returns (run: seq<Action>)
    requires s.count >= cfg.threadsMax && s.boot.at == AtCheck
    ensures Exec(cfg, s, run) == s.(boot := Boot(0, AtCheck))
    decreases s.boot.left
  {
    if s.boot.left == 0 {
      run := [];
    } else {
      var t := s.(boot := Boot(s.boot.left - 1, AtCheck));
      assert Step(cfg, s, Start) == t;
      hide Step;
      hide Exec;
      var rest := StartEnds(cfg, t);
      ExecCons(cfg, s, Start, rest);
      run := [Start] + rest;
    }
  }

  lemma HeadIsServed(cfg: Config, s: State, w: nat)
    requires Inv(cfg, s) && Free(s, w) && s.queue != []
    ensures var t := Step(cfg, Step(cfg, s, Take(w)), Finish(w, Returns(Ok)));
            t == s.(queue := s.queue[1..], calls := t.calls) && |t.calls| == |s.calls| &&
            forall c | 0 <= c < |s.calls| :: t.calls[c].phase == s.calls[c].phase
  {
    assert s.queue[0] in s.queue && s.queue[0] < |s.calls|;
    hide Inv;
    var s1 := Step(cfg, s, Take(w));
    assert s1.holding == s.holding[w := s.queue[0]] && s1.holding - {w} == s.holding;
  }

  /** A free worker empties the queue. */
  lemma {:induction false} DrainQueue(cfg: Config, s: State, w: nat) returns (run: seq<Action>)
    requires Inv(cfg, s) && Free(s, w)
    ensures var t := Exec(cfg, s, run);
            t == s.(queue := [], calls := t.calls) && |t.calls| == |s.calls| &&
            forall c | 0 <= c < |s.calls| :: t.calls[c].phase == s.calls[c].phase
    decreases |s.queue|
  {
    if s.queue == [] {
      run := [];
    } else {
      hide Inv;
      hide Step;
      hide Exec;
      var s1 := Step(cfg, s, Take(w));
      var end := Finish(w, Returns(Ok));
      StepKeepsInv(cfg, s, Take(w));
      StepKeepsInv(cfg, s1, end);
      HeadIsServed(cfg, s, w);
      var rest := DrainQueue(cfg, Step(cfg, s1, end), w);
      ExecCons(cfg, s1, end, rest);
      ExecCons(cfg, s, Take(w), [end] + rest);
      run := [Take(w)] + ([end] + rest);
    }
  }

  /** Callers fill the queue to the watermark before any worker is up, more callers than the minimum
      and the maximum pass the checks at once and launch a worker each, the queue is emptied, and all
      leave. */
  lemma OvershootThenOutage(cfg: Config) returns (run: seq<Action>)
    requires cfg.threadsMax >= 1 && cfg.highWatermark <= cfg.Room()
    ensures Outage(Exec(cfg, Initial(cfg), run))
  {
    hide Exec;
    hide Inv;
    hide Outage;
    var s, build := BuildCrowd(cfg);
    var leave := CrowdLeaves(cfg, s);
    ExecAppend(cfg, Initial(cfg), build, leave);
    run := build + leave;
  }

  lemma BuildCrowd(cfg: Config) returns (s: State, run: seq<Action>)
    requires cfg.threadsMax >= 1 && cfg.highWatermark <= cfg.Room()
    ensures s == Exec(cfg, Initial(cfg), run)
    ensures Inv(cfg, s) && s.running && s.holding == map[] && s.boot.at == AtCheck && s.workers != []
    ensures s.count >= cfg.threadsMax && s.count > cfg.threadsMin
    ensures forall w | 0 <= w < |s.workers| :: s.workers[w] == Looping
    ensures forall c | 0 <= c < |s.calls| :: !s.calls[c].phase.ScaleCount? && !s.calls[c].phase.Spawning?
  {
    var k: nat := cfg.threadsMax + if cfg.threadsMin > 0 then cfg.threadsMin else 0;
    var s0, n := Initial(cfg), cfg.highWatermark;
    hide Step;
    hide Exec;
    var fill := FillQueue(cfg, s0, n);
    var s1 := Exec(cfg, s0, fill);
    var pass := ManyPassChecks(cfg, s1, k);
    var s2 := Exec(cfg, s1, pass);
    assert forall d | 0 <= d < n :: s2.calls[d].phase == Waiting;
    var launch := AllLaunch(cfg, s2, n);
    s := Exec(cfg, s2, launch);
    ExecAppend(cfg, s1, pass, launch);
    ExecAppend(cfg, s0, fill, pass + launch);
    run := fill + (pass + launch);
    RunKeepsInv(cfg, s0, run);
  }

  /** From a crowd of free workers above both limits, with `start` still to make its calls. */
  lemma CrowdLeaves(cfg: Config, s: State) returns (run: seq<Action>)
    requires Inv(cfg, s) && s.running && s.holding == map[] && s.boot.at == AtCheck && s.workers != []
    requires s.count >= cfg.threadsMax && s.count > cfg.threadsMin
    requires forall w | 0 <= w < |s.workers| :: s.workers[w] == Looping
    requires forall c | 0 <= c < |s.calls| :: !s.calls[c].phase.ScaleCount? && !s.calls[c].phase.Spawning?
    ensures Outage(Exec(cfg, s, run))
  {
    hide Step;
    var start := StartEnds(cfg, s);
    var s1 := Exec(cfg, s, start);
    RunKeepsInv(cfg, s, start);
    hide Inv;
    var drain := DrainQueue(cfg, s1, 0);
    var s2 := Exec(cfg, s1, drain);
    hide Exec;
    var leave := AllWorkersCanLeave(cfg, s2);
    ExecAppend(cfg, s1, drain, leave);
    ExecAppend(cfg, s, start, drain + leave);
    run := start + (drain + leave);
  }

  /** With no minimum the single worker that `start` brings up leaves as soon as it is idle. */
  lemma SoleWorkerLeaves(cfg: Config) returns (run: seq<Action>)
    requires cfg.threadsMax >= 1 && cfg.threadsMin < 1
    ensures Outage(Exec(cfg, Initial(cfg), run))
  {
    hide Exec;
    hide Step;
    var s := FirstWorker(cfg);
    var leave := AllWorkersCanLeave(cfg, s);
    ExecAppend(cfg, Initial(cfg), [Start, Start, Start], leave);
    run := [Start, Start, Start] + leave;
  }

  // ---------------------------------------------------- when it cannot come to that

  /** Nobody but `start` brings workers, never more than the minimum, and while the dispatcher is
      running nobody leaves. */
  ghost predicate Stable(cfg: Config, s: State) {
    && s.count + s.boot.left - (if s.boot.at == AtLaunch then 1 else 0) <= cfg.InitialThreads()
    && (s.boot.left == 0 ==> s.boot.at == AtCheck)
    && (forall c | 0 <= c < |s.calls| :: Unscaled(s.calls[c].phase))
    && (s.running ==> forall w | 0 <= w < |s.workers| :: s.workers[w] == Looping || s.workers[w] == Missed)
  }

  predicate Unscaled(p: Phase) { !p.ScaleQueue? && !p.ScaleCount? && !p.Spawning? }

  lemma MovedStaysUnscaled(cfg: Config, s: State, call: Call)
    requires Unscaled(call.phase) && |s.queue| < cfg.highWatermark
    ensures Unscaled(Moved(cfg, s, call).phase)
  {
  }

  lemma StableStep(cfg: Config, s: State, a: Action)
    requires Stable(cfg, s) && |s.queue| < cfg.highWatermark && cfg.threadsMin >= 1
    ensures Stable(cfg, Step(cfg, s, a))
  {
    if a.Advance? && a.call < |s.calls| { MovedStaysUnscaled(cfg, s, s.calls[a.call]); }
    hide Moved;
  }

  lemma QueueFits(cfg: Config, s: State)
    requires Inv(cfg, s)
    ensures |s.queue| <= cfg.Room()
  {
  }

  lemma {:induction false} StableRun(cfg: Config, s: State, run: seq<Action>)
    requires Inv(cfg, s) && Stable(cfg, s) && cfg.highWatermark > cfg.Room() && cfg.threadsMin >= 1
    ensures Stable(cfg, Exec(cfg, s, run))
    decreases |run|
  {
    hide Step;
    hide Inv;
    hide Stable;
    if run != [] {
      QueueFits(cfg, s);
      StableStep(cfg, s, run[0]);
      StepKeepsInv(cfg, s, run[0]);
      StableRun(cfg, Step(cfg, s, run[0]), run[1..]);
    }
  }

  /** An outage can come about: workers can exist, and callers can overshoot or no minimum is kept. */
  predicate CanRunOut(cfg: Config) {
    cfg.threadsMax >= 1 && (cfg.highWatermark <= cfg.Room() || cfg.threadsMin < 1)
  }

  /** Idle shrinking alone can leave a running dispatcher without any worker exactly when a worker may
      exist and either the queue can reach the watermark, so that enough callers can pass the unlocked
      check at once, or the minimum is below one. */
  lemma OutageIff(cfg: Config)
    ensures (exists run :: Outage(Exec(cfg, Initial(cfg), run))) <==> CanRunOut(cfg)
  {
    hide Exec;
    if CanRunOut(cfg) {
      if cfg.highWatermark <= cfg.Room() {
        var run := OvershootThenOutage(cfg);
      } else {
        var run := SoleWorkerLeaves(cfg);
      }
    } else {
      forall run ensures !Outage(Exec(cfg, Initial(cfg), run)) { NoOutage(cfg, run); }
    }
  }

  lemma NoOutage(cfg: Config, run: seq<Action>)
    requires !CanRunOut(cfg)
    ensures !Outage(Exec(cfg, Initial(cfg), run))
  {
    hide Exec;
    var s := Exec(cfg, Initial(cfg), run);
    if cfg.threadsMax < 1 {
      MuteRun(cfg, Initial(cfg), run);
    } else {
      StableRun(cfg, Initial(cfg), run);
      if s.workers != [] { assert s.running ==> s.workers[0] == Looping || s.workers[0] == Missed; }
    }
  }
}
