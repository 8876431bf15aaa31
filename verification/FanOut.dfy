/** `queryAllServerAnomalies`: one goroutine per server, at most eight requests in flight, results
    written to preallocated slots. A run is any sequence of actions; a disabled one changes nothing. */
module FanOut {
  import opened Options
  import opened Seqs

  /** The constant `maxConcurrentAllServerAnomalyQueries`. */
  const MAX_IN_FLIGHT := 8

  /** A goroutine's progress; the semaphore is held while `InFlight` or `Stored`. */
  datatype Routine = Unborn | Ready | InFlight | Stored | Released | Finished

  /** `sem` is the number of tokens in the semaphore channel. */
  datatype State = State(routines: seq<Routine>, sem: nat, results: seq<Option<string>>, returned: bool)

  /** `reply(i, name)` is what the query of the i-th server comes back with. */
  datatype Config = Config(names: seq<string>, reply: (nat, string) -> string)

  datatype Action =
    | Spawn                // `wg.Add(1)` and `go`
    | Acquire(i: nat)      // `sem <- struct{}{}`
    | Store(i: nat)        // `results[index] = ...`
    | Release(i: nat)      // `<-sem`
    | Done(i: nat)         // `wg.Done()`
    | Wait                 // `wg.Wait()` passes

  function NonEmpty(): string -> bool { (name: string) => name != "" }

  /** Empty server names are skipped. */
  method ServerNames(latest: seq<string>) returns (names: seq<string>)
    ensures names == Filter(NonEmpty(), latest)
  {
    names := [];
    var i := 0;
    while i < |latest|
      invariant 0 <= i <= |latest|
      invariant names + Filter(NonEmpty(), latest[i..]) == Filter(NonEmpty(), latest)
    {
      FilterStep(NonEmpty(), latest, i);
      if latest[i] != "" { names := names + [latest[i]]; }
      i := i + 1;
    }
    assert latest[|latest|..] == [];
  }

  lemma FilterStep(p: string -> bool, s: seq<string>, i: nat)
    requires i < |s|
    ensures Filter(p, s[i..]) == (if p(s[i]) then [s[i]] else []) + Filter(p, s[i + 1..])
  {
    assert s[i..][0] == s[i] && s[i..][1..] == s[i + 1..];
  }

  function Initial(cfg: Config): State {
    State(seq(|cfg.names|, _ => Unborn), 0, seq(|cfg.names|, _ => None), false)
  }

  /** The index of the next goroutine to start: the first unborn one. */
  function NextUnborn(rs: seq<Routine>): (i: nat)
    ensures i <= |rs| && (i < |rs| ==> rs[i] == Unborn)
    ensures forall k | 0 <= k < i :: rs[k] != Unborn
  {
    if rs == [] || rs[0] == Unborn then 0 else 1 + NextUnborn(rs[1..])
  }

  function Set(s: State, i: nat, r: Routine): State
    requires i < |s.routines|
  {
    s.(routines := s.routines[i := r])
  }

  predicate Enabled(s: State, a: Action) {
    match a
    case Spawn => NextUnborn(s.routines) < |s.routines|
    case Acquire(i) => i < |s.routines| && s.routines[i] == Ready && s.sem < MAX_IN_FLIGHT
    case Store(i) => i < |s.routines| && s.routines[i] == InFlight
    case Release(i) => i < |s.routines| && s.routines[i] == Stored && s.sem > 0
    case Done(i) => i < |s.routines| && s.routines[i] == Released
    case Wait => !s.returned && forall k | 0 <= k < |s.routines| :: s.routines[k] == Finished
  }

  function Step(cfg: Config, s: State, a: Action): State {
    if !Enabled(s, a) then s
    else
      match a
      case Spawn => Set(s, NextUnborn(s.routines), Ready)
      case Acquire(i) => Set(s, i, InFlight).(sem := s.sem + 1)
      case Store(i) =>
        if i < |cfg.names| && i < |s.results|
        then Set(s, i, Stored).(results := s.results[i := Some(cfg.reply(i, cfg.names[i]))])
        else Set(s, i, Stored)
      case Release(i) => Set(s, i, Released).(sem := s.sem - 1)
      case Done(i) => Set(s, i, Finished)
      case Wait => s.(returned := true)
  }

  function Exec(cfg: Config, s: State, run: seq<Action>): State
    decreases |run|
  {
    if run == [] then s else Exec(cfg, Step(cfg, s, run[0]), run[1..])
  }

  // ---------------------------------------------------------------- invariant

  function Holds(): Routine -> bool { (r: Routine) => r == InFlight || r == Stored }

  predicate HasStored(r: Routine) { r == Stored || r == Released || r == Finished }

  ghost predicate Inv(cfg: Config, s: State) {
    && |s.routines| == |s.results| == |cfg.names|
    && s.sem == Count(Holds(), s.routines) <= MAX_IN_FLIGHT
    && (forall i | 0 <= i < |s.routines| ::
          s.results[i] == if HasStored(s.routines[i]) then Some(cfg.reply(i, cfg.names[i])) else None)
    && (s.returned ==> forall i | 0 <= i < |s.routines| :: s.routines[i] == Finished)
  }

  lemma StepKeepsInv(cfg: Config, s: State, a: Action)
    requires Inv(cfg, s)
    ensures Inv(cfg, Step(cfg, s, a))
  {
    hide Count;
    if Enabled(s, a) && a != Wait {
      var i := if a == Spawn then NextUnborn(s.routines) else a.i;
      CountUpdate(Holds(), s.routines, i, Step(cfg, s, a).routines[i]);
      assert forall k | 0 <= k < |s.routines| && k != i :: Step(cfg, s, a).routines[k] == s.routines[k];
    }
  }

  lemma {:induction false} RunKeepsInv(cfg: Config, s: State, run: seq<Action>)
    requires Inv(cfg, s)
    ensures Inv(cfg, Exec(cfg, s, run))
    decreases |run|
  {
    if run != [] {
      StepKeepsInv(cfg, s, run[0]);
      RunKeepsInv(cfg, Step(cfg, s, run[0]), run[1..]);
    }
  }

  lemma InitialInv(cfg: Config)
    ensures Inv(cfg, Initial(cfg))
  {
    CountBound(Holds(), Initial(cfg).routines);
  }

  // ------------------------------------------------------------- main results

  /** In every interleaving at most eight requests are in flight, and once the call has passed
      `wg.Wait` the results are those of asking the servers one after the other. */
  lemma FanOutIsSequentialMap(cfg: Config, run: seq<Action>)
    ensures var s := Exec(cfg, Initial(cfg), run);
            Count(Holds(), s.routines) <= 8 &&
            (s.returned ==> s.results == seq(|cfg.names|, i requires 0 <= i < |cfg.names| =>
                                                            Some(cfg.reply(i, cfg.names[i]))))
  {
    InitialInv(cfg);
    RunKeepsInv(cfg, Initial(cfg), run);
  }

  /** Until the call returns some step is enabled, so no interleaving is stuck. */
  lemma NeverStuck(cfg: Config, run: seq<Action>)
    requires !Exec(cfg, Initial(cfg), run).returned
    ensures exists a :: Enabled(Exec(cfg, Initial(cfg), run), a)
  {
    InitialInv(cfg);
    RunKeepsInv(cfg, Initial(cfg), run);
    var s := Exec(cfg, Initial(cfg), run);
    if i :| 0 <= i < |s.routines| && s.routines[i] == Released {
      assert Enabled(s, Done(i));
    } else if i :| 0 <= i < |s.routines| && s.routines[i] == Stored {
      CountBound(Holds(), s.routines);
      assert s.routines[i] in s.routines && Holds()(s.routines[i]);
      assert Enabled(s, Release(i));
    } else if i :| 0 <= i < |s.routines| && s.routines[i] == InFlight {
      assert Enabled(s, Store(i));
    } else if i :| 0 <= i < |s.routines| && s.routines[i] == Ready {
      CountBound(Holds(), s.routines);
      assert Enabled(s, Acquire(i));
    } else if NextUnborn(s.routines) < |s.routines| {
      assert Enabled(s, Spawn);
    } else {
      assert Enabled(s, Wait);
    }
  }

  function Rank(r: Routine): nat {
    match r
    case Unborn => 5
    case Ready => 4
    case InFlight => 3
    case Stored => 2
    case Released => 1
    case Finished => 0
  }

  function TotalRank(rs: seq<Routine>): nat {
    if rs == [] then 0 else Rank(rs[0]) + TotalRank(rs[1..])
  }

  /** Steps left in the whole call. */
  function Remaining(s: State): nat {
    TotalRank(s.routines) + if s.returned then 0 else 1
  }

  lemma {:induction false} TotalRankUpdate(rs: seq<Routine>, i: nat, r: Routine)
    requires i < |rs|
    ensures TotalRank(rs[i := r]) == TotalRank(rs) - Rank(rs[i]) + Rank(r)
  {
    if i == 0 {
      assert rs[i := r][1..] == rs[1..];
    } else {
      assert rs[i := r][1..] == rs[1..][i - 1 := r];
      TotalRankUpdate(rs[1..], i - 1, r);
    }
  }

  /** Every enabled step brings the call exactly one step closer to its end. */
  lemma EachStepCounts(cfg: Config, s: State, a: Action)
    requires Enabled(s, a)
    ensures Remaining(Step(cfg, s, a)) == Remaining(s) - 1
  {
    if a != Wait {
      var i := if a == Spawn then NextUnborn(s.routines) else a.i;
      TotalRankUpdate(s.routines, i, Step(cfg, s, a).routines[i]);
    }
  }

  /** A run all of whose actions are enabled when taken. */
  predicate Effective(cfg: Config, s: State, run: seq<Action>)
    decreases |run|
  {
    run == [] || (Enabled(s, run[0]) && Effective(cfg, Step(cfg, s, run[0]), run[1..]))
  }

  lemma {:induction false} EffectiveRunsAreBounded(cfg: Config, s: State, run: seq<Action>)
    requires Effective(cfg, s, run)
    ensures Remaining(Exec(cfg, s, run)) == Remaining(s) - |run|
    decreases |run|
  {
    if run != [] {
      EachStepCounts(cfg, s, run[0]);
      EffectiveRunsAreBounded(cfg, Step(cfg, s, run[0]), run[1..]);
    }
  }

  lemma {:induction false} UnbornRank(n: nat)
    ensures TotalRank(seq(n, _ => Unborn)) == 5 * n
  {
    if n > 0 {
      assert seq(n, _ => Unborn)[1..] == seq(n - 1, _ => Unborn);
      UnbornRank(n - 1);
    }
  }

  /** A run of enabled steps has at most five steps per server plus one, and has returned exactly
      when it has that many. */
  lemma FanOutTerminates(cfg: Config, run: seq<Action>)
    requires Effective(cfg, Initial(cfg), run)
    ensures |run| <= 5 * |cfg.names| + 1
    ensures Exec(cfg, Initial(cfg), run).returned <==> |run| == 5 * |cfg.names| + 1
  {
    EffectiveRunsAreBounded(cfg, Initial(cfg), run);
    UnbornRank(|cfg.names|);
    assert Initial(cfg).routines == seq(|cfg.names|, _ => Unborn);
    InitialInv(cfg);
    RunKeepsInv(cfg, Initial(cfg), run);
    var s := Exec(cfg, Initial(cfg), run);
    if s.returned { FinishedRank(s.routines); }
  }

  lemma {:induction false} FinishedRank(rs: seq<Routine>)
    requires forall i | 0 <= i < |rs| :: rs[i] == Finished
    ensures TotalRank(rs) == 0
  {
    if rs != [] { FinishedRank(rs[1..]); }
  }

  // ------------------------------------------------------------------ the limit

  /** All goroutines started, the first `k` of them holding a token. */
  function Busy(cfg: Config, k: nat): State {
    State(seq(|cfg.names|, i => if i < k then InFlight else Ready), k, seq(|cfg.names|, _ => None), false)
  }

  /** The first `n` goroutines started, nobody holding a token. */
  function Started(cfg: Config, n: nat): State {
    State(seq(|cfg.names|, i => if i < n then Ready else Unborn), 0, seq(|cfg.names|, _ => None), false)
  }

  lemma {:induction false} ExecSnoc(cfg: Config, s: State, run: seq<Action>, a: Action)
    ensures Exec(cfg, s, run + [a]) == Step(cfg, Exec(cfg, s, run), a)
    decreases |run|
  {
    hide Step;
    if run == [] {
      assert run + [a] == [a] && [a][1..] == [];
    } else {
      assert (run + [a])[0] == run[0] && (run + [a])[1..] == run[1..] + [a];
      ExecSnoc(cfg, Step(cfg, s, run[0]), run[1..], a);
    }
  }

  lemma {:induction false} SpawnFirst(cfg: Config, n: nat) returns (run: seq<Action>)
    requires n <= |cfg.names|
    ensures Exec(cfg, Initial(cfg), run) == Started(cfg, n)
  {
    if n == 0 {
      run := [];
      assert Initial(cfg) == Started(cfg, 0);
    } else {
      var before := SpawnFirst(cfg, n - 1);
      run := before + [Spawn];
      ExecSnoc(cfg, Initial(cfg), before, Spawn);
      var s := Started(cfg, n - 1);
      var i := NextUnborn(s.routines);
      assert s.routines[n - 1] == Unborn && forall k | 0 <= k < n - 1 :: s.routines[k] == Ready;
      assert i == n - 1;
      assert Step(cfg, s, Spawn) == Started(cfg, n);
    }
  }

  lemma {:induction false} AcquireFirst(cfg: Config, k: nat) returns (run: seq<Action>)
    requires k <= |cfg.names| && k <= MAX_IN_FLIGHT
    ensures Exec(cfg, Initial(cfg), run) == Busy(cfg, k)
  {
    if k == 0 {
      run := SpawnFirst(cfg, |cfg.names|);
      assert Started(cfg, |cfg.names|) == Busy(cfg, 0);
    } else {
      var before := AcquireFirst(cfg, k - 1);
      run := before + [Acquire(k - 1)];
      ExecSnoc(cfg, Initial(cfg), before, Acquire(k - 1));
      assert Step(cfg, Busy(cfg, k - 1), Acquire(k - 1)) == Busy(cfg, k);
    }
  }

  /** The limit is used: eight requests, or one for each server if there are fewer, can be in flight at
      once. */
  lemma LimitIsReached(cfg: Config) returns (run: seq<Action>)
    ensures Count(Holds(), Exec(cfg, Initial(cfg), run).routines) == if |cfg.names| < 8 then |cfg.names| else 8
  {
    var k := if |cfg.names| < 8 then |cfg.names| else 8;
    run := AcquireFirst(cfg, k);
    InitialInv(cfg);
    RunKeepsInv(cfg, Initial(cfg), run);
  }
}
