/** Turns of the agent memory that overlap: `AppendTurn` and `SummarizeSession` each resolve the policy
    level by level, load the session and save it, with no lock across these accesses. Each access is one
    step of a job, and a run is any sequence of steps. */
module MemoryTurns {
  import opened Options
  import opened Seqs
  import opened Text
  import opened MemoryKeys
  import opened MemoryPolicy
  import opened MemorySessions

  /** Where a turn is; a call of `SummarizeSession` alone starts at `SumResolving`. `found` are the
      overrides read so far, `rest` the levels still to read. */
  datatype Stage =
    | Resolving(found: seq<Policy>, rest: seq<Level>)
    | Loading(policy: Effective)
    | Saving(policy: Effective, loaded: Session)
    | SumResolving(found: seq<Policy>, rest: seq<Level>)
    | SumLoading(policy: Effective)
    | SumSaving(policy: Effective, loaded: Session)
    | Ended

  datatype Job = Job(scope: Scope, said: seq<Message>, stage: Stage) {
    function Key(): string { SessionKey(scope) }
    /** Between its load and its save. */
    predicate Holds() { stage.Saving? || stage.SumSaving? }
    function Loaded(): Session
      requires Holds()
    {
      stage.loaded
    }
  }

  /** `log` is the history of saves, as if each had happened at once. */
  datatype System = System(sessions: Sessions, policies: Policies, jobs: seq<Job>, log: seq<Entry>)

  datatype Op =
    | Call(scope: Scope, user: string, assistant: string)   // `AppendTurn`
    | CallSummary(scope: Scope)                              // `SummarizeSession`
    | Set(level: Level, scope: Scope, policy: Policy)
    | Advance(job: nat)

  /** What a job's next access does; a save adds its entry to the history. */
  function Save(y: System, key: string, session: Session, e: Entry): System {
    y.(sessions := y.sessions[key := session], log := y.log + [e])
  }

  /** `GetPolicy` for one level. */
  function Read(y: System, scope: Scope, level: Level): seq<Policy> {
    if PolicyKey(level, scope) in y.policies then [y.policies[PolicyKey(level, scope)]] else []
  }

  function JobStep(cfg: Config, y: System, job: Job): (System, Stage) {
    match job.stage
    case Resolving(found, rest) =>
      (y, if rest == [] then Loading(Chosen(cfg, found))
          else Resolving(found + Read(y, job.scope, rest[0]), rest[1..]))
    case Loading(policy) => (y, Saving(policy, Load(y.sessions, job.Key())))
    case Saving(policy, loaded) =>
      (Save(y, job.Key(), Appended(loaded, job.said, policy), Turn(job.Key(), job.said, policy)),
       SumResolving([], Levels(job.scope)))
    case SumResolving(found, rest) =>
      (y, if rest == [] then SumLoading(Chosen(cfg, found))
          else SumResolving(found + Read(y, job.scope, rest[0]), rest[1..]))
    case SumLoading(policy) =>
      var loaded := Load(y.sessions, job.Key());
      (y, if loaded.messages == [] then Ended else SumSaving(policy, loaded))
    case SumSaving(policy, loaded) =>
      (Save(y, job.Key(), Summarized(loaded, policy), Summary(job.Key(), policy)), Ended)
    case Ended => (y, Ended)
  }

  function Step(cfg: Config, y: System, op: Op): System {
    match op
    case Call(scope, user, assistant) =>
      if ValidSessionScope(scope)
      then y.(jobs := y.jobs + [Job(scope, TurnMessages(user, assistant), Resolving([], Levels(scope)))]) else y
    case CallSummary(scope) =>
      if ValidSessionScope(scope) then y.(jobs := y.jobs + [Job(scope, [], SumResolving([], Levels(scope)))]) else y
    case Set(level, scope, policy) =>
      if ValidPolicyScope(level, scope)
      then y.(policies := y.policies[PolicyKey(level, scope) := policy]) else y
    case Advance(j) =>
      if j < |y.jobs| then
        var (z, stage) := JobStep(cfg, y, y.jobs[j]);
        z.(jobs := y.jobs[j := y.jobs[j].(stage := stage)])
      else y
  }

  function Exec(cfg: Config, y: System, run: seq<Op>): System
    decreases |run|
  {
    if run == [] then y else Exec(cfg, Step(cfg, y, run[0]), run[1..])
  }

  const Fresh := System(map[], map[], [], [])

  // ------------------------------------------------------- one after the other

  /** The sessions are what the saves would leave if each load and save were one step. */
  ghost predicate Serial(y: System) { y.sessions == Replay(y.log) }

  /** Of the messages before a turn, those that stay in the window with `said` new ones. */
  function Kept(messages: seq<Message>, said: nat, limit: int): seq<Message> {
    if limit <= 0 then messages else if said >= limit then [] else Last(messages, limit - said)
  }

  /** The guard of the save that goes wrong: the session has changed since the job loaded it, in its
      summary or in the messages that stay in the window. */
  predicate Stale(y: System, op: Op) {
    op.Advance? && op.job < |y.jobs| &&
    var job := y.jobs[op.job];
    var current := Load(y.sessions, job.Key());
    match job.stage
    case Saving(policy, loaded) =>
      loaded.summary != current.summary ||
      Kept(loaded.messages, |job.said|, policy.recentWindow) != Kept(current.messages, |job.said|, policy.recentWindow)
    case SumSaving(_, loaded) => loaded.messages != current.messages
    case _ => false
  }

  lemma AppendedSameIff(a: Session, b: Session, said: seq<Message>, policy: Effective)
    ensures Appended(a, said, policy) == Appended(b, said, policy) <==>
            a.summary == b.summary &&
            Kept(a.messages, |said|, policy.recentWindow) == Kept(b.messages, |said|, policy.recentWindow)
  {
    TrimSameIff(a.messages, b.messages, said, policy.recentWindow);
    hide TrimMessages;
    hide Kept;
  }

  lemma TrimSameIff(a: seq<Message>, b: seq<Message>, said: seq<Message>, n: int)
    ensures TrimMessages(a + said, n) == TrimMessages(b + said, n) <==> Kept(a, |said|, n) == Kept(b, |said|, n)
  {
    TrimIsKept(a, said, n);
    TrimIsKept(b, said, n);
    hide TrimMessages;
    hide Kept;
    var x, z := Kept(a, |said|, n), Kept(b, |said|, n);
    var t := if n > 0 then Last(said, n) else said;
    if x + t == z + t { AppendCancels(x, z, t); }
  }

  lemma AppendCancels<T>(a: seq<T>, b: seq<T>, t: seq<T>)
    requires a + t == b + t
    ensures a == b
  {
    assert |a| == |b|;
    assert (a + t)[..|a|] == a && (b + t)[..|b|] == b;
  }

  lemma TrimIsKept(messages: seq<Message>, said: seq<Message>, limit: int)
    ensures TrimMessages(messages + said, limit) ==
            Kept(messages, |said|, limit) + if limit > 0 then Last(said, limit) else said
  {
  }

  lemma SummarizedSameIff(a: Session, b: Session, policy: Effective)
    requires a.messages != []
    ensures (b.messages != [] && Summarized(a, policy) == Summarized(b, policy)) <==> a.messages == b.messages
  {
    SummarizedKeepsMessages(a, policy);
    SummarizedKeepsMessages(b, policy);
    if a.messages == b.messages {
      assert TrimMessages(a.messages, policy.summaryWindow) != [];
    }
    hide Lines;
    hide Join;
  }

  /** A summary is only saved for a session that had messages when it was loaded. */
  predicate JobProper(job: Job) {
    && ValidSessionScope(job.scope)
    && (forall m | m in job.said :: Spoken(m))
    && match job.stage
       case Loading(policy) => HasWindows(policy)
       case Saving(policy, _) => HasWindows(policy)
       case SumLoading(policy) => HasWindows(policy)
       case SumSaving(policy, loaded) => HasWindows(policy) && loaded.messages != []
       case _ => true
  }

  ghost predicate Inv(y: System) {
    && (forall j | 0 <= j < |y.jobs| :: JobProper(y.jobs[j]))
    && (forall e | e in y.log :: Proper(e))
  }

  lemma JobStepKeepsInv(cfg: Config, y: System, job: Job)
    requires JobProper(job)
    ensures var (z, stage) := JobStep(cfg, y, job);
            JobProper(job.(stage := stage)) && y.log <= z.log &&
            forall e | e in z.log[|y.log|..] :: Proper(e)
  {
    if job.stage.Resolving? || job.stage.SumResolving? { ChosenIsPositive(cfg, job.stage.found); }
    hide Chosen;
    hide Spoken;
    hide Summarized;
    hide Appended;
    hide SessionKey;
    hide Read;
    hide Levels;
    hide ValidSessionScope;
  }

  lemma StepKeepsInv(cfg: Config, y: System, op: Op)
    requires Inv(y)
    ensures Inv(Step(cfg, y, op))
  {
    hide Spoken;
    hide Chosen;
    hide Levels;
    hide Read;
    hide ValidSessionScope;
    match op
    case Call(scope, user, assistant) =>
      TurnMessagesSpoken(user, assistant);
      hide TurnMessages;
    case Advance(j) =>
      if j < |y.jobs| {
        JobStepKeepsInv(cfg, y, y.jobs[j]);
        var (z, stage) := JobStep(cfg, y, y.jobs[j]);
        hide JobStep;
        assert z.log == y.log + z.log[|y.log|..];
      }
    case _ =>
  }

  /** With saves that were serial so far: a step keeps them serial exactly when it is not a stale save. */
  lemma SerialStepIff(cfg: Config, y: System, op: Op)
    requires Inv(y) && Serial(y)
    ensures Serial(Step(cfg, y, op)) <==> !Stale(y, op)
  {
    hide Replay;
    hide SessionKey;
    hide Chosen;
    hide Levels;
    hide Read;
    hide ValidSessionScope;
    if op.Advance? && op.job < |y.jobs| {
      var job := y.jobs[op.job];
      assert JobProper(job);
      hide JobProper;
      var current := Load(y.sessions, job.Key());
      match job.stage {
        case Saving(policy, loaded) =>
          ReplaySnoc(y.log, Turn(job.Key(), job.said, policy));
          AppendedSameIff(loaded, current, job.said, policy);
          hide Appended;
          hide Kept;
          SaveSameIff(y.sessions, job.Key(), Appended(loaded, job.said, policy), Appended(current, job.said, policy));
        case SumSaving(policy, loaded) =>
          assert loaded.messages != [] by { SumSavingHasMessages(job); }
          ReplaySnoc(y.log, Summary(job.Key(), policy));
          SummaryStepIff(y, job.Key(), loaded, policy);
        case _ =>
      }
    }
  }

  lemma SumSavingHasMessages(job: Job)
    requires JobProper(job) && job.stage.SumSaving?
    ensures job.stage.loaded.messages != []
  {
  }

  lemma SaveSameIff(sessions: Sessions, key: string, a: Session, b: Session)
    ensures sessions[key := a] == sessions[key := b] <==> a == b
  {
    assert sessions[key := a][key] == a && sessions[key := b][key] == b;
  }

  lemma SummaryStepIff(y: System, key: string, loaded: Session, policy: Effective)
    requires loaded.messages != []
    ensures y.sessions[key := Summarized(loaded, policy)] == Apply(y.sessions, Summary(key, policy)) <==>
            loaded.messages == Load(y.sessions, key).messages
  {
    var current := Load(y.sessions, key);
    SummarizedSameIff(loaded, current, policy);
    SummarizedKeepsMessages(loaded, policy);
    if current.messages == [] {
      assert y.sessions[key := Summarized(loaded, policy)][key].messages != [];
    } else {
      SaveSameIff(y.sessions, key, Summarized(loaded, policy), Summarized(current, policy));
    }
    hide Summarized;
  }

  ghost predicate SerialThroughout(cfg: Config, y: System, run: seq<Op>)
    decreases |run|
  {
    Serial(y) && (run != [] ==> SerialThroughout(cfg, Step(cfg, y, run[0]), run[1..]))
  }

  /** Some save of the run is stale. */
  ghost predicate MeetsStale(cfg: Config, y: System, run: seq<Op>)
    decreases |run|
  {
    run != [] && (Stale(y, run[0]) || MeetsStale(cfg, Step(cfg, y, run[0]), run[1..]))
  }

  lemma SerialHead(cfg: Config, y: System, run: seq<Op>)
    ensures SerialThroughout(cfg, y, run) ==> Serial(y)
  {
  }

  /** However the accesses of turns and summaries interleave: the sessions are, in every state of the
      run, those of doing the same saves one after the other, exactly when no save of the run is
      stale. */
  lemma {:induction false} SerialIff(cfg: Config, y: System, run: seq<Op>)
    requires Inv(y) && Serial(y)
    ensures SerialThroughout(cfg, y, run) <==> !MeetsStale(cfg, y, run)
    ensures !MeetsStale(cfg, y, run) ==> Inv(Exec(cfg, y, run)) && Serial(Exec(cfg, y, run))
    decreases |run|
  {
    hide Step;
    hide Inv;
    hide Serial;
    hide Stale;
    if run != [] {
      SerialStepIff(cfg, y, run[0]);
      if Stale(y, run[0]) {
        SerialHead(cfg, Step(cfg, y, run[0]), run[1..]);
      } else {
        StepKeepsInv(cfg, y, run[0]);
        SerialIff(cfg, Step(cfg, y, run[0]), run[1..]);
      }
    }
  }

  // ------------------------------------------------------------- messages alone

  /** The messages are what the saves would leave if each load and save were one step. */
  ghost predicate MessagesSerial(y: System) { SameMessages(y.sessions, Replay(y.log)) }

  ghost predicate SameMessages(a: Sessions, b: Sessions) {
    forall key: string :: Load(a, key).messages == Load(b, key).messages
  }

  /** The guard of the save that loses messages. */
  predicate Loses(y: System, op: Op) {
    op.Advance? && op.job < |y.jobs| &&
    var job := y.jobs[op.job];
    var current := Load(y.sessions, job.Key());
    match job.stage
    case Saving(policy, loaded) =>
      Kept(loaded.messages, |job.said|, policy.recentWindow) != Kept(current.messages, |job.said|, policy.recentWindow)
    case SumSaving(_, loaded) => loaded.messages != current.messages
    case _ => false
  }

  /** Only a stale save loses messages. */
  lemma LosesIsStale(y: System, op: Op)
    ensures Loses(y, op) ==> Stale(y, op)
  {
    hide Kept;
  }

  /** `x` is `sessions` with `a` saved, `z` is `ideal` with `b` saved. */
  lemma SavedMessagesIff(sessions: Sessions, ideal: Sessions, key: string, a: Session, b: Session,
                         x: Sessions, z: Sessions)
    requires SameMessages(sessions, ideal) && x == sessions[key := a] && z == ideal[key := b]
    ensures SameMessages(x, z) <==> a.messages == b.messages
  {
    assert Load(x, key) == a && Load(z, key) == b;
    forall k: string | k != key ensures Load(x, k).messages == Load(z, k).messages {
      assert Load(x, k) == Load(sessions, k) && Load(z, k) == Load(ideal, k);
    }
  }

  lemma SummaryKeepsMessages(sessions: Sessions, key: string, policy: Effective)
    ensures SameMessages(Apply(sessions, Summary(key, policy)), sessions)
  {
    SummarizedKeepsMessages(Load(sessions, key), policy);
    hide Summarized;
  }

  lemma SameChain(a: Sessions, b: Sessions, c: Sessions)
    requires SameMessages(b, c)
    ensures SameMessages(a, b) <==> SameMessages(a, c)
  {
    hide Load;
    if SameMessages(a, b) { assert forall key: string :: Load(a, key).messages == Load(b, key).messages; }
    if SameMessages(a, c) { assert forall key: string :: Load(a, key).messages == Load(c, key).messages; }
  }

  lemma SavedSummaryIff(sessions: Sessions, ideal: Sessions, key: string, a: Session, x: Sessions)
    requires SameMessages(sessions, ideal) && x == sessions[key := a]
    ensures SameMessages(x, ideal) <==> a.messages == Load(sessions, key).messages
  {
    assert Load(x, key) == a && Load(sessions, key).messages == Load(ideal, key).messages;
    forall k: string | k != key ensures Load(x, k).messages == Load(ideal, k).messages {
      assert Load(x, k) == Load(sessions, k) && Load(sessions, k).messages == Load(ideal, k).messages;
    }
  }

  lemma MessagesStepIff(cfg: Config, y: System, op: Op)
    requires MessagesSerial(y)
    ensures MessagesSerial(Step(cfg, y, op)) <==> !Loses(y, op)
  {
    hide SameMessages;
    hide Replay;
    hide SessionKey;
    hide Chosen;
    hide Levels;
    hide Read;
    hide Load;
    hide Apply;
    hide ValidSessionScope;
    if op.Advance? && op.job < |y.jobs| {
      if y.jobs[op.job].stage.Saving? {
        SavingIff(cfg, y, op.job);
      } else if y.jobs[op.job].stage.SumSaving? {
        SumSavingIff(cfg, y, op.job);
      }
    }
  }

  lemma SavingIff(cfg: Config, y: System, j: nat)
    requires MessagesSerial(y) && j < |y.jobs| && y.jobs[j].stage.Saving?
    ensures MessagesSerial(Step(cfg, y, Advance(j))) <==> !Loses(y, Advance(j))
  {
    hide Replay;
    hide SessionKey;
    var job := y.jobs[j];
    var key, ideal, policy, loaded := job.Key(), Replay(y.log), job.stage.policy, job.stage.loaded;
    var e, z := Turn(key, job.said, policy), Step(cfg, y, Advance(j));
    var right := Load(ideal, key);
    assert z.log == y.log + [e] && z.sessions == y.sessions[key := Appended(loaded, job.said, policy)];
    ReplaySnoc(y.log, e);
    assert Apply(ideal, e) == ideal[key := Appended(right, job.said, policy)];
    assert Load(y.sessions, key).messages == right.messages;
    hide Step;
    hide Apply;
    hide SameMessages;
    TrimSameIff(loaded.messages, right.messages, job.said, policy.recentWindow);
    SavedMessagesIff(y.sessions, ideal, key, Appended(loaded, job.said, policy), Appended(right, job.said, policy),
                     z.sessions, Replay(z.log));
    hide Kept;
    hide TrimMessages;
  }

  lemma SumSavingIff(cfg: Config, y: System, j: nat)
    requires MessagesSerial(y) && j < |y.jobs| && y.jobs[j].stage.SumSaving?
    ensures MessagesSerial(Step(cfg, y, Advance(j))) <==> !Loses(y, Advance(j))
  {
    hide Replay;
    hide SessionKey;
    hide Summarized;
    var job := y.jobs[j];
    var key, ideal, policy, loaded := job.Key(), Replay(y.log), job.stage.policy, job.stage.loaded;
    var e, z := Summary(key, policy), Step(cfg, y, Advance(j));
    assert z.log == y.log + [e] && z.sessions == y.sessions[key := Summarized(loaded, policy)];
    ReplaySnoc(y.log, e);
    hide Step;
    hide Apply;
    hide SameMessages;
    SummaryKeepsMessages(ideal, key, policy);
    SummarizedKeepsMessages(loaded, policy);
    SavedSummaryIff(y.sessions, ideal, key, Summarized(loaded, policy), z.sessions);
    SameChain(z.sessions, Apply(ideal, e), ideal);
  }

  ghost predicate MessagesSerialThroughout(cfg: Config, y: System, run: seq<Op>)
    decreases |run|
  {
    MessagesSerial(y) && (run != [] ==> MessagesSerialThroughout(cfg, Step(cfg, y, run[0]), run[1..]))
  }

  ghost predicate MeetsLoss(cfg: Config, y: System, run: seq<Op>)
    decreases |run|
  {
    run != [] && (Loses(y, run[0]) || MeetsLoss(cfg, Step(cfg, y, run[0]), run[1..]))
  }

  lemma MessagesHead(cfg: Config, y: System, run: seq<Op>)
    ensures MessagesSerialThroughout(cfg, y, run) ==> MessagesSerial(y)
  {
  }

  /** However the accesses interleave: the messages of all sessions are, in every state of the run, those
      of doing the same saves one after the other, exactly when no save of the run finds the messages
      that stay in the window changed since its load. */
  lemma {:induction false} MessagesSerialIff(cfg: Config, y: System, run: seq<Op>)
    requires Inv(y) && MessagesSerial(y)
    ensures MessagesSerialThroughout(cfg, y, run) <==> !MeetsLoss(cfg, y, run)
    ensures !MeetsLoss(cfg, y, run) ==> Inv(Exec(cfg, y, run)) && MessagesSerial(Exec(cfg, y, run))
    decreases |run|
  {
    hide Step;
    hide Inv;
    hide MessagesSerial;
    hide Loses;
    if run != [] {
      MessagesStepIff(cfg, y, run[0]);
      if Loses(y, run[0]) {
        MessagesHead(cfg, Step(cfg, y, run[0]), run[1..]);
      } else {
        StepKeepsInv(cfg, y, run[0]);
        MessagesSerialIff(cfg, Step(cfg, y, run[0]), run[1..]);
      }
    }
  }

  /** So in every run without such a save a session's messages are a suffix of its transcript, turns
      counted in the order of their saves. */
  lemma SerialRunKeepsSuffix(cfg: Config, run: seq<Op>, key: string)
    requires !MeetsLoss(cfg, Fresh, run)
    ensures var y := Exec(cfg, Fresh, run);
            IsSuffix(Load(y.sessions, key).messages, Transcript(y.log, key))
  {
    assert Inv(Fresh) && MessagesSerial(Fresh);
    MessagesSerialIff(cfg, Fresh, run);
    var y := Exec(cfg, Fresh, run);
    hide Exec;
    MessagesAreSuffix(y.log, key);
    assert Load(y.sessions, key).messages == Load(Replay(y.log), key).messages;
  }

  // ------------------------------------------------------------ no overlap, no loss

  /** A job loads a session that another job has loaded and not saved yet. */
  predicate Overlaps(y: System, op: Op) {
    op.Advance? && op.job < |y.jobs| &&
    (y.jobs[op.job].stage.Loading? || y.jobs[op.job].stage.SumLoading?) &&
    exists k | 0 <= k < |y.jobs| :: k != op.job && y.jobs[k].Holds() && y.jobs[k].Key() == y.jobs[op.job].Key()
  }

  ghost predicate MeetsOverlap(cfg: Config, y: System, run: seq<Op>)
    decreases |run|
  {
    run != [] && (Overlaps(y, run[0]) || MeetsOverlap(cfg, Step(cfg, y, run[0]), run[1..]))
  }

  /** Whoever holds a session holds its current value, alone. */
  ghost predicate Exclusive(y: System) {
    && (forall j | 0 <= j < |y.jobs| && y.jobs[j].Holds() :: y.jobs[j].Loaded() == Load(y.sessions, y.jobs[j].Key()))
    && (forall j, k | 0 <= j < k < |y.jobs| && y.jobs[j].Holds() && y.jobs[k].Holds() ::
          y.jobs[j].Key() != y.jobs[k].Key())
  }

  lemma ExclusiveStep(cfg: Config, y: System, op: Op)
    requires Exclusive(y) && !Overlaps(y, op)
    ensures Exclusive(Step(cfg, y, op)) && !Stale(y, op)
  {
    hide SessionKey;
    hide Chosen;
    hide Levels;
    hide Read;
    hide Summarized;
    hide Appended;
    hide TurnMessages;
    hide ValidSessionScope;
    hide ValidPolicyScope;
    hide PolicyKey;
    hide Kept;
    if op.Advance? && op.job < |y.jobs| { ExclusiveAdvance(cfg, y, op.job); }
  }

  lemma ExclusiveAdvance(cfg: Config, y: System, j: nat)
    requires Exclusive(y) && j < |y.jobs| && !Overlaps(y, Advance(j))
    ensures Exclusive(Step(cfg, y, Advance(j)))
  {
    hide SessionKey;
    hide Chosen;
    hide Levels;
    hide Read;
    hide Summarized;
    hide Appended;
    var z, job := Step(cfg, y, Advance(j)), y.jobs[j];
    assert forall k | 0 <= k < |z.jobs| && k != j :: z.jobs[k] == y.jobs[k];
    assert z.jobs[j].Key() == job.Key();
    if job.Holds() {
      assert !z.jobs[j].Holds();
      assert forall key | key != job.Key() :: Load(z.sessions, key) == Load(y.sessions, key);
    } else {
      assert z.sessions == y.sessions;
      if z.jobs[j].Holds() {
        assert job.stage.Loading? || job.stage.SumLoading?;
        assert forall k | 0 <= k < |y.jobs| && k != j && y.jobs[k].Holds() :: y.jobs[k].Key() != job.Key();
      }
    }
  }

  /** A run in which no session is loaded while another job holds it has no stale save. */
  lemma {:induction false} NoOverlapNoStale(cfg: Config, y: System, run: seq<Op>)
    requires Exclusive(y) && !MeetsOverlap(cfg, y, run)
    ensures !MeetsStale(cfg, y, run)
    decreases |run|
  {
    hide Step;
    hide Exclusive;
    hide Stale;
    hide Overlaps;
    if run != [] {
      ExclusiveStep(cfg, y, run[0]);
      NoOverlapNoStale(cfg, Step(cfg, y, run[0]), run[1..]);
    }
  }

  // ------------------------------------------------------------- overlap, loss

  lemma ExecCons(cfg: Config, y: System, op: Op, run: seq<Op>)
    ensures Exec(cfg, y, [op] + run) == Exec(cfg, Step(cfg, y, op), run)
  {
    hide Step;
    assert ([op] + run)[1..] == run;
  }

  lemma {:induction false} ExecAppend(cfg: Config, y: System, a: seq<Op>, b: seq<Op>)
    ensures Exec(cfg, y, a + b) == Exec(cfg, Exec(cfg, y, a), b)
    decreases |a|
  {
    hide Step;
    if a == [] {
      assert a + b == b;
    } else {
      assert (a + b)[0] == a[0] && (a + b)[1..] == a[1..] + b;
      ExecAppend(cfg, Step(cfg, y, a[0]), a[1..], b);
    }
  }

  function SetStage(y: System, j: nat, stage: Stage): System
    requires j < |y.jobs|
  {
    y.(jobs := y.jobs[j := y.jobs[j].(stage := stage)])
  }

  /** Where a resolution is, in the first or in the second half of a turn. */
  function ResolvingAt(second: bool, found: seq<Policy>, rest: seq<Level>): Stage {
    if second then SumResolving(found, rest) else Resolving(found, rest)
  }

  function LoadingAt(second: bool, policy: Effective): Stage {
    if second then SumLoading(policy) else Loading(policy)
  }

  /** Left alone, the reads of a resolution find what `ResolvePolicy` finds. */
  lemma {:induction false} ResolveAlone(cfg: Config, y: System, j: nat, second: bool, found: seq<Policy>,
                                        rest: seq<Level>)
    returns (run: seq<Op>)
    requires j < |y.jobs| && y.jobs[j].stage == ResolvingAt(second, found, rest)
    ensures Exec(cfg, y, run) ==
            SetStage(y, j, LoadingAt(second, Chosen(cfg, found + Found(y.policies, y.jobs[j].scope, rest))))
    decreases |rest|
  {
    hide PolicyKey;
    hide Chosen;
    var scope, a := y.jobs[j].scope, Advance(j);
    if rest == [] {
      assert found + Found(y.policies, scope, []) == found;
      assert Step(cfg, y, a) == SetStage(y, j, LoadingAt(second, Chosen(cfg, found)));
      hide Step;
      ExecCons(cfg, y, a, []);
      run := [a] + [];
    } else {
      var more := found + Read(y, scope, rest[0]);
      var z := SetStage(y, j, ResolvingAt(second, more, rest[1..]));
      assert Step(cfg, y, a) == z;
      hide Step;
      hide Exec;
      var tail := ResolveAlone(cfg, z, j, second, more, rest[1..]);
      ExecCons(cfg, y, a, tail);
      run := [a] + tail;
      assert more + Found(y.policies, scope, rest[1..]) == found + Found(y.policies, scope, rest);
    }
  }

  lemma ResolvedAlone(cfg: Config, y: System, j: nat, second: bool) returns (run: seq<Op>)
    requires j < |y.jobs| && y.jobs[j].stage == ResolvingAt(second, [], Levels(y.jobs[j].scope))
    ensures Exec(cfg, y, run) == SetStage(y, j, LoadingAt(second, Resolve(y.policies, cfg, y.jobs[j].scope)))
  {
    hide Exec;
    hide Chosen;
    hide Found;
    var scope := y.jobs[j].scope;
    run := ResolveAlone(cfg, y, j, second, [], Levels(scope));
    assert [] + Found(y.policies, scope, Levels(scope)) == Found(y.policies, scope, Levels(scope));
  }

  /** A new turn resolves its policy and loads the session. */
  lemma TurnLoads(cfg: Config, y: System, j: nat) returns (run: seq<Op>)
    requires j < |y.jobs| && y.jobs[j].stage == Resolving([], Levels(y.jobs[j].scope))
    ensures var job := y.jobs[j];
            Exec(cfg, y, run) ==
            SetStage(y, j, Saving(Resolve(y.policies, cfg, job.scope), Load(y.sessions, job.Key())))
  {
    hide Resolve;
    hide Levels;
    hide SessionKey;
    var job := y.jobs[j];
    var policy := Resolve(y.policies, cfg, job.scope);
    var levels := ResolvedAlone(cfg, y, j, false);
    var z := SetStage(y, j, Loading(policy));
    var u := SetStage(y, j, Saving(policy, Load(y.sessions, job.Key())));
    assert Step(cfg, z, Advance(j)) == u;
    hide Step;
    ExecCons(cfg, z, Advance(j), []);
    assert Exec(cfg, u, []) == u;
    hide Exec;
    ExecAppend(cfg, y, levels, [Advance(j)] + []);
    run := levels + ([Advance(j)] + []);
  }

  lemma TurnSaves(cfg: Config, y: System, j: nat)
    requires j < |y.jobs| && y.jobs[j].stage.Saving?
    ensures var job := y.jobs[j];
            var session := Appended(job.stage.loaded, job.said, job.stage.policy);
            Step(cfg, y, Advance(j)) ==
            SetStage(Save(y, job.Key(), session, Turn(job.Key(), job.said, job.stage.policy)), j,
                     SumResolving([], Levels(job.scope)))
  {
    hide Levels;
  }

  /** The summarizing half of a turn. */
  lemma TurnSummarizes(cfg: Config, y: System, j: nat) returns (run: seq<Op>)
    requires j < |y.jobs| && y.jobs[j].stage == SumResolving([], Levels(y.jobs[j].scope))
    ensures var key, policy := y.jobs[j].Key(), Resolve(y.policies, cfg, y.jobs[j].scope);
            var z := Exec(cfg, y, run);
            z.sessions == Apply(y.sessions, Summary(key, policy)) && z.policies == y.policies
  {
    hide Resolve;
    hide Levels;
    hide SessionKey;
    hide Summarized;
    hide Exec;
    hide Step;
    var a := Advance(j);
    var policy := Resolve(y.policies, cfg, y.jobs[j].scope);
    var levels := ResolvedAlone(cfg, y, j, true);
    var y1 := SetStage(y, j, SumLoading(policy));
    SummaryLoadsAndSaves(cfg, y1, j);
    ExecLast(cfg, Step(cfg, y1, a), a);
    ExecCons(cfg, y1, a, [a] + []);
    ExecAppend(cfg, y, levels, [a] + ([a] + []));
    run := levels + ([a] + ([a] + []));
  }

  lemma SummaryLoadsAndSaves(cfg: Config, y: System, j: nat)
    requires j < |y.jobs| && y.jobs[j].stage.SumLoading?
    ensures var job, z := y.jobs[j], Step(cfg, Step(cfg, y, Advance(j)), Advance(j));
            z.sessions == Apply(y.sessions, Summary(job.Key(), job.stage.policy)) && z.policies == y.policies
  {
    hide SessionKey;
    hide Summarized;
    var job := y.jobs[j];
    var loaded := Load(y.sessions, job.Key());
    assert Step(cfg, y, Advance(j)) ==
           SetStage(y, j, if loaded.messages == [] then Ended else SumSaving(job.stage.policy, loaded));
  }

  /** Left alone, the accesses of a turn do what `AppendTurn` does at once. */
  lemma TurnAlone(cfg: Config, y: System, scope: Scope, user: string, assistant: string) returns (run: seq<Op>)
    requires ValidSessionScope(scope)
    ensures var z := Exec(cfg, y, [Call(scope, user, assistant)] + run);
            Store(z.sessions, z.policies) == AppendTurn(cfg, Store(y.sessions, y.policies), scope, user, assistant)
  {
    hide Resolve;
    hide Levels;
    hide SessionKey;
    hide Summarized;
    hide Appended;
    hide TurnMessages;
    hide Exec;
    var j, said := |y.jobs|, TurnMessages(user, assistant);
    var y1 := Step(cfg, y, Call(scope, user, assistant));
    assert y1 == y.(jobs := y.jobs + [Job(scope, said, Resolving([], Levels(scope)))]);
    var load := TurnLoads(cfg, y1, j);
    var y2 := Exec(cfg, y1, load);
    TurnSaves(cfg, y2, j);
    var y3 := Step(cfg, y2, Advance(j));
    hide Step;
    var end := TurnSummarizes(cfg, y3, j);
    ExecCons(cfg, y2, Advance(j), end);
    ExecAppend(cfg, y1, load, [Advance(j)] + end);
    run := load + ([Advance(j)] + end);
    ExecCons(cfg, y, Call(scope, user, assistant), run);
  }

  lemma OneSaid(text: string)
    requires MemoryKeys.Clean(text) != ""
    ensures TurnMessages(text, "") == [Message(User, MemoryKeys.Clean(text))]
  {
    assert MemoryKeys.Clean("") == "";
  }

  /** Two turns of one session that both load before either saves: the second save drops the message of
      the first, and what is left is no suffix of the transcript in either order. */
  lemma OverlapLosesTurn(cfg: Config, y: System, scope: Scope, a: string, b: string, x: Message) returns (run: seq<Op>)
    requires ValidSessionScope(scope) && MemoryKeys.Clean(a) != "" && MemoryKeys.Clean(b) != ""
    requires Resolve(y.policies, cfg, scope).recentWindow >= 2
    requires Load(y.sessions, SessionKey(scope)).messages == [x] && x != Message(User, MemoryKeys.Clean(b))
    ensures var key, t := SessionKey(scope), Transcript(y.log, SessionKey(scope));
            var ma, mb := Message(User, MemoryKeys.Clean(a)), Message(User, MemoryKeys.Clean(b));
            var z := Exec(cfg, y, run);
            Load(z.sessions, key).messages == [x, ma] && Transcript(z.log, key) == t + [mb] + [ma] &&
            !IsSuffix([x, ma], t + [mb] + [ma]) && !IsSuffix([x, ma], t + [ma] + [mb])
  {
    hide Resolve;
    hide SessionKey;
    hide Exec;
    hide Transcript;
    hide MemoryKeys.Clean;
    hide IsSuffix;
    var key, policy := SessionKey(scope), Resolve(y.policies, cfg, scope);
    var ma, mb := Message(User, MemoryKeys.Clean(a)), Message(User, MemoryKeys.Clean(b));
    run := BothSave(cfg, y, scope, a, b);
    TranscriptTwo(y.log, Turn(key, [mb], policy), Turn(key, [ma], policy));
    NoSuffix(Transcript(y.log, key), x, ma, mb);
  }

  /** Both turns save what they made of the session they both loaded. */
  lemma BothSave(cfg: Config, y: System, scope: Scope, a: string, b: string) returns (run: seq<Op>)
    requires ValidSessionScope(scope) && MemoryKeys.Clean(a) != "" && MemoryKeys.Clean(b) != ""
    ensures var key, policy := SessionKey(scope), Resolve(y.policies, cfg, scope);
            var ma, mb := Message(User, MemoryKeys.Clean(a)), Message(User, MemoryKeys.Clean(b));
            var z := Exec(cfg, y, run);
            Load(z.sessions, key) == Appended(Load(y.sessions, key), [ma], policy) &&
            z.log == y.log + [Turn(key, [mb], policy)] + [Turn(key, [ma], policy)]
  {
    hide Resolve;
    hide SessionKey;
    hide Exec;
    hide Appended;
    var j, k := |y.jobs|, |y.jobs| + 1;
    var y3, loads := BothLoad(cfg, y, scope, a, b);
    hide MemoryKeys.Clean;
    TurnSaves(cfg, y3, k);
    var y4 := Step(cfg, y3, Advance(k));
    assert y4.jobs[j] == y3.jobs[j];
    TurnSaves(cfg, y4, j);
    hide Step;
    ExecAppend(cfg, y, loads, [Advance(k)] + ([Advance(j)] + []));
    ExecCons(cfg, y3, Advance(k), [Advance(j)] + []);
    ExecLast(cfg, y4, Advance(j));
    run := loads + ([Advance(k)] + ([Advance(j)] + []));
  }

  lemma ExecLast(cfg: Config, y: System, op: Op)
    ensures Exec(cfg, y, [op] + []) == Step(cfg, y, op)
  {
    hide Step;
    ExecCons(cfg, y, op, []);
  }

  /** The two calls and their loads. */
  lemma BothLoad(cfg: Config, y: System, scope: Scope, a: string, b: string) returns (y3: System, run: seq<Op>)
    requires ValidSessionScope(scope) && MemoryKeys.Clean(a) != "" && MemoryKeys.Clean(b) != ""
    ensures y3 == Exec(cfg, y, run)
    ensures var ma, mb := Message(User, MemoryKeys.Clean(a)), Message(User, MemoryKeys.Clean(b));
            var saving := Saving(Resolve(y.policies, cfg, scope), Load(y.sessions, SessionKey(scope)));
            y3 == y.(jobs := y.jobs + [Job(scope, [ma], saving), Job(scope, [mb], saving)])
  {
    hide Resolve;
    hide Levels;
    hide SessionKey;
    hide Exec;
    OneSaid(a);
    OneSaid(b);
    hide TurnMessages;
    hide MemoryKeys.Clean;
    var j, k := |y.jobs|, |y.jobs| + 1;
    var ma, mb := Message(User, MemoryKeys.Clean(a)), Message(User, MemoryKeys.Clean(b));
    var first, second := Call(scope, a, ""), Call(scope, b, "");
    var y0 := Step(cfg, y, first);
    var y1 := Step(cfg, y0, second);
    ghost var start := Resolving([], Levels(scope));
    assert y1 == y.(jobs := y.jobs + [Job(scope, [ma], start), Job(scope, [mb], start)]) by {
      assert y.jobs + [Job(scope, [ma], start)] + [Job(scope, [mb], start)] ==
             y.jobs + [Job(scope, [ma], start), Job(scope, [mb], start)];
    }
    hide Step;
    var loadA := TurnLoads(cfg, y1, j);
    var y2 := Exec(cfg, y1, loadA);
    var loadB := TurnLoads(cfg, y2, k);
    y3 := Exec(cfg, y2, loadB);
    ExecAppend(cfg, y1, loadA, loadB);
    ExecCons(cfg, y0, second, loadA + loadB);
    ExecCons(cfg, y, first, [second] + (loadA + loadB));
    run := [first] + ([second] + (loadA + loadB));
  }

  lemma TranscriptTwo(log: seq<Entry>, e: Entry, f: Entry)
    requires e.Turn? && f.Turn? && e.key == f.key
    ensures Transcript(log + [e] + [f], e.key) == Transcript(log, e.key) + e.said + f.said
  {
    assert (log + [e] + [f])[..|log| + 1] == log + [e] && (log + [e])[..|log|] == log;
  }

  lemma NoSuffix(t: seq<Message>, x: Message, a: Message, b: Message)
    requires x != b
    ensures !IsSuffix([x, a], t + [b] + [a]) && !IsSuffix([x, a], t + [a] + [b])
  {
    assert (t + [b] + [a])[|t|..] == [b, a] && (t + [a] + [b])[|t|..] == [a, b];
    assert [x, a][0] == x && [x, a][1] == a && [b, a][0] == b && [a, b][0] == a && [a, b][1] == b;
  }
}
