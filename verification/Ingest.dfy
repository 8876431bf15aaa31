/** The ingest path of the manager dispatcher: submitters hash a partition key to a shard and write
    to its bounded queue, one worker per shard runs the tasks, and `stop` joins the workers. A
    submission is two atomic steps (load `running_`, then write the queue), so it can straddle a
    stop. A run is any sequence of actions; an action that is not enabled changes nothing. */
module Ingest {
  import opened Seqs

  /** A submitted task; `id` tells apart submissions of the same work. */
  datatype Task = Task(id: nat, key: string)

  /** `hash` is `std::hash`; the constructor makes at least one shard with room for one task. */
  datatype Config = Config(shardCount: nat, queueCapacity: nat, hash: string -> nat) {
    function Shards(): (n: nat)
      ensures n >= 1 && n >= shardCount && (n == 1 || n == shardCount)
    {
      if shardCount == 0 then 1 else shardCount
    }

    function Room(): (n: nat)
      ensures n >= 1 && n >= queueCapacity && (n == 1 || n == queueCapacity)
    {
      if queueCapacity == 0 then 1 else queueCapacity
    }

    /** `shardIndexFor`. */
    function ShardOf(key: string): (i: nat)
      ensures i < Shards()
    {
      hash(key) % Shards()
    }
  }

  /** Where a worker is in `ingestWorkerLoop`. */
  datatype Worker = Top | SizeCheck | Reading | Running(task: Task) | Exited

  datatype Shard = Shard(queue: seq<Task>, worker: Worker)

  datatype Stopper = NotStopping | Joining(next: nat) | Returned

  /** `pending` holds the submissions that saw `running_` and have not written yet. The histories
      list accepted and refused tasks, tasks taken up by a worker and tasks completed, each in its
      order. */
  datatype State = State(running: bool, nextId: nat, pending: map<nat, Task>, shards: seq<Shard>,
                         accepted: seq<Task>, refused: seq<Task>, started: seq<Task>, finished: seq<Task>,
                         stopper: Stopper)

  datatype Action =
    | Load(key: string)     // `running_.load()` of a submission
    | Write(id: nat)        // `queue.write` of a submission that saw `running_`
    | Work(shard: nat)      // one step of a shard's worker
    | BeginStop             // the compare-exchange in `stop`
    | Join                  // `stop` joins the next worker, or returns

  /** The dispatcher just after `start`. */
  function Initial(cfg: Config): State {
    State(true, 0, map[], seq(cfg.Shards(), _ => Shard([], Top)), [], [], [], [], NotStopping)
  }

  function SetShard(s: State, i: nat, shard: Shard): State
    requires i < |s.shards|
  {
    s.(shards := s.shards[i := shard])
  }

  /** One step of `ingestWorkerLoop`: load `running_`, load the size, read, or complete a task. */
  function WorkStep(s: State, i: nat): State
    requires i < |s.shards|
  {
    var shard := s.shards[i];
    match shard.worker
    case Top => SetShard(s, i, shard.(worker := if s.running then Reading else SizeCheck))
    case SizeCheck => SetShard(s, i, shard.(worker := if |shard.queue| > 0 then Reading else Exited))
    case Reading =>
      if shard.queue == [] then SetShard(s, i, shard.(worker := Top))
      else
        var task := shard.queue[0];
        SetShard(s.(started := s.started + [task]), i, Shard(shard.queue[1..], Running(task)))
    case Running(task) =>
      SetShard(s.(finished := s.finished + [task]), i, shard.(worker := Top))
    case Exited => s
  }

  function WriteStep(cfg: Config, s: State, id: nat): State
    requires id in s.pending && |s.shards| == cfg.Shards()
  {
    var task := s.pending[id];
    var i := cfg.ShardOf(task.key);
    var queue := s.shards[i].queue;
    var t := s.(pending := s.pending - {id});
    if |queue| < cfg.Room()
    then SetShard(t.(accepted := t.accepted + [task]), i, s.shards[i].(queue := queue + [task]))
    else t.(refused := t.refused + [task])
  }

  function Step(cfg: Config, s: State, a: Action): (t: State)
    requires |s.shards| == cfg.Shards()
    ensures |t.shards| == |s.shards|
  {
    match a
    case Load(key) =>
      if s.running
      then s.(nextId := s.nextId + 1, pending := s.pending[s.nextId := Task(s.nextId, key)]) else s
    case Write(id) => if id in s.pending then WriteStep(cfg, s, id) else s
    case Work(i) => if i < |s.shards| then WorkStep(s, i) else s
    case BeginStop =>
      if s.running && s.stopper == NotStopping then s.(running := false, stopper := Joining(0)) else s
    case Join =>
      match s.stopper {
        case Joining(i) =>
          if i >= |s.shards| then s.(stopper := Returned)
          else if s.shards[i].worker.Exited? then s.(stopper := Joining(i + 1))
          else s
        case _ => s
      }
  }

  function Exec(cfg: Config, s: State, run: seq<Action>): (t: State)
    requires |s.shards| == cfg.Shards()
    ensures |t.shards| == |s.shards|
    decreases |run|
  {
    if run == [] then s else Exec(cfg, Step(cfg, s, run[0]), run[1..])
  }

  lemma {:induction false} ExecAppend(cfg: Config, s: State, a: seq<Action>, b: seq<Action>)
    requires |s.shards| == cfg.Shards()
    ensures Exec(cfg, s, a + b) == Exec(cfg, Exec(cfg, s, a), b)
    decreases |a|
  {
    if a == [] {
      assert a + b == b;
    } else {
      assert (a + b)[0] == a[0] && (a + b)[1..] == a[1..] + b;
      ExecAppend(cfg, Step(cfg, s, a[0]), a[1..], b);
    }
  }

  // --------------------------------------------------------------- invariant

  function OnShard(cfg: Config, i: nat): Task -> bool {
    (t: Task) => cfg.ShardOf(t.key) == i
  }

  function ForKey(key: string): Task -> bool {
    (t: Task) => t.key == key
  }

  function InFlight(w: Worker): seq<Task> {
    if w.Running? then [w.task] else []
  }

  /** On shard `i`: accepted tasks are the started ones followed by the queue, and started tasks are
      the finished ones followed by the one being run. */
  ghost predicate ShardInv(cfg: Config, s: State, i: nat)
    requires i < |s.shards|
  {
    var shard := s.shards[i];
    && |shard.queue| <= cfg.Room()
    && Filter(OnShard(cfg, i), s.accepted) == Filter(OnShard(cfg, i), s.started) + shard.queue
    && Filter(OnShard(cfg, i), s.started) == Filter(OnShard(cfg, i), s.finished) + InFlight(shard.worker)
    && (shard.worker.Exited? || shard.worker.SizeCheck? ==> !s.running)
  }

  /** Submission ids are used once. */
  ghost predicate IdInv(s: State) {
    && (forall id | id in s.pending :: s.pending[id].id == id < s.nextId)
    && (forall t | t in s.accepted :: t.id < s.nextId && t.id !in s.pending)
    && (forall i, j | 0 <= i < j < |s.accepted| :: s.accepted[i].id != s.accepted[j].id)
  }

  /** `stop` has joined the workers before `next`, so those have left their loop. */
  ghost predicate StopInv(s: State) {
    && (s.stopper != NotStopping ==> !s.running)
    && (s.stopper.Joining? ==> forall i | 0 <= i < s.stopper.next && i < |s.shards| :: s.shards[i].worker.Exited?)
    && (s.stopper.Returned? ==> forall i | 0 <= i < |s.shards| :: s.shards[i].worker.Exited?)
  }

  ghost predicate Inv(cfg: Config, s: State) {
    && |s.shards| == cfg.Shards()
    && (forall i | 0 <= i < |s.shards| :: ShardInv(cfg, s, i))
    && IdInv(s)
    && StopInv(s)
  }

  lemma InitialInv(cfg: Config)
    ensures Inv(cfg, Initial(cfg))
  {
  }

  /** Appending one task to a history moves only the shard the task belongs to. */
  lemma FilterSnoc(p: Task -> bool, s: seq<Task>, t: Task)
    ensures Filter(p, s + [t]) == Filter(p, s) + if p(t) then [t] else []
  {
    FilterAppend(p, s, [t]);
  }

  lemma WorkKeepsShard(cfg: Config, s: State, i: nat, j: nat)
    requires Inv(cfg, s) && i < |s.shards| && j < |s.shards|
    ensures ShardInv(cfg, WorkStep(s, i), j)
  {
    hide Filter;
    var shard := s.shards[i];
    assert ShardInv(cfg, s, j);
    if shard.worker == Reading && shard.queue != [] {
      ReadKeepsShard(cfg, s, i, j);
    } else if shard.worker.Running? {
      CompleteKeepsShard(cfg, s, i, j);
    }
  }

  lemma ReadKeepsShard(cfg: Config, s: State, i: nat, j: nat)
    requires Inv(cfg, s) && i < |s.shards| && j < |s.shards|
    requires s.shards[i].worker == Reading && s.shards[i].queue != []
    ensures ShardInv(cfg, WorkStep(s, i), j)
  {
    hide Filter;
    var task := s.shards[i].queue[0];
    assert ShardInv(cfg, s, j);
    QueueHeadOnShard(cfg, s, i);
    FilterSnoc(OnShard(cfg, j), s.started, task);
    if i == j {
      var before := Filter(OnShard(cfg, i), s.started);
      assert before + s.shards[i].queue == (before + [task]) + s.shards[i].queue[1..];
      assert Filter(OnShard(cfg, i), s.finished) + [] == Filter(OnShard(cfg, i), s.finished);
    } else {
      assert Filter(OnShard(cfg, j), s.started + [task]) == Filter(OnShard(cfg, j), s.started);
    }
  }

  lemma CompleteKeepsShard(cfg: Config, s: State, i: nat, j: nat)
    requires Inv(cfg, s) && i < |s.shards| && j < |s.shards|
    requires s.shards[i].worker.Running?
    ensures ShardInv(cfg, WorkStep(s, i), j)
  {
    hide Filter;
    var task := s.shards[i].worker.task;
    assert ShardInv(cfg, s, j);
    RunningOnShard(cfg, s, i);
    FilterSnoc(OnShard(cfg, j), s.finished, task);
    if i == j {
      assert Filter(OnShard(cfg, i), s.started) + [] == Filter(OnShard(cfg, i), s.started);
    } else {
      assert Filter(OnShard(cfg, j), s.finished + [task]) == Filter(OnShard(cfg, j), s.finished);
    }
  }

  lemma QueueHeadOnShard(cfg: Config, s: State, i: nat)
    requires Inv(cfg, s) && i < |s.shards| && s.shards[i].queue != []
    ensures cfg.ShardOf(s.shards[i].queue[0].key) == i
  {
    assert ShardInv(cfg, s, i);
    var task := s.shards[i].queue[0];
    assert task in Filter(OnShard(cfg, i), s.accepted);
    FilterMember(OnShard(cfg, i), s.accepted, task);
  }

  lemma RunningOnShard(cfg: Config, s: State, i: nat)
    requires Inv(cfg, s) && i < |s.shards| && s.shards[i].worker.Running?
    ensures cfg.ShardOf(s.shards[i].worker.task.key) == i
  {
    assert ShardInv(cfg, s, i);
    var task := s.shards[i].worker.task;
    assert task in Filter(OnShard(cfg, i), s.started);
    FilterMember(OnShard(cfg, i), s.started, task);
  }

  lemma WriteKeepsShard(cfg: Config, s: State, id: nat, j: nat)
    requires Inv(cfg, s) && id in s.pending && j < |s.shards|
    ensures ShardInv(cfg, WriteStep(cfg, s, id), j)
  {
    hide Filter;
    assert ShardInv(cfg, s, j);
    var task := s.pending[id];
    FilterSnoc(OnShard(cfg, j), s.accepted, task);
    var queue := s.shards[j].queue;
    assert Filter(OnShard(cfg, j), s.started) + (queue + [task]) ==
           (Filter(OnShard(cfg, j), s.started) + queue) + [task];
  }

  lemma WriteKeepsIds(cfg: Config, s: State, id: nat)
    requires Inv(cfg, s) && id in s.pending
    ensures IdInv(WriteStep(cfg, s, id))
  {
    var t := WriteStep(cfg, s, id);
    forall x | x in t.accepted ensures x.id < t.nextId && x.id !in t.pending {
      assert x in s.accepted || x == s.pending[id];
    }
  }

  lemma SameShards(cfg: Config, s: State, t: State)
    requires Inv(cfg, s) && t.shards == s.shards && (t.running ==> s.running)
    requires t.accepted == s.accepted && t.started == s.started && t.finished == s.finished
    ensures forall i | 0 <= i < |t.shards| :: ShardInv(cfg, t, i)
  {
    forall i | 0 <= i < |t.shards| ensures ShardInv(cfg, t, i) { assert ShardInv(cfg, s, i); }
  }

  lemma WriteKeepsInv(cfg: Config, s: State, id: nat)
    requires Inv(cfg, s) && id in s.pending
    ensures Inv(cfg, WriteStep(cfg, s, id))
  {
    hide Filter;
    hide ShardInv;
    WriteKeepsIds(cfg, s, id);
    hide IdInv;
    var t := WriteStep(cfg, s, id);
    forall j | 0 <= j < |s.shards| ensures ShardInv(cfg, t, j) { WriteKeepsShard(cfg, s, id, j); }
  }

  lemma WorkKeepsInv(cfg: Config, s: State, i: nat)
    requires Inv(cfg, s) && i < |s.shards|
    ensures Inv(cfg, WorkStep(s, i))
  {
    hide Filter;
    hide ShardInv;
    var t := WorkStep(s, i);
    assert t.pending == s.pending && t.accepted == s.accepted && t.nextId == s.nextId;
    hide IdInv;
    forall j | 0 <= j < |s.shards| ensures ShardInv(cfg, t, j) { WorkKeepsShard(cfg, s, i, j); }
    WorkKeepsIds(s, i);
  }

  lemma WorkKeepsIds(s: State, i: nat)
    requires i < |s.shards| && IdInv(s)
    ensures IdInv(WorkStep(s, i))
  {
  }

  lemma LoadKeepsInv(cfg: Config, s: State, key: string)
    requires Inv(cfg, s)
    ensures Inv(cfg, Step(cfg, s, Load(key)))
  {
    hide ShardInv;
    SameShards(cfg, s, Step(cfg, s, Load(key)));
  }

  lemma StopKeepsInv(cfg: Config, s: State, a: Action)
    requires Inv(cfg, s) && (a == BeginStop || a == Join)
    ensures Inv(cfg, Step(cfg, s, a))
  {
    hide ShardInv;
    SameShards(cfg, s, Step(cfg, s, a));
  }

  lemma StepKeepsInv(cfg: Config, s: State, a: Action)
    requires Inv(cfg, s)
    ensures Inv(cfg, Step(cfg, s, a))
  {
    hide Inv;
    hide WriteStep;
    hide WorkStep;
    match a
    case Load(key) => LoadKeepsInv(cfg, s, key);
    case Write(id) => if id in s.pending { WriteKeepsInv(cfg, s, id); }
    case Work(i) => if i < |s.shards| { WorkKeepsInv(cfg, s, i); }
    case BeginStop => StopKeepsInv(cfg, s, a);
    case Join => StopKeepsInv(cfg, s, a);
  }

  lemma {:induction false} RunKeepsInv(cfg: Config, s: State, run: seq<Action>)
    requires Inv(cfg, s)
    ensures Inv(cfg, Exec(cfg, s, run))
    decreases |run|
  {
    if run != [] {
      StepKeepsInv(cfg, s, run[0]);
      RunKeepsInv(cfg, Step(cfg, s, run[0]), run[1..]);
    }
  }

  // ------------------------------------------------------- order within a key

  lemma KeyView(cfg: Config, s: seq<Task>, key: string)
    ensures Filter(ForKey(key), Filter(OnShard(cfg, cfg.ShardOf(key)), s)) == Filter(ForKey(key), s)
  {
    FilterNarrow(ForKey(key), OnShard(cfg, cfg.ShardOf(key)), s);
  }

  lemma FilterKeepsDistinct(p: Task -> bool, s: seq<Task>)
    requires Distinct(s)
    ensures Distinct(Filter(p, s))
  {
    if s != [] {
      assert forall i | 0 <= i < |s| - 1 :: s[1..][i] == s[i + 1];
      FilterKeepsDistinct(p, s[1..]);
      FilterMember(p, s[1..], s[0]);
    }
  }

  /** In every run, for every partition key: the tasks completed are a prefix of the tasks taken up,
      at most one behind them, and those are a prefix of the tasks accepted; nothing is repeated. */
  lemma KeyOrderIsKept(cfg: Config, run: seq<Action>, key: string)
    ensures var s := Exec(cfg, Initial(cfg), run);
            var accepted := Filter(ForKey(key), s.accepted);
            var started := Filter(ForKey(key), s.started);
            var finished := Filter(ForKey(key), s.finished);
            finished <= started <= accepted && |started| <= |finished| + 1 && Distinct(accepted)
  {
    InitialInv(cfg);
    RunKeepsInv(cfg, Initial(cfg), run);
    var s := Exec(cfg, Initial(cfg), run);
    var i := cfg.ShardOf(key);
    var p, q := ForKey(key), OnShard(cfg, cfg.ShardOf(key));
    assert ShardInv(cfg, s, i);
    KeyView(cfg, s.accepted, key);
    KeyView(cfg, s.started, key);
    KeyView(cfg, s.finished, key);
    FilterAppend(p, Filter(q, s.started), s.shards[i].queue);
    FilterAppend(p, Filter(q, s.finished), InFlight(s.shards[i].worker));
    FilterKeepsDistinct(p, s.accepted);
  }

  // ------------------------------------------------------------------ stopping

  /** Everything accepted has been run. */
  ghost predicate AllRun(s: State) {
    forall key: string :: Filter(ForKey(key), s.finished) == Filter(ForKey(key), s.accepted)
  }

  /** After a stop that no submission straddles: workers that left found their queue empty for good. */
  ghost predicate Quiet(s: State) {
    && !s.running && s.pending == map[]
    && forall i | 0 <= i < |s.shards| && s.shards[i].worker.Exited? :: s.shards[i].queue == []
  }

  lemma {:induction false} RunKeepsQuiet(cfg: Config, s: State, run: seq<Action>)
    requires |s.shards| == cfg.Shards() && Quiet(s)
    ensures Quiet(Exec(cfg, s, run))
    decreases |run|
  {
    if run != [] {
      RunKeepsQuiet(cfg, Step(cfg, s, run[0]), run[1..]);
    }
  }

  lemma QuietReturnHasRunAll(cfg: Config, s: State)
    requires Inv(cfg, s) && Quiet(s) && s.stopper == Returned
    ensures AllRun(s)
  {
    hide Filter;
    forall key: string ensures Filter(ForKey(key), s.finished) == Filter(ForKey(key), s.accepted) {
      var i := cfg.ShardOf(key);
      assert ShardInv(cfg, s, i);
      var all := Filter(OnShard(cfg, i), s.finished);
      assert Filter(OnShard(cfg, i), s.accepted) == all + [] + [] == all;
      KeyView(cfg, s.accepted, key);
      KeyView(cfg, s.finished, key);
    }
  }

  /** Steps a stopped shard still needs before its worker exits. */
  function ToGo(shard: Shard): nat {
    match shard.worker
    case Top => 6 * |shard.queue| + 2
    case SizeCheck => 6 * |shard.queue| + 1
    case Reading => if shard.queue == [] then 3 else 6 * |shard.queue|
    case Running(_) => 6 * |shard.queue| + 5
    case Exited => 0
  }

  /** Left alone after a stop, a worker empties its queue and exits; other shards do not move. */
  lemma {:induction false} DrainShard(cfg: Config, s: State, i: nat) returns (run: seq<Action>)
    requires Inv(cfg, s) && !s.running && i < |s.shards|
    requires s.shards[i].worker.Exited? ==> s.shards[i].queue == []
    ensures var t := Exec(cfg, s, run);
            Inv(cfg, t) && !t.running && t.pending == s.pending && t.stopper == s.stopper &&
            t.shards[i] == Shard([], Exited) &&
            forall j | 0 <= j < |s.shards| && j != i :: t.shards[j] == s.shards[j]
    decreases ToGo(s.shards[i])
  {
    if s.shards[i].worker.Exited? {
      run := [];
    } else {
      StepKeepsInv(cfg, s, Work(i));
      var rest := DrainShard(cfg, Step(cfg, s, Work(i)), i);
      run := [Work(i)] + rest;
      assert run[1..] == rest;
    }
  }

  lemma {:induction false} DrainFrom(cfg: Config, s: State, i: nat) returns (run: seq<Action>)
    requires Inv(cfg, s) && !s.running && i <= |s.shards|
    requires forall j | 0 <= j < |s.shards| && s.shards[j].worker.Exited? :: s.shards[j].queue == []
    requires forall j | 0 <= j < i :: s.shards[j].worker.Exited?
    ensures var t := Exec(cfg, s, run);
            Inv(cfg, t) && !t.running && t.pending == s.pending && t.stopper == s.stopper &&
            forall j | 0 <= j < |t.shards| :: t.shards[j] == Shard([], Exited)
    decreases |s.shards| - i
  {
    if i == |s.shards| {
      run := [];
      assert forall j | 0 <= j < |s.shards| :: s.shards[j] == Shard([], Exited);
    } else {
      var first := DrainShard(cfg, s, i);
      var rest := DrainFrom(cfg, Exec(cfg, s, first), i + 1);
      run := first + rest;
      ExecAppend(cfg, s, first, rest);
    }
  }

  /** With all workers gone, `stop` joins them one after another and returns. */
  lemma {:induction false} JoinAll(cfg: Config, s: State) returns (run: seq<Action>)
    requires |s.shards| == cfg.Shards() && s.stopper.Joining?
    requires forall i | 0 <= i < |s.shards| :: s.shards[i].worker.Exited?
    ensures Exec(cfg, s, run) == s.(stopper := Returned)
    decreases |s.shards| - s.stopper.next
  {
    if s.stopper.next >= |s.shards| {
      run := [Join];
      assert Exec(cfg, Step(cfg, s, Join), run[1..]) == Step(cfg, s, Join);
    } else {
      var rest := JoinAll(cfg, Step(cfg, s, Join));
      run := [Join] + rest;
      assert run[1..] == rest;
    }
  }

  /** A straddling submission can be accepted by a shard nobody serves any more. */
  lemma StraddlerIsLost(cfg: Config, s: State, id: nat) returns (run: seq<Action>)
    requires Inv(cfg, s) && !s.running && id in s.pending && s.stopper == Joining(0)
    requires forall j | 0 <= j < |s.shards| && s.shards[j].worker.Exited? :: s.shards[j].queue == []
    ensures Exec(cfg, s, run).stopper == Returned && !AllRun(Exec(cfg, s, run))
  {
    hide Filter;
    hide Step;
    var drain := DrainFrom(cfg, s, 0);
    var d := Exec(cfg, s, drain);
    var w := LateWrite(cfg, d, id);
    var join := JoinAll(cfg, w);
    run := drain + ([Write(id)] + join);
    ExecAppend(cfg, s, drain, [Write(id)] + join);
    assert ([Write(id)] + join)[0] == Write(id) && ([Write(id)] + join)[1..] == join;
  }

  lemma LateWrite(cfg: Config, d: State, id: nat) returns (w: State)
    requires Inv(cfg, d) && id in d.pending
    requires forall j | 0 <= j < |d.shards| :: d.shards[j] == Shard([], Exited)
    ensures w == Step(cfg, d, Write(id)) && |w.shards| == |d.shards| && w.stopper == d.stopper
    ensures forall j | 0 <= j < |w.shards| :: w.shards[j].worker.Exited?
    ensures !AllRun(w.(stopper := Returned))
  {
    hide Filter;
    w := Step(cfg, d, Write(id));
    StepKeepsInv(cfg, d, Write(id));
    var task := d.pending[id];
    var i := cfg.ShardOf(task.key);
    assert w.shards[i].queue == [task];
    assert ShardInv(cfg, w, i);
    LostTask(cfg, w.(stopper := Returned), task);
  }

  lemma LostTask(cfg: Config, s: State, task: Task)
    requires |s.shards| == cfg.Shards()
    requires var i := cfg.ShardOf(task.key);
             ShardInv(cfg, s, i) && s.shards[i].queue == [task] && s.shards[i].worker.Exited?
    ensures !AllRun(s)
  {
    hide Filter;
    var i, key := cfg.ShardOf(task.key), task.key;
    var p, q := ForKey(key), OnShard(cfg, i);
    KeyView(cfg, s.accepted, key);
    KeyView(cfg, s.started, key);
    KeyView(cfg, s.finished, key);
    FilterSnoc(p, Filter(q, s.started), task);
    assert Filter(q, s.started) == Filter(q, s.finished) + [] == Filter(q, s.finished);
    assert Filter(q, s.accepted) == Filter(q, s.started) + [task] && p(task);
    assert |Filter(p, s.accepted)| == |Filter(p, s.finished)| + 1;
  }

  /** When `stop` begins in a reachable state, every continuation in which it returns has run every
      accepted task exactly when no submission is between its `running_` load and its write. */
  lemma StopRunsEverythingIff(cfg: Config, run: seq<Action>)
    requires Exec(cfg, Initial(cfg), run).stopper == NotStopping
    ensures var s := Step(cfg, Exec(cfg, Initial(cfg), run), BeginStop);
            (forall more :: Exec(cfg, s, more).stopper == Returned ==> AllRun(Exec(cfg, s, more))) <==>
            s.pending == map[]
  {
    hide Filter;
    InitialInv(cfg);
    RunKeepsInv(cfg, Initial(cfg), run);
    var before := Exec(cfg, Initial(cfg), run);
    RunningUntilStop(cfg, Initial(cfg), run);
    StepKeepsInv(cfg, before, BeginStop);
    var s := Step(cfg, before, BeginStop);
    forall i | 0 <= i < |s.shards| ensures !s.shards[i].worker.Exited? {
      assert ShardInv(cfg, before, i);
    }
    if s.pending == map[] {
      forall more | Exec(cfg, s, more).stopper == Returned ensures AllRun(Exec(cfg, s, more)) {
        RunKeepsInv(cfg, s, more);
        RunKeepsQuiet(cfg, s, more);
        QuietReturnHasRunAll(cfg, Exec(cfg, s, more));
      }
    } else {
      var id :| id in s.pending;
      var more := StraddlerIsLost(cfg, s, id);
      assert Exec(cfg, s, more).stopper == Returned && !AllRun(Exec(cfg, s, more));
    }
  }

  lemma {:induction false} RunningUntilStop(cfg: Config, s: State, run: seq<Action>)
    requires |s.shards| == cfg.Shards()
    requires s.running <==> s.stopper == NotStopping
    ensures Exec(cfg, s, run).running <==> Exec(cfg, s, run).stopper == NotStopping
    decreases |run|
  {
    if run != [] { RunningUntilStop(cfg, Step(cfg, s, run[0]), run[1..]); }
  }

  // ---------------------------------------------------------------- acceptance

  /** A submission whose two steps nobody disturbs: its task is accepted, at the end of the queue of shard
      `hash(key)` modulo the number of shards, if and only if the dispatcher is running and that queue
      holds less than the larger of one and the capacity. A submission that saw `running_` and is not
      accepted is refused; one that did not see it leaves no trace. No other shard moves. */
  lemma SubmitIff(cfg: Config, s: State, key: string)
    requires |s.shards| == cfg.Shards() && s.nextId !in s.pending
    ensures var shards := if cfg.shardCount < 1 then 1 else cfg.shardCount;
            var room := if cfg.queueCapacity < 1 then 1 else cfg.queueCapacity;
            var i, task := cfg.hash(key) % shards, Task(s.nextId, key);
            var t := Exec(cfg, s, [Load(key), Write(s.nextId)]);
            i < |s.shards| &&
            if s.running && |s.shards[i].queue| < room then
              t == s.(nextId := s.nextId + 1, accepted := s.accepted + [task],
                      shards := s.shards[i := s.shards[i].(queue := s.shards[i].queue + [task])])
            else if s.running then t == s.(nextId := s.nextId + 1, refused := s.refused + [task])
            else t == s
  {
    var t1 := Step(cfg, s, Load(key));
    var t2 := Step(cfg, t1, Write(s.nextId));
    assert s.running ==> t1.pending - {s.nextId} == s.pending;
    assert cfg.ShardOf(key) == cfg.hash(key) % cfg.Shards();
    hide Step;
    assert [Load(key), Write(s.nextId)][1..] == [Write(s.nextId)] && [Write(s.nextId)][1..] == [];
    assert Exec(cfg, t1, [Write(s.nextId)]) == t2;
  }

  /** A submission about to write meets a full queue. */
  predicate MeetsFullQueue(cfg: Config, s: State, a: Action)
    requires |s.shards| == cfg.Shards()
  {
    a.Write? && a.id in s.pending &&
    |s.shards[cfg.ShardOf(s.pending[a.id].key)].queue| >= if cfg.queueCapacity < 1 then 1 else cfg.queueCapacity
  }

  ghost predicate EverFull(cfg: Config, s: State, run: seq<Action>)
    requires |s.shards| == cfg.Shards()
    decreases |run|
  {
    run != [] && (MeetsFullQueue(cfg, s, run[0]) || EverFull(cfg, Step(cfg, s, run[0]), run[1..]))
  }

  lemma RefusalStep(cfg: Config, s: State, a: Action)
    requires |s.shards| == cfg.Shards()
    ensures var t := Step(cfg, s, a);
            s.refused <= t.refused && (t.refused == s.refused <==> !MeetsFullQueue(cfg, s, a))
  {
  }

  /** A run refuses a task exactly when one of its submissions meets a full queue. */
  lemma {:induction false} RefusedIffFull(cfg: Config, s: State, run: seq<Action>)
    requires |s.shards| == cfg.Shards()
    ensures s.refused <= Exec(cfg, s, run).refused
    ensures Exec(cfg, s, run).refused == s.refused <==> !EverFull(cfg, s, run)
    decreases |run|
  {
    if run != [] {
      RefusalStep(cfg, s, run[0]);
      hide Step;
      hide MeetsFullQueue;
      RefusedIffFull(cfg, Step(cfg, s, run[0]), run[1..]);
    }
  }

  ghost predicate Accounted(s: State) {
    && (forall id | id in s.pending :: id < s.nextId)
    && s.nextId == |s.accepted| + |s.refused| + |s.pending|
  }

  lemma AccountStep(cfg: Config, s: State, a: Action)
    requires |s.shards| == cfg.Shards() && Accounted(s)
    ensures Accounted(Step(cfg, s, a))
  {
    hide WriteStep;
    hide WorkStep;
    hide Accounted;
    match a
    case Write(id) => if id in s.pending { WriteAccounts(cfg, s, id); }
    case Load(key) => if s.running { LoadAccounts(s, key); }
    case Work(i) =>
      if i < |s.shards| {
        WorkKeepsSubmissions(s, i);
        SameAccount(s, WorkStep(s, i));
      }
    case BeginStop => SameAccount(s, Step(cfg, s, a));
    case Join => SameAccount(s, Step(cfg, s, a));
  }

  lemma SameAccount(s: State, t: State)
    requires Accounted(s) && t.nextId == s.nextId && t.pending == s.pending
    requires t.accepted == s.accepted && t.refused == s.refused
    ensures Accounted(t)
  {
  }

  lemma WriteAccounts(cfg: Config, s: State, id: nat)
    requires |s.shards| == cfg.Shards() && id in s.pending && Accounted(s)
    ensures Accounted(WriteStep(cfg, s, id))
  {
    WriteDecides(cfg, s, id);
    hide WriteStep;
    OneLess(s.pending, id);
  }

  lemma LoadAccounts(s: State, key: string)
    requires Accounted(s)
    ensures Accounted(s.(nextId := s.nextId + 1, pending := s.pending[s.nextId := Task(s.nextId, key)]))
  {
    OneMore(s.pending, s.nextId, Task(s.nextId, key));
  }

  lemma WriteDecides(cfg: Config, s: State, id: nat)
    requires |s.shards| == cfg.Shards() && id in s.pending
    ensures var t := WriteStep(cfg, s, id);
            t.nextId == s.nextId && t.pending == s.pending - {id} &&
            |t.accepted| + |t.refused| == |s.accepted| + |s.refused| + 1
  {
  }

  lemma WorkKeepsSubmissions(s: State, i: nat)
    requires i < |s.shards|
    ensures var t := WorkStep(s, i);
            t.nextId == s.nextId && t.pending == s.pending && t.accepted == s.accepted && t.refused == s.refused
  {
  }

  lemma OneLess(m: map<nat, Task>, id: nat)
    requires id in m
    ensures |m - {id}| == |m| - 1
  {
    assert m.Keys == (m - {id}).Keys + {id};
    assert |m| == |m.Keys| && |m - {id}| == |(m - {id}).Keys|;
  }

  lemma OneMore(m: map<nat, Task>, id: nat, task: Task)
    ensures id !in m ==> |m[id := task]| == |m| + 1
  {
    assert m[id := task].Keys == m.Keys + {id};
    assert |m| == |m.Keys| && |m[id := task]| == |m[id := task].Keys|;
  }

  /** In every run each submission that saw `running_` is accepted, refused or about to write. */
  lemma {:induction false} EverySubmissionIsAccounted(cfg: Config, s: State, run: seq<Action>)
    requires |s.shards| == cfg.Shards() && Accounted(s)
    ensures Accounted(Exec(cfg, s, run))
    decreases |run|
  {
    hide Step;
    hide Accounted;
    if run != [] {
      AccountStep(cfg, s, run[0]);
      EverySubmissionIsAccounted(cfg, Step(cfg, s, run[0]), run[1..]);
    }
  }
}
