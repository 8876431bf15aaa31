/** Whole runs of the long-term memory: saves and their upserts, any number of deletes and retries in
    progress at once, and time. Each access to the store or to the index is one step, so a delete is a
    job that lists, marks its items one by one, clears their vectors and marks them again. */
module LongTermRuns {
  import opened Options
  import opened Seqs
  import opened MemoryKeys
  import opened MemoryPolicy
  import opened LongTermItems
  import opened LongTermMemory

  /** Where a delete is; a retry starts at `Clearing`. A job is `Done` when all its items are marked
      deleted, and `Stopped` when the index or the store returned an error. */
  datatype Stage = Marking | Clearing | Finishing | Done | Stopped

  /** `next` is the position in `picked` of the item to be marked next. */
  datatype Job = Job(picked: seq<nat>, stage: Stage, next: nat)

  datatype System = System(store: Store, jobs: seq<Job>)

  datatype Op =
    | BeginSave(scope: Scope, kind: string, pending: bool, expires: Option<int>)
    | EndSave(id: nat, added: bool)                  // the upsert of a saved item
    | BeginDelete(sel: Selector, picked: seq<nat>)   // its listing
    | BeginRetry(sel: Selector, picked: seq<nat>)
    | Proceed(job: nat, ok: bool, gone: set<nat>)    // one access of a delete or retry
    | Tick(later: nat)

  function SetStatus(s: Store, id: nat, status: Status): Store
    requires id in s.items
  {
    s.(items := s.items[id := s.items[id].(status := status, updated := s.now)])
  }

  /** One access of a job; `ok` and `gone` say how the index answered. An unknown id ends the job. */
  function JobStep(s: Store, job: Job, ok: bool, gone: set<nat>): (Store, Job) {
    match job.stage
    case Marking =>
      if job.next >= |job.picked| then (s, job.(stage := Clearing))
      else if job.picked[job.next] !in s.items then (s, job.(stage := Stopped))
      else (SetStatus(s, job.picked[job.next], Deleting), job.(next := job.next + 1))
    case Clearing =>
      if ok then (s.(index := s.index - (set id | id in job.picked)), job.(stage := Finishing, next := 0))
      else (s.(index := s.index - gone), job.(stage := Stopped))
    case Finishing =>
      if job.next >= |job.picked| then (s, job.(stage := Done))
      else if job.picked[job.next] !in s.items then (s, job.(stage := Stopped))
      else (SetStatus(s, job.picked[job.next], Deleted), job.(next := job.next + 1))
    case Done => (s, job)
    case Stopped => (s, job)
  }

  ghost function Step(y: System, op: Op): System {
    match op
    case BeginSave(scope, kind, pending, expires) => y.(store := Save(y.store, scope, kind, pending, expires))
    case EndSave(id, added) => y.(store := Upsert(y.store, id, added))
    case BeginDelete(sel, picked) =>
      if ValidMemoryScope(sel.scope) && IsListing(y.store, sel, picked)
      then y.(jobs := y.jobs + [Job(picked, Marking, 0)]) else y
    case BeginRetry(sel, picked) =>
      if ValidMemoryScope(sel.scope) && IsListing(y.store, RetrySelector(sel), picked)
      then y.(jobs := y.jobs + [Job(picked, Clearing, 0)]) else y
    case Proceed(j, ok, gone) =>
      if j < |y.jobs| then
        var (store, job) := JobStep(y.store, y.jobs[j], ok, gone);
        System(store, y.jobs[j := job])
      else y
    case Tick(later) => y.(store := y.store.(now := y.store.now + later))
  }

  ghost function Exec(y: System, run: seq<Op>): System
    decreases |run|
  {
    if run == [] then y else Exec(Step(y, run[0]), run[1..])
  }

  lemma ExecCons(y: System, op: Op, run: seq<Op>)
    ensures Exec(y, [op] + run) == Exec(Step(y, op), run)
  {
    hide Step;
    assert ([op] + run)[1..] == run;
  }

  lemma {:induction false} ExecAppend(y: System, a: seq<Op>, b: seq<Op>)
    ensures Exec(y, a + b) == Exec(Exec(y, a), b)
    decreases |a|
  {
    hide Step;
    if a == [] {
      assert a + b == b;
    } else {
      assert (a + b)[0] == a[0] && (a + b)[1..] == a[1..] + b;
      ExecAppend(Step(y, a[0]), a[1..], b);
    }
  }

  // ---------------------------------------------------------------- statuses

  predicate Marked(item: Item) { item.status == Deleting || item.status == Deleted }

  /** Ids given out are below `nextId`, and whatever names an id names one of them. */
  predicate IdInv(y: System) {
    && (forall id | id in y.store.items :: id < y.store.nextId)
    && (forall id | id in y.store.unindexed + y.store.index :: id in y.store.items)
    && (forall j, id | 0 <= j < |y.jobs| && id in y.jobs[j].picked :: id in y.store.items)
  }

  lemma StepKeepsIds(y: System, op: Op)
    requires IdInv(y)
    ensures IdInv(Step(y, op))
  {
    hide Matches;
    hide ListLength;
    hide ValidMemoryScope;
    hide Normalized;
    var z := Step(y, op);
    if op.BeginDelete? { assert forall id | id in op.picked && z != y :: id in y.store.items; }
    if op.BeginRetry? { assert forall id | id in op.picked && z != y :: id in y.store.items; }
  }

  lemma StepKeepsItems(y: System, op: Op, id: nat)
    requires IdInv(y) && id in y.store.items
    ensures id in Step(y, op).store.items && y.store.now <= Step(y, op).store.now
    ensures var a, b := y.store.items[id], Step(y, op).store.items[id];
            b == a.(status := b.status, updated := b.updated) && (Marked(a) ==> Marked(b))
  {
    hide IsListing;
    hide ValidMemoryScope;
    hide Normalized;
  }

  /** Over any run an item keeps its place, kind and expiry, and once a delete has marked it, it is
      never active or pending again. */
  lemma {:induction false} MarkedStaysMarked(y: System, run: seq<Op>, id: nat)
    requires IdInv(y) && id in y.store.items
    ensures var z := Exec(y, run);
            IdInv(z) && id in z.store.items && y.store.now <= z.store.now
    ensures var a, b := y.store.items[id], Exec(y, run).store.items[id];
            b == a.(status := b.status, updated := b.updated) && (Marked(a) ==> Marked(b))
    decreases |run|
  {
    hide Step;
    hide IdInv;
    if run != [] {
      StepKeepsIds(y, run[0]);
      StepKeepsItems(y, run[0], id);
      MarkedStaysMarked(Step(y, run[0]), run[1..], id);
    }
  }

  // ------------------------------------------------- deleted items, no vector

  /** The vector of `id` has been cleared for good: it is deleted, or a delete is past clearing it. */
  ghost predicate ToStayGone(y: System, id: nat) {
    (id in y.store.items && y.store.items[id].status == Deleted) ||
    exists j | 0 <= j < |y.jobs| :: y.jobs[j].stage == Finishing && id in y.jobs[j].picked
  }

  /** No such item has a vector, or a vector still to come. */
  ghost predicate Gone(y: System) {
    forall id | ToStayGone(y, id) :: id !in y.store.index && id !in y.store.unindexed
  }

  /** The guard of the step that goes wrong: the index clears, for a delete or retry, an item whose
      upsert is outstanding. */
  ghost predicate ClearsOutstanding(y: System, op: Op) {
    op.Proceed? && op.ok && op.job < |y.jobs| && y.jobs[op.job].stage == Clearing &&
    exists id | id in y.jobs[op.job].picked :: id in y.store.unindexed
  }

  lemma GoneStepIff(y: System, op: Op)
    requires IdInv(y) && Gone(y)
    ensures Gone(Step(y, op)) <==> !ClearsOutstanding(y, op)
  {
    hide IsListing;
    hide ValidMemoryScope;
    hide Normalized;
    var z := Step(y, op);
    match op
    case BeginSave(_, _, _, _) => SaveKeepsGone(y, op);
    case EndSave(_, _) => forall id | ToStayGone(z, id) ensures ToStayGone(y, id) { SameJobs(y, z, id); }
    case BeginDelete(_, _) => BeginKeepsGone(y, z);
    case BeginRetry(_, _) => BeginKeepsGone(y, z);
    case Tick(_) => forall id | ToStayGone(z, id) ensures ToStayGone(y, id) { SameJobs(y, z, id); }
    case Proceed(j, ok, gone) => if j < |y.jobs| { ProceedGoneIff(y, j, ok, gone); }
  }

  lemma SameJobs(y: System, z: System, id: nat)
    requires z.jobs == y.jobs && z.store.items == y.store.items
    ensures ToStayGone(z, id) <==> ToStayGone(y, id)
  {
  }

  lemma SaveKeepsGone(y: System, op: Op)
    requires IdInv(y) && Gone(y) && op.BeginSave?
    ensures Gone(Step(y, op))
  {
    hide ValidMemoryScope;
    hide Normalized;
    var z := Step(y, op);
    forall id | ToStayGone(z, id) ensures ToStayGone(y, id) && id in y.store.items { }
  }

  lemma BeginKeepsGone(y: System, z: System)
    requires Gone(y) && z.store == y.store
    requires z == y || exists job: Job | job.stage != Finishing :: z.jobs == y.jobs + [job]
    ensures Gone(z)
  {
    forall id | ToStayGone(z, id) ensures ToStayGone(y, id) {
      if j :| 0 <= j < |z.jobs| && z.jobs[j].stage == Finishing && id in z.jobs[j].picked {
        assert j < |y.jobs| && y.jobs[j] == z.jobs[j];
      }
    }
  }

  lemma ProceedGoneIff(y: System, j: nat, ok: bool, gone: set<nat>)
    requires IdInv(y) && Gone(y) && j < |y.jobs|
    ensures Gone(Step(y, Proceed(j, ok, gone))) <==> !ClearsOutstanding(y, Proceed(j, ok, gone))
  {
    var op, job := Proceed(j, ok, gone), y.jobs[j];
    var z := Step(y, op);
    if ClearsOutstanding(y, op) {
      var id :| id in job.picked && id in y.store.unindexed;
      assert z.jobs[j].stage == Finishing && id in z.jobs[j].picked;
      assert ToStayGone(z, id);
    } else {
      forall id | ToStayGone(z, id) ensures id !in z.store.index && id !in z.store.unindexed {
        ProceedKeepsGone(y, j, ok, gone, id);
      }
    }
  }

  lemma ProceedKeepsGone(y: System, j: nat, ok: bool, gone: set<nat>, id: nat)
    requires Gone(y) && j < |y.jobs| && !ClearsOutstanding(y, Proceed(j, ok, gone))
    requires ToStayGone(Step(y, Proceed(j, ok, gone)), id)
    ensures var z := Step(y, Proceed(j, ok, gone)); id !in z.store.index && id !in z.store.unindexed
  {
  }

  /** Some step of the run clears an item whose upsert is outstanding. */
  ghost predicate MeetsOutstanding(y: System, run: seq<Op>)
    decreases |run|
  {
    run != [] && (ClearsOutstanding(y, run[0]) || MeetsOutstanding(Step(y, run[0]), run[1..]))
  }

  /** `Gone` holds in every state of the run. */
  ghost predicate GoneThroughout(y: System, run: seq<Op>)
    decreases |run|
  {
    Gone(y) && (run != [] ==> GoneThroughout(Step(y, run[0]), run[1..]))
  }

  /** Through any mix of saves, deletes, retries and index failures, overlapping as they may: in every
      state of the run no deleted item has a vector or one to come, exactly when no delete or retry of
      the run clears an item whose upsert is outstanding at that moment. */
  lemma {:induction false} DeletedHasNoVectorIff(y: System, run: seq<Op>)
    requires IdInv(y) && Gone(y)
    ensures GoneThroughout(y, run) <==> !MeetsOutstanding(y, run)
    decreases |run|
  {
    hide Step;
    hide IdInv;
    hide Gone;
    hide ClearsOutstanding;
    if run != [] {
      GoneStepIff(y, run[0]);
      if !ClearsOutstanding(y, run[0]) {
        StepKeepsIds(y, run[0]);
        DeletedHasNoVectorIff(Step(y, run[0]), run[1..]);
      } else {
        GoneThroughoutHead(Step(y, run[0]), run[1..]);
      }
    }
  }

  lemma GoneThroughoutHead(y: System, run: seq<Op>)
    ensures GoneThroughout(y, run) ==> Gone(y)
  {
  }

  /** A job past clearing marks the rest of its items deleted. */
  lemma {:induction false} FinishAlone(y: System, j: nat) returns (run: seq<Op>)
    requires j < |y.jobs| && y.jobs[j].stage == Finishing && y.jobs[j].next <= |y.jobs[j].picked|
    requires forall id | id in y.jobs[j].picked :: id in y.store.items
    ensures forall op | op in run :: op.Proceed?
    ensures var job, z := y.jobs[j], Exec(y, run);
            z == System(y.store.(items := MarkAll(y.store.items, job.picked[job.next..], Deleted, y.store.now)),
                        y.jobs[j := Job(job.picked, Done, |job.picked|)])
    decreases |y.jobs[j].picked| - y.jobs[j].next
  {
    var job := y.jobs[j];
    var op := Proceed(j, true, {});
    var z := Step(y, op);
    if job.next == |job.picked| {
      assert z == System(y.store, y.jobs[j := job.(stage := Done)]);
      assert job.picked[job.next..] == [] && MarkAll(y.store.items, [], Deleted, y.store.now) == y.store.items;
      hide Step;
      ExecCons(y, op, []);
      run := [op] + [];
    } else {
      var id := job.picked[job.next];
      assert id in job.picked;
      assert z == System(SetStatus(y.store, id, Deleted), y.jobs[j := job.(next := job.next + 1)]);
      hide Step;
      var rest := FinishAlone(z, j);
      hide Exec;
      ExecCons(y, op, rest);
      run := [op] + rest;
      MarkCons(y.store, job.picked, job.next, Deleted);
    }
  }

  lemma MarkCons(s: Store, picked: seq<nat>, n: nat, status: Status)
    requires n < |picked| && picked[n] in s.items
    ensures MarkAll(SetStatus(s, picked[n], status).items, picked[n + 1..], status, s.now) ==
            MarkAll(s.items, picked[n..], status, s.now)
  {
    assert picked[n..] == [picked[n]] + picked[n + 1..];
  }

  lemma {:induction false} MarkAlone(y: System, j: nat) returns (run: seq<Op>)
    requires j < |y.jobs| && y.jobs[j].stage == Marking && y.jobs[j].next <= |y.jobs[j].picked|
    requires forall id | id in y.jobs[j].picked :: id in y.store.items
    ensures var job, z := y.jobs[j], Exec(y, run);
            z == System(y.store.(items := MarkAll(y.store.items, job.picked[job.next..], Deleting, y.store.now)),
                        y.jobs[j := Job(job.picked, Clearing, |job.picked|)])
    decreases |y.jobs[j].picked| - y.jobs[j].next
  {
    var job := y.jobs[j];
    var op := Proceed(j, true, {});
    var z := Step(y, op);
    if job.next == |job.picked| {
      assert z == System(y.store, y.jobs[j := job.(stage := Clearing)]);
      assert job.picked[job.next..] == [] && MarkAll(y.store.items, [], Deleting, y.store.now) == y.store.items;
      hide Step;
      ExecCons(y, op, []);
      run := [op] + [];
    } else {
      var id := job.picked[job.next];
      assert id in job.picked;
      assert z == System(SetStatus(y.store, id, Deleting), y.jobs[j := job.(next := job.next + 1)]);
      hide Step;
      var rest := MarkAlone(z, j);
      hide Exec;
      ExecCons(y, op, rest);
      run := [op] + rest;
      MarkCons(y.store, job.picked, job.next, Deleting);
    }
  }

  /** The index step of a job and, if it succeeds, the final marks: what `Purge` does at once. */
  lemma ClearAlone(y: System, j: nat, ok: bool, gone: set<nat>) returns (run: seq<Op>)
    requires j < |y.jobs| && y.jobs[j].stage == Clearing
    requires forall id | id in y.jobs[j].picked :: id in y.store.items
    ensures Exec(y, run).store == Purge(y.store, y.jobs[j].picked, ok, gone)
    ensures |Exec(y, run).jobs| == |y.jobs| && Exec(y, run).jobs[j].stage == if ok then Done else Stopped
  {
    var op, picked := Proceed(j, ok, gone), y.jobs[j].picked;
    var z := Step(y, op);
    run := [];
    if ok {
      assert z == System(y.store.(index := y.store.index - set id | id in picked),
                         y.jobs[j := Job(picked, Finishing, 0)]);
      hide Step;
      run := FinishAlone(z, j);
      assert picked[0..] == picked;
    }
    hide Step;
    ExecCons(y, op, run);
    run := [op] + run;
  }

  /** Left alone, the accesses of a delete do what `Delete` does at once. */
  lemma DeleteAlone(y: System, sel: Selector, picked: seq<nat>, ok: bool, gone: set<nat>) returns (run: seq<Op>)
    requires ValidMemoryScope(sel.scope) && IsListing(y.store, sel, picked)
    ensures Exec(y, [BeginDelete(sel, picked)] + run).store == Delete(y.store, picked, ok, gone)
  {
    var j, z := |y.jobs|, Step(y, BeginDelete(sel, picked));
    assert z == System(y.store, y.jobs + [Job(picked, Marking, 0)]);
    assert forall id | id in picked :: id in y.store.items;
    hide Step;
    hide IsListing;
    var marks := MarkAlone(z, j);
    var marked := Exec(z, marks);
    assert picked[0..] == picked;
    hide Exec;
    var rest := ClearAlone(marked, j, ok, gone);
    ExecAppend(z, marks, rest);
    run := marks + rest;
    ExecCons(y, BeginDelete(sel, picked), run);
  }

  /** Left alone, the accesses of a retry do what `Purge` does at once. */
  lemma RetryAlone(y: System, sel: Selector, picked: seq<nat>, ok: bool, gone: set<nat>) returns (run: seq<Op>)
    requires ValidMemoryScope(sel.scope) && IsListing(y.store, RetrySelector(sel), picked)
    ensures Exec(y, [BeginRetry(sel, picked)] + run).store == Purge(y.store, picked, ok, gone)
  {
    var j, z := |y.jobs|, Step(y, BeginRetry(sel, picked));
    assert z == System(y.store, y.jobs + [Job(picked, Clearing, 0)]);
    assert forall id | id in picked :: id in y.store.items;
    hide Step;
    hide Exec;
    hide IsListing;
    run := ClearAlone(z, j, ok, gone);
    ExecCons(y, BeginRetry(sel, picked), run);
  }

  /** The condition is needed: whenever a delete or retry clears an item with an outstanding upsert,
      some continuation leaves a deleted item with a vector. */
  lemma LateUpsertLeavesVector(y: System, op: Op) returns (run: seq<Op>, id: nat)
    requires IdInv(y) && ClearsOutstanding(y, op)
    ensures id in y.jobs[op.job].picked && forall o | o in run :: o.EndSave? || o.Proceed?
    ensures var z := Exec(Step(y, op), run).store;
            id in z.items && z.items[id].status == Deleted && id in z.index
  {
    var j, picked := op.job, y.jobs[op.job].picked;
    id :| id in picked && id in y.store.unindexed;
    var z := Step(y, op);
    var u := Step(z, EndSave(id, true));
    assert id in u.store.index && u.jobs[j] == Job(picked, Finishing, 0);
    hide Step;
    var finish := FinishAlone(u, j);
    ExecCons(z, EndSave(id, true), finish);
    run := [EndSave(id, true)] + finish;
    assert picked[0..] == picked;
  }

  /** The store before anything was saved. */
  function Fresh(now: int): System { System(EmptyStore(now), []) }

  lemma FreshInv(now: int)
    ensures IdInv(Fresh(now)) && Gone(Fresh(now))
  {
  }

  /** The overlap is real from an empty store on: save, a delete of the item up to its clearing, the
      upsert of the save, the end of the delete. */
  lemma OverlapLeavesVector(scope: Scope, now: int) returns (run: seq<Op>)
    requires ValidMemoryScope(scope)
    ensures var z := Exec(Fresh(now), run).store;
            0 in z.items && z.items[0].status == Deleted && 0 in z.index
  {
    var sel := Selector(None, scope, "", None, false, 0);
    var save, delete, clear := BeginSave(scope, "note", false, None), BeginDelete(sel, [0]), Proceed(0, true, {});
    var y := SavedAndListed(scope, now);
    hide Step;
    var marks := MarkAlone(y, 0);
    var marked := Exec(y, marks);
    assert 0 in marked.jobs[0].picked && 0 in marked.store.unindexed;
    assert ClearsOutstanding(marked, clear);
    hide Exec;
    var late, _ := LateUpsertLeavesVector(marked, clear);
    ExecCons(marked, clear, late);
    ExecAppend(y, marks, [clear] + late);
    ExecCons(Step(Fresh(now), save), delete, marks + ([clear] + late));
    ExecCons(Fresh(now), save, [delete] + (marks + ([clear] + late)));
    run := [save] + ([delete] + (marks + ([clear] + late)));
  }

  lemma SavedAndListed(scope: Scope, now: int) returns (y: System)
    requires ValidMemoryScope(scope)
    ensures var sel := Selector(None, scope, "", None, false, 0);
            y == Step(Step(Fresh(now), BeginSave(scope, "note", false, None)), BeginDelete(sel, [0]))
    ensures y.jobs == [Job([0], Marking, 0)] && y.store.items.Keys == {0} && IdInv(y)
    ensures y.store.unindexed == {0} && y.store.index == {} && y.store.nextId == 1
  {
    var sel := Selector(None, scope, "", None, false, 0);
    var s := Step(Fresh(now), BeginSave(scope, "note", false, None));
    assert Matching(s.store, sel) == {0} by { hide Normalized; }
    assert IsListing(s.store, sel, [0]);
    y := Step(s, BeginDelete(sel, [0]));
  }

  // ---------------------------------------------------- vectors of deleted items

  ghost predicate IsDeleted(y: System, id: nat) { id in y.store.items && y.store.items[id].status == Deleted }

  /** No deleted item has a vector. */
  ghost predicate NoVector(y: System) {
    forall id | IsDeleted(y, id) :: id !in y.store.index
  }

  /** The steps that give a deleted item a vector: a late upsert, or the final mark of an item that has
      got its vector again since it was cleared. */
  ghost predicate Exposes(y: System, op: Op) {
    || (op.EndSave? && op.added && op.id in y.store.unindexed && IsDeleted(y, op.id))
    || (op.Proceed? && op.job < |y.jobs| && y.jobs[op.job].stage == Finishing &&
        y.jobs[op.job].next < |y.jobs[op.job].picked| &&
        y.jobs[op.job].picked[y.jobs[op.job].next] in y.store.index)
  }

  lemma NoVectorStepIff(y: System, op: Op)
    requires IdInv(y) && NoVector(y)
    ensures NoVector(Step(y, op)) <==> !Exposes(y, op)
  {
    hide IsListing;
    hide ValidMemoryScope;
    hide Normalized;
    var z := Step(y, op);
    if Exposes(y, op) {
      var id := if op.EndSave? then op.id else y.jobs[op.job].picked[y.jobs[op.job].next];
      assert IsDeleted(z, id) && id in z.store.index;
    } else {
      forall id | IsDeleted(z, id) ensures id !in z.store.index {
        if op.BeginSave? && id == y.store.nextId { assert id !in y.store.items; }
      }
    }
  }

  ghost predicate NoVectorThroughout(y: System, run: seq<Op>)
    decreases |run|
  {
    NoVector(y) && (run != [] ==> NoVectorThroughout(Step(y, run[0]), run[1..]))
  }

  ghost predicate MeetsExposure(y: System, run: seq<Op>)
    decreases |run|
  {
    run != [] && (Exposes(y, run[0]) || MeetsExposure(Step(y, run[0]), run[1..]))
  }

  /** In every state of a run no deleted item has a vector, exactly when the run has no upsert of a
      deleted item and no final mark of an item with a vector. */
  lemma {:induction false} NoVectorIff(y: System, run: seq<Op>)
    requires IdInv(y) && NoVector(y)
    ensures NoVectorThroughout(y, run) <==> !MeetsExposure(y, run)
    decreases |run|
  {
    hide Step;
    hide IdInv;
    hide NoVector;
    hide Exposes;
    if run != [] {
      NoVectorStepIff(y, run[0]);
      StepKeepsIds(y, run[0]);
      if !Exposes(y, run[0]) {
        NoVectorIff(Step(y, run[0]), run[1..]);
      } else {
        NoVectorHead(Step(y, run[0]), run[1..]);
      }
    }
  }

  lemma NoVectorHead(y: System, run: seq<Op>)
    ensures NoVectorThroughout(y, run) ==> NoVector(y)
  {
  }

  predicate Within(run: seq<Op>, allowed: Op -> bool) { forall op | op in run :: allowed(op) }

  lemma {:induction false} GoneAtEnd(y: System, run: seq<Op>)
    requires GoneThroughout(y, run)
    ensures Gone(Exec(y, run))
    decreases |run|
  {
    hide Step;
    hide Gone;
    if run != [] { GoneAtEnd(Step(y, run[0]), run[1..]); }
  }

  lemma {:induction false} RunKeepsIds(y: System, run: seq<Op>)
    requires IdInv(y)
    ensures IdInv(Exec(y, run))
    decreases |run|
  {
    hide Step;
    hide IdInv;
    if run != [] {
      StepKeepsIds(y, run[0]);
      RunKeepsIds(Step(y, run[0]), run[1..]);
    }
  }

  lemma {:induction false} FirstMeeting(y: System, run: seq<Op>) returns (n: nat)
    requires MeetsOutstanding(y, run)
    ensures n < |run| && ClearsOutstanding(Exec(y, run[..n]), run[n])
    decreases |run|
  {
    hide Step;
    hide ClearsOutstanding;
    if ClearsOutstanding(y, run[0]) {
      n := 0;
      assert run[..0] == [];
    } else {
      var m := FirstMeeting(Step(y, run[0]), run[1..]);
      n := m + 1;
      assert run[..n] == [run[0]] + run[1..][..m];
      ExecCons(y, run[0], run[1..][..m]);
    }
  }

  /** A run that clears an outstanding item can be continued to a deleted item with a vector. */
  lemma MeetingLeavesVector(y: System, run: seq<Op>, allowed: Op -> bool) returns (more: seq<Op>)
    requires IdInv(y) && MeetsOutstanding(y, run) && Within(run, allowed)
    requires forall op: Op | op.EndSave? || op.Proceed? :: allowed(op)
    ensures Within(more, allowed) && !NoVector(Exec(y, more))
  {
    hide Step;
    hide IdInv;
    var n := FirstMeeting(y, run);
    var z := Exec(y, run[..n]);
    RunKeepsIds(y, run[..n]);
    var late, id := LateUpsertLeavesVector(z, run[n]);
    hide ClearsOutstanding;
    more := run[..n] + ([run[n]] + late);
    ExecAppend(y, run[..n], [run[n]] + late);
    ExecCons(z, run[n], late);
    hide Exec;
    assert IsDeleted(Exec(y, more), id);
    forall op | op in more ensures allowed(op) {
      assert op in run || op in late;
    }
  }

  /** Whatever part of the operations is in use, as long as saves and deletes under way can go on: no
      deleted item ever has a vector exactly when no delete or retry ever clears an outstanding item. */
  lemma VectorFreeIff(y: System, allowed: Op -> bool)
    requires IdInv(y) && Gone(y)
    requires forall op: Op | op.EndSave? || op.Proceed? :: allowed(op)
    ensures (forall run | Within(run, allowed) :: NoVector(Exec(y, run))) <==>
            (forall run | Within(run, allowed) :: !MeetsOutstanding(y, run))
  {
    hide IdInv;
    hide Within;
    if run :| Within(run, allowed) && MeetsOutstanding(y, run) {
      var more := MeetingLeavesVector(y, run, allowed);
    } else {
      forall run | Within(run, allowed) ensures NoVector(Exec(y, run)) {
        DeletedHasNoVectorIff(y, run);
        GoneAtEnd(y, run);
        hide Exec;
      }
    }
  }

  /** From the empty store on. */
  lemma FreshVectorFreeIff(now: int, allowed: Op -> bool)
    requires forall op: Op | op.EndSave? || op.Proceed? :: allowed(op)
    ensures (forall run | Within(run, allowed) :: NoVector(Exec(Fresh(now), run))) <==>
            (forall run | Within(run, allowed) :: !MeetsOutstanding(Fresh(now), run))
  {
    FreshInv(now);
    VectorFreeIff(Fresh(now), allowed);
  }

  // ------------------------------------------------------------ overlapping deletes

  /** The step of a delete that marks `id` as being deleted. */
  predicate MarksAgain(y: System, op: Op, id: nat) {
    op.Proceed? && op.job < |y.jobs| && y.jobs[op.job].stage == Marking &&
    y.jobs[op.job].next < |y.jobs[op.job].picked| && y.jobs[op.job].picked[y.jobs[op.job].next] == id
  }

  ghost predicate DeletedThroughout(y: System, run: seq<Op>, id: nat)
    decreases |run|
  {
    IsDeleted(y, id) && (run != [] ==> DeletedThroughout(Step(y, run[0]), run[1..], id))
  }

  ghost predicate MeetsMark(y: System, run: seq<Op>, id: nat)
    decreases |run|
  {
    run != [] && (MarksAgain(y, run[0], id) || MeetsMark(Step(y, run[0]), run[1..], id))
  }

  lemma DeletedStepIff(y: System, op: Op, id: nat)
    requires IdInv(y) && IsDeleted(y, id)
    ensures IsDeleted(Step(y, op), id) <==> !MarksAgain(y, op, id)
  {
    hide IsListing;
    hide ValidMemoryScope;
    hide Normalized;
  }

  /** A deleted item stays deleted through a run exactly when no delete that listed it marks it in that
      run: one that did its listing earlier sets it back to being deleted. */
  lemma {:induction false} DeletedStaysDeletedIff(y: System, run: seq<Op>, id: nat)
    requires IdInv(y) && IsDeleted(y, id)
    ensures DeletedThroughout(y, run, id) <==> !MeetsMark(y, run, id)
    decreases |run|
  {
    hide Step;
    hide IdInv;
    hide IsDeleted;
    hide MarksAgain;
    if run != [] {
      DeletedStepIff(y, run[0], id);
      StepKeepsIds(y, run[0]);
      if !MarksAgain(y, run[0], id) {
        DeletedStaysDeletedIff(Step(y, run[0]), run[1..], id);
      } else {
        ThroughoutHead(Step(y, run[0]), run[1..], id);
      }
    }
  }

  lemma ThroughoutHead(y: System, run: seq<Op>, id: nat)
    ensures DeletedThroughout(y, run, id) ==> IsDeleted(y, id)
  {
  }

  /** Two deletes that both listed the item: the first one finishes, the second sets it back. */
  lemma SecondDeleteSetsBack(y: System, sel: Selector, picked: seq<nat>) returns (finish: seq<Op>)
    requires ValidMemoryScope(sel.scope) && IsListing(y.store, sel, picked) && picked != []
    ensures var both := Step(Step(y, BeginDelete(sel, picked)), BeginDelete(sel, picked));
            var done := Exec(both, finish);
            var after := Step(done, Proceed(|y.jobs| + 1, true, {})).store;
            IsDeleted(done, picked[0]) && picked[0] in after.items && after.items[picked[0]].status == Deleting
  {
    var both := Step(Step(y, BeginDelete(sel, picked)), BeginDelete(sel, picked));
    var j := |y.jobs|;
    assert y.jobs + [Job(picked, Marking, 0)] + [Job(picked, Marking, 0)] ==
           y.jobs + [Job(picked, Marking, 0), Job(picked, Marking, 0)];
    assert both == System(y.store, y.jobs + [Job(picked, Marking, 0), Job(picked, Marking, 0)]);
    assert picked[0] in picked && forall id | id in picked :: id in y.store.items;
    hide IsListing;
    hide Step;
    finish := FinishFirst(both, j);
    var done := Exec(both, finish);
    hide Exec;
    SetsBack(done, j + 1);
  }

  /** A job that has listed and not marked yet, through to its end. */
  lemma FinishFirst(y: System, j: nat) returns (run: seq<Op>)
    requires j < |y.jobs| && y.jobs[j].stage == Marking && y.jobs[j].next == 0
    requires forall id | id in y.jobs[j].picked :: id in y.store.items
    ensures var z := Exec(y, run);
            (forall id | id in y.jobs[j].picked :: IsDeleted(z, id)) && |z.jobs| == |y.jobs| &&
            forall k | 0 <= k < |y.jobs| && k != j :: z.jobs[k] == y.jobs[k]
  {
    var picked := y.jobs[j].picked;
    assert picked[0..] == picked;
    hide Step;
    var marks := MarkAlone(y, j);
    var marked := Exec(y, marks);
    var clear := Proceed(j, true, {});
    assert Step(marked, clear).jobs == marked.jobs[j := Job(picked, Finishing, 0)] &&
           Step(marked, clear).store.items == marked.store.items by { StepClears(marked, j); }
    hide Exec;
    var rest := FinishAlone(Step(marked, clear), j);
    ExecCons(marked, clear, rest);
    ExecAppend(y, marks, [clear] + rest);
    run := marks + ([clear] + rest);
  }

  lemma StepClears(y: System, j: nat)
    requires j < |y.jobs| && y.jobs[j].stage == Clearing
    ensures var z := Step(y, Proceed(j, true, {}));
            z.jobs == y.jobs[j := Job(y.jobs[j].picked, Finishing, 0)] && z.store.items == y.store.items
  {
  }

  lemma SetsBack(y: System, j: nat)
    requires j < |y.jobs| && y.jobs[j].stage == Marking && y.jobs[j].next == 0 && y.jobs[j].picked != []
    requires y.jobs[j].picked[0] in y.store.items
    ensures var id := y.jobs[j].picked[0];
            var z := Step(y, Proceed(j, true, {})).store;
            id in z.items && z.items[id].status == Deleting
  {
  }
}
