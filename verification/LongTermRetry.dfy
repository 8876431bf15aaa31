/** A delete that stopped half way and the retry that completes it, as jobs among any other accesses to
    the store and the index. */
module LongTermRetry {
  import opened Options
  import opened Seqs
  import opened MemoryKeys
  import opened LongTermItems
  import opened LongTermMemory
  import opened LongTermRuns

  // ----------------------------------------------------------------- jobs go on

  lemma StepKeepsJob(y: System, op: Op, j: nat)
    requires j < |y.jobs|
    ensures j < |Step(y, op).jobs| && Step(y, op).jobs[j].picked == y.jobs[j].picked
    ensures y.jobs[j].stage != Marking ==> Step(y, op).jobs[j].stage != Marking
    ensures !(op.Proceed? && op.job == j) ==> Step(y, op).jobs[j] == y.jobs[j]
  {
    hide IsListing;
    hide ValidMemoryScope;
  }

  /** The items job `j` has marked so far: those before `next` while it is marking, all of them after. */
  predicate Passed(job: Job, id: nat) {
    exists i | 0 <= i < |job.picked| :: job.picked[i] == id && (job.stage == Marking ==> i < job.next)
  }

  /** They have been marked, no earlier than `since`. */
  ghost predicate PassedAreMarked(y: System, j: nat, since: int) {
    j < |y.jobs| && y.store.now >= since &&
    forall id | Passed(y.jobs[j], id) && id in y.store.items ::
      Marked(y.store.items[id]) && y.store.items[id].updated >= since
  }

  lemma PassedStep(y: System, op: Op, j: nat, since: int)
    requires IdInv(y) && PassedAreMarked(y, j, since)
    ensures PassedAreMarked(Step(y, op), j, since)
  {
    StepKeepsJob(y, op, j);
    var z := Step(y, op);
    forall id | Passed(z.jobs[j], id) && id in z.store.items
      ensures Marked(z.store.items[id]) && z.store.items[id].updated >= since
    {
      PassedItem(y, op, j, since, id);
    }
    if op.Tick? { assert z.store.now >= y.store.now; }
    hide IsListing;
    hide ValidMemoryScope;
    hide Normalized;
  }

  lemma PassedItem(y: System, op: Op, j: nat, since: int, id: nat)
    requires IdInv(y) && PassedAreMarked(y, j, since)
    requires var z := Step(y, op); j < |z.jobs| && Passed(z.jobs[j], id) && id in z.store.items
    ensures var z := Step(y, op); Marked(z.store.items[id]) && z.store.items[id].updated >= since
  {
    StepKeepsJob(y, op, j);
    hide IsListing;
    hide ValidMemoryScope;
    hide Normalized;
    var z := Step(y, op);
    assert id in y.jobs[j].picked && id in y.store.items;
    if !Passed(y.jobs[j], id) {
      var was, job := y.jobs[j], z.jobs[j];
      var i :| 0 <= i < |job.picked| && job.picked[i] == id && (job.stage == Marking ==> i < job.next);
      assert was.stage == Marking && i >= was.next;
    }
  }

  lemma {:induction false} PassedRun(y: System, run: seq<Op>, j: nat, since: int)
    requires IdInv(y) && PassedAreMarked(y, j, since)
    ensures IdInv(Exec(y, run)) && PassedAreMarked(Exec(y, run), j, since)
    ensures Exec(y, run).jobs[j].picked == y.jobs[j].picked
    decreases |run|
  {
    hide Step;
    hide IdInv;
    if run != [] {
      StepKeepsIds(y, run[0]);
      StepKeepsJob(y, run[0], j);
      PassedStep(y, run[0], j, since);
      hide PassedAreMarked;
      PassedRun(Step(y, run[0]), run[1..], j, since);
    }
  }

  // --------------------------------------------------------- the end of a retry

  /** Job `k`, past its marking, will leave `id` deleted: it is deleted once the job has marked it. */
  ghost predicate WillDelete(y: System, k: nat, id: nat) {
    k < |y.jobs| && id in y.jobs[k].picked && y.jobs[k].stage != Marking &&
    (y.jobs[k].stage == Finishing ==>
       forall i | 0 <= i < y.jobs[k].next && i < |y.jobs[k].picked| && y.jobs[k].picked[i] == id :: IsDeleted(y, id)) &&
    (y.jobs[k].stage == Done ==> IsDeleted(y, id))
  }

  lemma WillDeleteStep(y: System, op: Op, k: nat, id: nat)
    requires IdInv(y) && WillDelete(y, k, id) && !MarksAgain(y, op, id)
    ensures WillDelete(Step(y, op), k, id)
  {
    StepKeepsJob(y, op, k);
    assert id in y.store.items;
    if IsDeleted(y, id) { DeletedStepIff(y, op, id); }
    hide MarksAgain;
    if op.Proceed? && op.job == k {
      JobWillDelete(y, op, k, id);
    } else {
      hide Step;
    }
  }

  lemma JobWillDelete(y: System, op: Op, k: nat, id: nat)
    requires IdInv(y) && WillDelete(y, k, id) && op.Proceed? && op.job == k
    requires IsDeleted(y, id) ==> IsDeleted(Step(y, op), id)
    ensures WillDelete(Step(y, op), k, id)
  {
  }

  /** A retry that listed the item and got to its end leaves it deleted, unless a delete that listed the
      item marks it in between. */
  lemma {:induction false} JobDeletes(y: System, run: seq<Op>, k: nat, id: nat)
    requires IdInv(y) && WillDelete(y, k, id) && !MeetsMark(y, run, id)
    ensures WillDelete(Exec(y, run), k, id)
    decreases |run|
  {
    hide Step;
    hide IdInv;
    hide WillDelete;
    hide MarksAgain;
    if run != [] {
      WillDeleteStep(y, run[0], k, id);
      StepKeepsIds(y, run[0]);
      JobDeletes(Step(y, run[0]), run[1..], k, id);
    }
  }

  lemma {:induction false} StaysDeleted(y: System, run: seq<Op>, id: nat)
    requires IdInv(y) && IsDeleted(y, id) && !MeetsMark(y, run, id)
    ensures IsDeleted(Exec(y, run), id)
    decreases |run|
  {
    hide Step;
    hide IdInv;
    hide IsDeleted;
    hide MarksAgain;
    if run != [] {
      DeletedStepIff(y, run[0], id);
      StepKeepsIds(y, run[0]);
      StaysDeleted(Step(y, run[0]), run[1..], id);
    }
  }

  // ------------------------------------------------------------- delete and retry

  /** The state after a delete has done its listing. */
  ghost function Begun(y: System, picked: seq<nat>): System {
    y.(jobs := y.jobs + [Job(picked, Marking, 0)])
  }

  /** The state after a retry has done its listing. */
  ghost function Retried(y: System, again: seq<nat>): System {
    y.(jobs := y.jobs + [Job(again, Clearing, 0)])
  }

  lemma BeginsAreSteps(y: System, sel: Selector, picked: seq<nat>)
    requires ValidMemoryScope(sel.scope)
    ensures IsListing(y.store, sel, picked) ==> Step(y, BeginDelete(sel, picked)) == Begun(y, picked)
    ensures IsListing(y.store, RetrySelector(sel), picked) ==> Step(y, BeginRetry(sel, picked)) == Retried(y, picked)
  {
  }

  lemma BegunInv(y: System, sel: Selector, picked: seq<nat>)
    requires IdInv(y) && IsListing(y.store, sel, picked)
    ensures IdInv(Begun(y, picked)) && PassedAreMarked(Begun(y, picked), |y.jobs|, y.store.now)
  {
    hide Matches;
    assert forall id | id in picked :: id in y.store.items;
    hide IsListing;
    assert forall id :: !Passed(Job(picked, Marking, 0), id);
  }

  lemma RetriedInv(y: System, sel: Selector, again: seq<nat>)
    requires IdInv(y) && IsListing(y.store, sel, again)
    ensures IdInv(Retried(y, again)) && forall id | id in again :: WillDelete(Retried(y, again), |y.jobs|, id)
  {
    hide Matches;
    assert forall id | id in again :: id in y.store.items;
    hide IsListing;
  }

  /** After the marks of a delete, whatever else was done: each item it listed is in its place, marked no
      earlier than the listing. */
  lemma ListedItem(y: System, sel: Selector, picked: seq<nat>, run: seq<Op>, id: nat)
    requires IdInv(y) && IsListing(y.store, sel, picked) && id in picked
    requires var z := Exec(Begun(y, picked), run); |y.jobs| < |z.jobs| && z.jobs[|y.jobs|].stage != Marking
    ensures var z := Exec(Begun(y, picked), run).store;
            id in z.items && Marked(z.items[id]) && z.items[id].updated >= y.store.now &&
            MatchesPlace(RetrySelector(sel), id, z.items[id])
  {
    var y1, j := Begun(y, picked), |y.jobs|;
    assert id in Matching(y.store, sel) && MatchesPlace(RetrySelector(sel), id, y.store.items[id]);
    BegunInv(y, sel, picked);
    hide IdInv;
    hide IsListing;
    hide Matches;
    PassedRun(y1, run, j, y.store.now);
    MarkedStaysMarked(y1, run, id);
    var z := Exec(y1, run);
    hide Exec;
    var i :| 0 <= i < |picked| && picked[i] == id;
    assert Passed(z.jobs[j], id);
  }

  /** A delete that has marked its items and then stopped, or got any further; any run of other accesses;
      a retry whose listing has room for the item, and which gets to its end: the item is deleted, as
      after an uninterrupted delete, unless it expired before the retry or a delete that listed it marks
      it after the retry's listing. */
  lemma RetryCompletesDelete(y: System, sel: Selector, picked: seq<nat>, first: seq<Op>,
                             again: seq<nat>, second: seq<Op>, id: nat)
    requires IdInv(y) && IsListing(y.store, sel, picked) && id in picked
    requires var z := Exec(Begun(y, picked), first);
             && |y.jobs| < |z.jobs| && z.jobs[|y.jobs|].stage != Marking
             && IsListing(z.store, RetrySelector(sel), again)
             && (id in z.store.items && z.store.items[id].status == Deleting ==>
                   Unexpired(z.store.items[id], z.store.now) && HasRoom(z.store, RetrySelector(sel), id))
    requires var z := Exec(Begun(y, picked), first);
             && !MeetsMark(Retried(z, again), second, id)
             && var u := Exec(Retried(z, again), second);
                |z.jobs| < |u.jobs| && u.jobs[|z.jobs|].stage == Done
    ensures IsDeleted(Exec(Retried(Exec(Begun(y, picked), first), again), second), id)
  {
    var r := RetrySelector(sel);
    ListedItem(y, sel, picked, first, id);
    BegunInv(y, sel, picked);
    RunKeepsIds(Begun(y, picked), first);
    var z := Exec(Begun(y, picked), first);
    RetriedInv(z, r, again);
    hide IdInv;
    hide Exec;
    hide HasRoom;
    if z.store.items[id].status == Deleting {
      assert id in Matching(z.store, r);
      RoomIsEnough(z.store, r, id, again);
      JobDeletes(Retried(z, again), second, |z.jobs|, id);
    } else {
      StaysDeleted(Retried(z, again), second, id);
    }
  }

  // -------------------------------------------------------- fresh marks come first

  /** A delete other than job `j` marks an item that `j` has not listed. */
  predicate ForeignMark(y: System, op: Op, j: nat) {
    op.Proceed? && op.job != j && op.job < |y.jobs| && j < |y.jobs| && y.jobs[op.job].stage == Marking &&
    y.jobs[op.job].next < |y.jobs[op.job].picked| &&
    y.jobs[op.job].picked[y.jobs[op.job].next] !in y.jobs[j].picked
  }

  ghost predicate MeetsForeignMark(y: System, run: seq<Op>, j: nat)
    decreases |run|
  {
    run != [] && (ForeignMark(y, run[0], j) || MeetsForeignMark(Step(y, run[0]), run[1..], j))
  }

  /** Items being deleted that job `j` has not listed were marked before `since`. */
  ghost predicate OthersAreOlder(y: System, j: nat, since: int) {
    j < |y.jobs| &&
    forall id | id in y.store.items && id !in y.jobs[j].picked && y.store.items[id].status == Deleting ::
      y.store.items[id].updated < since
  }

  lemma OlderStep(y: System, op: Op, j: nat, since: int)
    requires OthersAreOlder(y, j, since) && !ForeignMark(y, op, j)
    ensures OthersAreOlder(Step(y, op), j, since)
  {
    StepKeepsJob(y, op, j);
    hide IsListing;
    hide ValidMemoryScope;
    hide Normalized;
  }

  lemma {:induction false} OlderRun(y: System, run: seq<Op>, j: nat, since: int)
    requires OthersAreOlder(y, j, since) && !MeetsForeignMark(y, run, j)
    ensures OthersAreOlder(Exec(y, run), j, since)
    decreases |run|
  {
    hide Step;
    hide OthersAreOlder;
    hide ForeignMark;
    if run != [] {
      OlderStep(y, run[0], j, since);
      OlderRun(Step(y, run[0]), run[1..], j, since);
    }
  }

  /** All matching items have one cluster id, as when the selector names one. */
  ghost predicate OneCluster(s: Store, sel: Selector) {
    forall x, y | x in Matching(s, sel) && y in Matching(s, sel) ::
      s.items[x].scope.cluster == s.items[y].scope.cluster
  }

  lemma NamedCluster(s: Store, sel: Selector)
    requires Normalized(sel.scope).cluster != ""
    ensures OneCluster(s, sel)
  {
    hide Normalized;
  }

  /** What a delete has marked comes before what was marked earlier, so within one cluster a retry with
      the selector of the delete has room for all of it, whatever the limit. */
  lemma FreshMarksHaveRoom(y: System, sel: Selector, picked: seq<nat>, run: seq<Op>, id: nat)
    requires IdInv(y) && IsListing(y.store, sel, picked) && id in picked
    requires forall x | x in y.store.items && x !in picked && y.store.items[x].status == Deleting ::
               y.store.items[x].updated < y.store.now
    requires !MeetsForeignMark(Begun(y, picked), run, |y.jobs|)
    requires var z := Exec(Begun(y, picked), run);
             |y.jobs| < |z.jobs| && z.jobs[|y.jobs|].stage != Marking && OneCluster(z.store, RetrySelector(sel))
    ensures var z := Exec(Begun(y, picked), run).store;
            id in z.items && (id in Matching(z, RetrySelector(sel)) ==> HasRoom(z, RetrySelector(sel), id))
  {
    var y1, j, r := Begun(y, picked), |y.jobs|, RetrySelector(sel);
    ListedItem(y, sel, picked, run, id);
    BegunInv(y, sel, picked);
    PassedRun(y1, run, j, y.store.now);
    OlderRun(y1, run, j, y.store.now);
    var z := Exec(y1, run);
    hide Exec;
    if id in Matching(z.store, r) {
      forall x | x in Ahead(z.store, r, id) ensures x in picked {
        assert z.store.items[x].scope.cluster == z.store.items[id].scope.cluster;
      }
      var got := set x | x in picked;
      SameElements(picked, got);
      SubsetSize(Ahead(z.store, r, id), got);
      assert Consistent(z.store.items, Matching(z.store, r));
    }
  }

  /** A stopped delete followed by a retry with the same selector, with no other item marked since,
      completes the delete for every limit. */
  lemma SameSelectorCompletes(y: System, sel: Selector, picked: seq<nat>, first: seq<Op>,
                              again: seq<nat>, second: seq<Op>, id: nat)
    requires IdInv(y) && IsListing(y.store, sel, picked) && id in picked
    requires forall x | x in y.store.items && x !in picked && y.store.items[x].status == Deleting ::
               y.store.items[x].updated < y.store.now
    requires !MeetsForeignMark(Begun(y, picked), first, |y.jobs|)
    requires var z := Exec(Begun(y, picked), first);
             && |y.jobs| < |z.jobs| && z.jobs[|y.jobs|].stage != Marking
             && OneCluster(z.store, RetrySelector(sel)) && IsListing(z.store, RetrySelector(sel), again)
             && (id in z.store.items && z.store.items[id].status == Deleting ==>
                   Unexpired(z.store.items[id], z.store.now))
    requires var z := Exec(Begun(y, picked), first);
             && !MeetsMark(Retried(z, again), second, id)
             && var u := Exec(Retried(z, again), second);
                |z.jobs| < |u.jobs| && u.jobs[|z.jobs|].stage == Done
    ensures IsDeleted(Exec(Retried(Exec(Begun(y, picked), first), again), second), id)
  {
    FreshMarksHaveRoom(y, sel, picked, first, id);
    ListedItem(y, sel, picked, first, id);
    var z := Exec(Begun(y, picked), first);
    hide Exec;
    hide HasRoom;
    assert z.store.items[id].status == Deleting && Unexpired(z.store.items[id], z.store.now) ==>
        id in Matching(z.store, RetrySelector(sel));
    RetryCompletesDelete(y, sel, picked, first, again, second, id);
  }
}
