/** Whole runs of a connection pool within one start/stop epoch: any mix of acquire passes, guard
    moves, releases, unhealthy marks and health passes. */
module PoolRuns {
  import opened Options
  import opened Seqs
  import opened PoolModel

  /** A guard that holds a connection; guards without one are absent from `guards`. */
  datatype Guard = Guard(index: nat, conn: nat, healthy: bool)

  datatype System = System(pool: Pool, guards: map<nat, Guard>)

  datatype Op =
    | Acquire(guard: nat, now: int)            // into a guard variable that holds nothing
    | Drop(guard: nat, now: int)               // the guard's destructor
    | Move(target: nat, source: nat, now: int) // move assignment or construction
    | Mark(guard: nat)                         // `markUnhealthy`
    | Health(now: int)

  function DropGuard(cfg: Config, w: World, s: System, g: nat, now: int): System {
    if g in s.guards
    then System(Release(cfg, w, s.pool, s.guards[g].index, s.guards[g].healthy, now), s.guards - {g})
    else s
  }

  function Step(cfg: Config, w: World, s: System, op: Op): System {
    match op
    case Acquire(g, now) =>
      if g in s.guards then s
      else
        var (pool, found) := AcquirePass(cfg, w, s.pool, now);
        if found.Some? && found.value < |pool.entries| && pool.entries[found.value].conn.Some?
        then System(pool, s.guards[g := Guard(found.value, pool.entries[found.value].conn.value, true)])
        else s.(pool := pool)
    case Drop(g, now) => DropGuard(cfg, w, s, g, now)
    case Move(target, source, now) =>
      if target == source then s
      else
        var t := DropGuard(cfg, w, s, target, now);
        if source in t.guards
        then t.(guards := t.guards[target := t.guards[source]] - {source}) else t
    case Mark(g) =>
      if g in s.guards then s.(guards := s.guards[g := s.guards[g].(healthy := false)]) else s
    case Health(now) => s.(pool := HealthPass(cfg, w, s.pool, now))
  }

  function Exec(cfg: Config, w: World, s: System, run: seq<Op>): System
    decreases |run|
  {
    if run == [] then s else Exec(cfg, w, Step(cfg, w, s, run[0]), run[1..])
  }

  /** The pool just after `start`. */
  function Started(cfg: Config, w: World, now: int): System {
    System(StartFrom(cfg, w, Empty, cfg.Min(), now), map[])
  }

  // ---------------------------------------------------------------- invariant

  ghost predicate Owns(s: System, g: nat)
    requires g in s.guards
  {
    var guard := s.guards[g];
    && guard.index < |s.pool.entries|
    && s.pool.entries[guard.index].inUse
    && s.pool.entries[guard.index].conn == Some(guard.conn)
  }

  /** Live guards and leased entries correspond one to one. */
  ghost predicate GuardInv(s: System) {
    && (forall g | g in s.guards :: Owns(s, g))
    && (forall g, h | g in s.guards && h in s.guards && g != h :: s.guards[g].index != s.guards[h].index)
    && (forall i | 0 <= i < |s.pool.entries| && s.pool.entries[i].inUse ::
          exists g | g in s.guards :: s.guards[g].index == i)
  }

  ghost predicate SystemInv(cfg: Config, s: System) {
    Inv(cfg, s.pool) && GuardInv(s)
  }

  lemma PoolChangeKeepsGuards(s: System, pool: Pool)
    requires GuardInv(s) && LeasesKept(s.pool, pool, None)
    ensures GuardInv(s.(pool := pool))
  {
    var t := s.(pool := pool);
    assert forall g | g in s.guards :: Owns(s, g) && Owns(t, g);
  }

  lemma AcquireKeepsGuards(s: System, pool: Pool, i: nat, g: nat, conn: nat)
    requires GuardInv(s) && LeasesKept(s.pool, pool, Some(i)) && g !in s.guards
    requires pool.entries[i].conn == Some(conn)
    ensures GuardInv(System(pool, s.guards[g := Guard(i, conn, true)]))
  {
    var t := System(pool, s.guards[g := Guard(i, conn, true)]);
    assert forall h | h in s.guards :: Owns(s, h) && Owns(t, h) && s.guards[h].index != i;
    assert Owns(t, g);
    forall k | 0 <= k < |pool.entries| && pool.entries[k].inUse
      ensures exists h | h in t.guards :: t.guards[h].index == k
    {
      if k == i {
        assert t.guards[g].index == k;
      } else {
        var h :| h in s.guards && s.guards[h].index == k;
        assert t.guards[h].index == k;
      }
    }
  }

  lemma DropKeepsGuards(s: System, pool: Pool, g: nat)
    requires GuardInv(s) && g in s.guards && |pool.entries| == |s.pool.entries|
    requires var i := s.guards[g].index;
             i < |pool.entries| && !pool.entries[i].inUse &&
             forall k | 0 <= k < |pool.entries| && k != i :: pool.entries[k] == s.pool.entries[k]
    ensures GuardInv(System(pool, s.guards - {g}))
  {
    var t := System(pool, s.guards - {g});
    forall h | h in t.guards ensures Owns(t, h) { assert Owns(s, h); }
    forall k | 0 <= k < |pool.entries| && pool.entries[k].inUse
      ensures exists h | h in t.guards :: t.guards[h].index == k
    {
      var h :| h in s.guards && s.guards[h].index == k;
      assert h in t.guards && t.guards[h].index == k;
    }
  }

  lemma DropKeepsInv(cfg: Config, w: World, s: System, g: nat, now: int)
    requires SystemInv(cfg, s)
    ensures var t := DropGuard(cfg, w, s, g, now);
            SystemInv(cfg, t) && t.guards == s.guards - {g} && t.pool.ledger.leaked == s.pool.ledger.leaked
  {
    if g in s.guards {
      hide Inv;
      assert Owns(s, g);
      hide GuardInv;
      ReleaseKeepsInv(cfg, w, s.pool, s.guards[g].index, s.guards[g].healthy, now);
      hide Release;
      DropKeepsGuards(s, Release(cfg, w, s.pool, s.guards[g].index, s.guards[g].healthy, now), g);
    }
  }

  /** Guards renamed one to one, each with its entry, leave the correspondence as it was: `to` names a
      guard afterwards, `from` the same guard before. */
  lemma RenamedGuards(s: System, t: System, to: nat -> nat, from: nat -> nat)
    requires GuardInv(s) && t.pool == s.pool
    requires forall g | g in t.guards ::
               from(g) in s.guards && to(from(g)) == g && SameLease(t.guards[g], s.guards[from(g)])
    requires forall g | g in s.guards :: to(g) in t.guards && t.guards[to(g)].index == s.guards[g].index
    ensures GuardInv(t)
  {
    forall g | g in t.guards ensures Owns(t, g) { assert Owns(s, from(g)); }
    forall g, h | g in t.guards && h in t.guards && g != h ensures t.guards[g].index != t.guards[h].index {
      assert from(g) != from(h);
    }
    forall i | 0 <= i < |t.pool.entries| && t.pool.entries[i].inUse
      ensures exists g | g in t.guards :: t.guards[g].index == i
    {
      var g :| g in s.guards && s.guards[g].index == i;
      assert to(g) in t.guards;
    }
  }

  predicate SameLease(a: Guard, b: Guard) { a.index == b.index && a.conn == b.conn }

  lemma RenameKeepsGuards(s: System, target: nat, source: nat)
    requires GuardInv(s) && source in s.guards && target !in s.guards
    ensures GuardInv(s.(guards := s.guards[target := s.guards[source]] - {source}))
  {
    hide GuardInv;
    RenamedGuards(s, s.(guards := s.guards[target := s.guards[source]] - {source}),
                  g => if g == source then target else g, g => if g == target then source else g);
  }

  lemma MarkKeepsGuards(s: System, g: nat)
    requires GuardInv(s) && g in s.guards
    ensures GuardInv(s.(guards := s.guards[g := s.guards[g].(healthy := false)]))
  {
    hide GuardInv;
    RenamedGuards(s, s.(guards := s.guards[g := s.guards[g].(healthy := false)]), h => h, h => h);
  }

  lemma StepKeepsInv(cfg: Config, w: World, s: System, op: Op)
    requires SystemInv(cfg, s)
    ensures SystemInv(cfg, Step(cfg, w, s, op))
    ensures !op.Health? ==> Step(cfg, w, s, op).pool.ledger.leaked == s.pool.ledger.leaked
  {
    hide GuardInv;
    hide AcquirePass;
    hide HealthPass;
    hide Release;
    match op
    case Acquire(g, now) =>
      if g !in s.guards {
        AcquireKeepsInv(cfg, w, s.pool, now);
        var (pool, found) := AcquirePass(cfg, w, s.pool, now);
        if found.Some? {
          EntryFact(cfg, pool, found.value);
          AcquireKeepsGuards(s, pool, found.value, g, pool.entries[found.value].conn.value);
        } else {
          PoolChangeKeepsGuards(s, pool);
        }
      }
    case Drop(g, now) => DropKeepsInv(cfg, w, s, g, now);
    case Move(target, source, now) =>
      if target != source {
        DropKeepsInv(cfg, w, s, target, now);
        var t := DropGuard(cfg, w, s, target, now);
        if source in t.guards { RenameKeepsGuards(t, target, source); }
      }
    case Mark(g) => if g in s.guards { MarkKeepsGuards(s, g); }
    case Health(now) =>
      HealthPassKeepsInv(cfg, w, s.pool, now);
      PoolChangeKeepsGuards(s, HealthPass(cfg, w, s.pool, now));
  }

  lemma {:induction false} RunKeepsInv(cfg: Config, w: World, s: System, run: seq<Op>)
    requires SystemInv(cfg, s)
    ensures SystemInv(cfg, Exec(cfg, w, s, run))
    decreases |run|
  {
    hide Step;
    hide SystemInv;
    if run != [] {
      StepKeepsInv(cfg, w, s, run[0]);
      RunKeepsInv(cfg, w, Step(cfg, w, s, run[0]), run[1..]);
    }
  }

  lemma StartedInv(cfg: Config, w: World, now: int)
    ensures SystemInv(cfg, Started(cfg, w, now)) && Started(cfg, w, now).pool.ledger.leaked == {}
  {
    StartKeepsInv(cfg, w, Empty, cfg.Min(), now);
    StartLeaksNothing(cfg, w, Empty, cfg.Min(), now);
    var pool := StartFrom(cfg, w, Empty, cfg.Min(), now);
    assert forall i | 0 <= i < |pool.entries| :: pool.entries[i] in pool.entries;
  }

  lemma {:induction false} StartLeaksNothing(cfg: Config, w: World, p: Pool, n: nat, now: int)
    ensures StartFrom(cfg, w, p, n, now).ledger.leaked == p.ledger.leaked
    decreases n
  {
    if n > 0 { StartLeaksNothing(cfg, w, Grow(w, p, false, now), n - 1, now); }
  }

  // ------------------------------------------------------------- main results

  /** In every reachable state of an epoch: each live guard holds the non-null handle of its own
      leased entry, two guards never share an entry, every leased entry has its guard, healthy
      entries have a handle, no two entries share one, and the pool never exceeds its maximum. */
  lemma PoolIsSafe(cfg: Config, w: World, start: int, run: seq<Op>)
    ensures var s := Exec(cfg, w, Started(cfg, w, start), run);
            GuardInv(s) && |s.pool.entries| <= cfg.Max() &&
            (forall e | e in s.pool.entries :: (e.inUse ==> e.healthy) && (e.healthy ==> e.conn.Some?)) &&
            (forall i, j | 0 <= i < j < |s.pool.entries| && s.pool.entries[i].conn.Some? ::
               s.pool.entries[i].conn != s.pool.entries[j].conn)
  {
    StartedInv(cfg, w, start);
    RunKeepsInv(cfg, w, Started(cfg, w, start), run);
    var s := Exec(cfg, w, Started(cfg, w, start), run);
    forall e | e in s.pool.entries ensures (e.inUse ==> e.healthy) && (e.healthy ==> e.conn.Some?) {
      var i :| 0 <= i < |s.pool.entries| && s.pool.entries[i] == e;
      EntryFact(cfg, s.pool, i);
    }
  }

  /** Redis never loses a handle: those opened are those held plus those closed, and `stop` closes
      the rest. */
  lemma RedisConservesHandles(cfg: Config, w: World, start: int, run: seq<Op>)
    requires cfg.kind.Redis?
    ensures var p := Exec(cfg, w, Started(cfg, w, start), run).pool;
            p.ledger.issued == Open(p) + |p.ledger.closed| &&
            |Stopped(p).ledger.closed| == Stopped(p).ledger.issued == p.ledger.issued
  {
    StartedInv(cfg, w, start);
    RunKeepsInv(cfg, w, Started(cfg, w, start), run);
    StopClosesEverything(cfg, Exec(cfg, w, Started(cfg, w, start), run).pool);
  }

  /** Some health pass of the run meets an idle entry that is marked unhealthy and still open. */
  ghost predicate MeetsDoomed(cfg: Config, w: World, s: System, run: seq<Op>)
    decreases |run|
  {
    run != [] &&
    ((run[0].Health? && exists k | 0 <= k < |s.pool.entries| :: Doomed(cfg, s.pool, k)) ||
     MeetsDoomed(cfg, w, Step(cfg, w, s, run[0]), run[1..]))
  }

  lemma {:induction false} LeakGrows(cfg: Config, w: World, s: System, run: seq<Op>)
    requires SystemInv(cfg, s)
    ensures s.pool.ledger.leaked <= Exec(cfg, w, s, run).pool.ledger.leaked
    ensures s.pool.ledger.leaked == {} ==>
            (Exec(cfg, w, s, run).pool.ledger.leaked == {} <==> !MeetsDoomed(cfg, w, s, run))
    decreases |run|
  {
    if run != [] {
      hide SystemInv;
      hide HealthPass;
      var t := Step(cfg, w, s, run[0]);
      StepLeak(cfg, w, s, run[0]);
      StepKeepsInv(cfg, w, s, run[0]);
      LeakGrows(cfg, w, t, run[1..]);
    }
  }

  lemma StepLeak(cfg: Config, w: World, s: System, op: Op)
    requires SystemInv(cfg, s)
    ensures s.pool.ledger.leaked <= Step(cfg, w, s, op).pool.ledger.leaked
    ensures s.pool.ledger.leaked == {} ==>
            (Step(cfg, w, s, op).pool.ledger.leaked == {} <==>
             !(op.Health? && exists k | 0 <= k < |s.pool.entries| :: Doomed(cfg, s.pool, k)))
  {
    hide HealthPass;
    hide Inv;
    if op.Health? {
      HealthPassKeepsInv(cfg, w, s.pool, op.now);
      if k :| 0 <= k < |s.pool.entries| && Doomed(cfg, s.pool, k) {
        assert s.pool.entries[k].conn.value in Step(cfg, w, s, op).pool.ledger.leaked;
      }
    } else {
      StepKeepsInv(cfg, w, s, op);
    }
  }

  /** Handles opened equal handles held plus handles closed exactly when no health pass of a MySQL
      pool met an idle, unhealthy, still open entry. */
  lemma HandlesConservedIff(cfg: Config, w: World, start: int, run: seq<Op>)
    ensures var s := Started(cfg, w, start);
            var p := Exec(cfg, w, s, run).pool;
            p.ledger.issued == Open(p) + |p.ledger.closed| <==> !MeetsDoomed(cfg, w, s, run)
  {
    StartedInv(cfg, w, start);
    RunKeepsInv(cfg, w, Started(cfg, w, start), run);
    LeakGrows(cfg, w, Started(cfg, w, start), run);
  }

  /** The loss is reachable: lease the only connection, mark it, give it back, run a health pass. */
  lemma MysqlHandleIsLost()
    ensures var cfg := Config(Mysql, 1, 1, 60);
            var run := [Acquire(0, 0), Mark(0), Drop(0, 0), Health(1)];
            Exec(cfg, Yes, Started(cfg, Yes, 0), run).pool.ledger.leaked == {0}
  {
    var cfg := Config(Mysql, 1, 1, 60);
    var run := [Acquire(0, 0), Mark(0), Drop(0, 0), Health(1)];
    hide *;
    var s := MarkedAndReturned(cfg);
    var before := [Acquire(0, 0), Mark(0), Drop(0, 0)];
    StartedInv(cfg, Yes, 0);
    RunKeepsInv(cfg, Yes, Started(cfg, Yes, 0), before);
    HealthLosesIt(cfg, s);
    assert run == before + [Health(1)];
    ExecAppend(cfg, Yes, Started(cfg, Yes, 0), before, [Health(1)]);
    ExecOne(cfg, Yes, s, Health(1));
  }

  lemma HealthLosesIt(cfg: Config, s: System)
    requires SystemInv(cfg, s) && cfg.kind.Mysql? && s.pool.ledger.leaked == {}
    requires s.pool.entries == [Entry(Some(0), false, false, 1, 0)]
    ensures Step(cfg, Yes, s, Health(1)).pool.ledger.leaked == {0}
  {
    hide HealthPass;
    hide Inv;
    HealthPassKeepsInv(cfg, Yes, s.pool, 1);
    assert Doomed(cfg, s.pool, 0);
  }

  /** Every call into the client succeeds. */
  const Yes: World := n => true

  lemma MarkedAndReturned(cfg: Config) returns (s: System)
    requires cfg == Config(Mysql, 1, 1, 60)
    ensures s == Exec(cfg, Yes, Started(cfg, Yes, 0), [Acquire(0, 0), Mark(0), Drop(0, 0)])
    ensures s.pool.entries == [Entry(Some(0), false, false, 1, 0)] && s.pool.ledger.leaked == {}
  {
    var run := [Acquire(0, 0), Mark(0), Drop(0, 0)];
    var s0 := Started(cfg, Yes, 0);
    assert s0.pool == Pool([Entry(Some(0), false, true, 0, 0)], Ledger(1, {}, {}, 1)) by {
      assert StartFrom(cfg, Yes, Empty, 1, 0) == StartFrom(cfg, Yes, Grow(Yes, Empty, false, 0), 0, 0);
    }
    var s1 := Step(cfg, Yes, s0, run[0]);
    assert s1.pool == Pool([Entry(Some(0), true, true, 0, 0)], Ledger(1, {}, {}, 1));
    var s2 := Step(cfg, Yes, s1, run[1]);
    s := Step(cfg, Yes, s2, run[2]);
    hide Step;
    assert run[1..][1..][1..] == [];
    assert Exec(cfg, Yes, s0, run) == s;
  }

  lemma ExecOne(cfg: Config, w: World, s: System, op: Op)
    ensures Exec(cfg, w, s, [op]) == Step(cfg, w, s, op)
  {
    hide Step;
    assert [op][1..] == [];
  }

  lemma {:induction false} ExecAppend(cfg: Config, w: World, s: System, a: seq<Op>, b: seq<Op>)
    ensures Exec(cfg, w, s, a + b) == Exec(cfg, w, Exec(cfg, w, s, a), b)
    decreases |a|
  {
    hide Step;
    if a == [] {
      assert a + b == b;
    } else {
      assert (a + b)[0] == a[0] && (a + b)[1..] == a[1..] + b;
      ExecAppend(cfg, w, Step(cfg, w, s, a[0]), a[1..], b);
    }
  }

  /** Moving a guard hands over exactly what it held, its health mark included: what the target held is
      given back with the target's own mark, and no other guard notices. */
  lemma MoveHandsOver(cfg: Config, w: World, s: System, target: nat, source: nat, now: int)
    requires target != source
    ensures var t := Step(cfg, w, s, Move(target, source, now));
            source !in t.guards &&
            (target in t.guards <==> source in s.guards) &&
            (source in s.guards ==> t.guards[target] == s.guards[source]) &&
            (forall g | g != target && g != source ::
               (g in t.guards <==> g in s.guards) && (g in s.guards ==> t.guards[g] == s.guards[g])) &&
            t.pool == if target in s.guards
                      then Release(cfg, w, s.pool, s.guards[target].index, s.guards[target].healthy, now)
                      else s.pool
  {
    hide Release;
  }

  /** A guard that was marked gives its connection back unhealthy, however often it was moved: dropping
      it leaves the entry idle, open and marked. */
  lemma MarkIsKept(cfg: Config, w: World, s: System, g: nat, now: int)
    requires SystemInv(cfg, s) && g in s.guards && !s.guards[g].healthy
    ensures var t, i := Step(cfg, w, s, Drop(g, now)), s.guards[g].index;
            g !in t.guards && i < |t.pool.entries| && !t.pool.entries[i].inUse && !t.pool.entries[i].healthy &&
            t.pool.entries[i].conn == Some(s.guards[g].conn)
  {
    assert Owns(s, g);
    hide GuardInv;
    ReleaseKeepsInv(cfg, w, s.pool, s.guards[g].index, s.guards[g].healthy, now);
    hide Inv;
    hide Release;
  }

  /** A new guard starts unmarked, on the entry it leased. */
  lemma AcquireStartsHealthy(cfg: Config, w: World, s: System, g: nat, now: int)
    requires g !in s.guards
    ensures var t := Step(cfg, w, s, Acquire(g, now));
            g in t.guards ==> t.guards[g].healthy && t.guards == s.guards[g := t.guards[g]]
  {
    hide AcquirePass;
  }
}
