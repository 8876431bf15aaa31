/** The pool object: each critical section updates `entries` in place with the loops of the source
    and is proved to compute the corresponding function of `PoolModel`. */
module ConnectionPool {
  import opened Options
  import opened Seqs
  import opened PoolModel

  class ConnectionPool {
    const cfg: Config
    const world: World
    var entries: seq<Entry>
    var ledger: Ledger
    var running: bool

    constructor (cfg: Config, world: World)
      ensures this.cfg == cfg && this.world == world && Value() == Empty && !running
    {
      this.cfg, this.world := cfg, world;
      entries, ledger, running := [], Ledger(0, {}, {}, 0), false;
    }

    function Value(): Pool
      reads this
    {
      Pool(entries, ledger)
    }

    /** `start`: opens the minimum number of connections, once. */
    method Start(now: int)
      modifies this
      ensures running
      ensures Value() == if old(running) then old(Value())
                         else StartFrom(cfg, world, old(Value()), cfg.Min(), now)
    {
      if running { return; }
      running := true;
      var i := 0;
      while i < cfg.Min()
        invariant 0 <= i <= cfg.Min() && running
        invariant StartFrom(cfg, world, Value(), cfg.Min() - i, now) ==
                  StartFrom(cfg, world, old(Value()), cfg.Min(), now)
      {
        Push(false, now);
        i := i + 1;
      }
    }

    /** A new entry is connected and appended. */
    method Push(lease: bool, now: int)
      modifies this`entries, this`ledger
      ensures Value() == Grow(world, old(Value()), lease, now)
    {
      var (e, l) := Reconnect(world, Entry(None, false, false, 0, now), ledger);
      entries := entries + [e.(inUse := lease && e.healthy)];
      ledger := l;
    }

    /** One pass of the loop in `acquire`. */
    method AcquireOnce(now: int) returns (found: Option<nat>)
      modifies this`entries, this`ledger
      ensures (Value(), found) == AcquirePass(cfg, world, old(Value()), now)
    {
      var i := 0;
      while i < |entries|
        invariant 0 <= i <= |entries|
        invariant Scan(world, Value(), i) == Scan(world, old(Value()), 0)
      {
        if !entries[i].inUse {
          if !entries[i].healthy {
            var (e, l) := EnsureHealthy(world, entries[i], ledger);
            entries, ledger := entries[i := e], l;
          }
          if entries[i].healthy {
            entries := entries[i := entries[i].(inUse := true)];
            return Some(i);
          }
        }
        i := i + 1;
      }
      if |entries| >= cfg.Max() { return None; }
      var last := |entries|;
      Push(true, now);
      return if entries[last].inUse then Some(last) else None;
    }

    /** `release`. */
    method GiveBack(i: nat, healthy: bool, now: int)
      modifies this`entries, this`ledger
      ensures Value() == Release(cfg, world, old(Value()), i, healthy, now)
    {
      if i >= |entries| { return; }
      var good := healthy;
      if healthy && cfg.kind.Mysql? {
        good := world(ledger.calls);
        ledger := ledger.(calls := ledger.calls + 1);
      }
      entries := entries[i := entries[i].(inUse := false, lastUsed := now)];
      if !good {
        entries := entries[i := entries[i].(healthy := false, failures := entries[i].failures + 1)];
      }
    }

    /** One round of `healthLoop`: repair idle entries, count the open ones, reap the idle. */
    method HealthTick(now: int)
      modifies this`entries, this`ledger
      ensures Value() == HealthPass(cfg, world, old(Value()), now)
    {
      var i := 0;
      while i < |entries|
        invariant 0 <= i <= |entries|
        invariant RepairFrom(cfg, world, Value(), i, now) == RepairFrom(cfg, world, old(Value()), 0, now)
      {
        var (e, l) := Repair(cfg, world, entries[i], ledger, now);
        entries, ledger := entries[i := e], l;
        i := i + 1;
      }
      var open := CountOpen();
      ghost var repaired := Value();
      i := 0;
      while i < |entries| && open > cfg.Min()
        invariant 0 <= i <= |entries|
        invariant ReapFrom(cfg, Value(), i, open, now) == ReapFrom(cfg, repaired, 0, Open(repaired), now)
      {
        if Expired(cfg, entries[i], now) {
          var (e, l) := Close(entries[i], ledger);
          entries, ledger := entries[i := e], l;
          open := open - 1;
        }
        i := i + 1;
      }
    }

    method CountOpen() returns (open: nat)
      ensures open == Open(Value())
    {
      open := 0;
      var i := 0;
      while i < |entries|
        invariant 0 <= i <= |entries|
        invariant open + Count(HasConn(), entries[i..]) == Open(Value())
      {
        assert entries[i..][0] == entries[i] && entries[i..][1..] == entries[i + 1..];
        if entries[i].conn.Some? { open := open + 1; }
        i := i + 1;
      }
    }

    /** `stop`, once the health thread has ended: leased entries are closed too. */
    method Stop()
      modifies this
      ensures !running
      ensures Value() == if old(running) then Stopped(old(Value())) else old(Value())
    {
      if !running { return; }
      running := false;
      var i := 0;
      while i < |entries|
        invariant 0 <= i <= |entries| && !running
        invariant CloseFrom(Value(), i) == CloseFrom(old(Value()), 0)
      {
        var (e, l) := Close(entries[i], ledger);
        entries, ledger := entries[i := e], l;
        i := i + 1;
      }
      entries := [];
    }
  }
}
