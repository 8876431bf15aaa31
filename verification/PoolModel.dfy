/** The connection pools of the manager. Both pools share everything but how a returned connection
    is judged and how the health pass treats an idle connection marked unhealthy, so `Kind` picks
    the variant. Every critical section holds the pool mutex and is one function here; what
    `connect`, `ping` and `mysql_errno` answer comes from the outside world. */
module PoolModel {
  import opened Options
  import opened Seqs

  datatype Kind = Mysql | Redis

  /** `minSize` and `maxSize` are the constructor's arguments. */
  datatype Config = Config(kind: Kind, minSize: int, maxSize: int, idleTtl: int) {
    function Min(): (n: nat)
      ensures n >= 0 && n >= minSize && (n == 0 || n == minSize)
    {
      if minSize < 0 then 0 else minSize
    }
    function Max(): (n: nat)
      ensures n >= Min() && n >= maxSize && (n == Min() || n == maxSize)
    {
      if maxSize < Min() then Min() else maxSize
    }
  }

  /** The answer to the n-th call into the database client: did connect, ping or the error check
      succeed? */
  type World = nat -> bool

  datatype Entry = Entry(conn: Option<nat>, inUse: bool, healthy: bool, failures: nat, lastUsed: int)

  /** Handles `0..issued` were handed out by `connect`; `closed` and `leaked` are those closed and
      those overwritten without being closed; `calls` counts the calls into the client. */
  datatype Ledger = Ledger(issued: nat, closed: set<nat>, leaked: set<nat>, calls: nat)

  datatype Pool = Pool(entries: seq<Entry>, ledger: Ledger)

  const Empty := Pool([], Ledger(0, {}, {}, 0))

  // --------------------------------------------------------------- operations

  /** `entry.conn = connect(); entry.healthy = conn != nullptr`: a handle already there is lost. */
  function Reconnect(w: World, e: Entry, l: Ledger): (Entry, Ledger) {
    var lost := if e.conn.Some? then l.leaked + {e.conn.value} else l.leaked;
    if w(l.calls)
    then (e.(conn := Some(l.issued), healthy := true),
          l.(issued := l.issued + 1, leaked := lost, calls := l.calls + 1))
    else (e.(conn := None, healthy := false), l.(leaked := lost, calls := l.calls + 1))
  }

  /** `closeEntry`. */
  function Close(e: Entry, l: Ledger): (Entry, Ledger) {
    (e.(conn := None, healthy := false, inUse := false),
     if e.conn.Some? then l.(closed := l.closed + {e.conn.value}) else l)
  }

  /** `ensureHealthy`. */
  function EnsureHealthy(w: World, e: Entry, l: Ledger): (Entry, Ledger) {
    if e.conn.None? then Reconnect(w, e, l)
    else
      var pinged := l.(calls := l.calls + 1);
      if w(l.calls) then (e.(healthy := true, failures := 0), pinged)
      else
        var (closed, after) := Close(e, pinged);
        Reconnect(w, closed, after)
  }

  function Put(p: Pool, i: nat, el: (Entry, Ledger)): Pool
    requires i < |p.entries|
  {
    Pool(p.entries[i := el.0], el.1)
  }

  /** The scan of `acquire` from index `i`: the first idle entry that is healthy or can be made so. */
  function Scan(w: World, p: Pool, i: nat): (Pool, Option<nat>)
    requires i <= |p.entries|
    decreases |p.entries| - i
  {
    if i == |p.entries| then (p, None)
    else
      var e := p.entries[i];
      if e.inUse then Scan(w, p, i + 1)
      else if e.healthy then (Put(p, i, (e.(inUse := true), p.ledger)), Some(i))
      else
        var q := Put(p, i, EnsureHealthy(w, e, p.ledger));
        if q.entries[i].healthy
        then (Put(q, i, (q.entries[i].(inUse := true), q.ledger)), Some(i))
        else Scan(w, q, i + 1)
  }

  /** Growing the pool by one entry, as `acquire` and `start` do. */
  function Grow(w: World, p: Pool, lease: bool, now: int): Pool {
    var (e, l) := Reconnect(w, Entry(None, false, false, 0, now), p.ledger);
    Pool(p.entries + [e.(inUse := lease && e.healthy)], l)
  }

  /** One pass of `acquire` between taking the lock and waiting: the leased index, if any. */
  function AcquirePass(cfg: Config, w: World, p: Pool, now: int): (Pool, Option<nat>) {
    var (q, found) := Scan(w, p, 0);
    if found.Some? || |q.entries| >= cfg.Max() then (q, found)
    else
      var r := Grow(w, q, true, now);
      (r, if r.entries[|q.entries|].inUse then Some(|q.entries|) else None)
  }

  /** `release`: unhealthy when the guard says so or, for MySQL, when the handle has an error. */
  function Release(cfg: Config, w: World, p: Pool, i: nat, healthy: bool, now: int): Pool {
    if i >= |p.entries| then p
    else
      var e := p.entries[i].(inUse := false, lastUsed := now);
      var l := if healthy && cfg.kind.Mysql? then p.ledger.(calls := p.ledger.calls + 1) else p.ledger;
      var good := healthy && (cfg.kind.Mysql? ==> w(p.ledger.calls));
      Put(p, i, (if good then e else e.(healthy := false, failures := e.failures + 1), l))
  }

  /** What the health pass does to one entry. */
  function Repair(cfg: Config, w: World, e: Entry, l: Ledger, now: int): (Entry, Ledger) {
    if e.inUse then (e, l)
    else if e.conn.None? || (cfg.kind.Mysql? && !e.healthy) then
      var (renewed, after) := Reconnect(w, e, l);
      (renewed.(lastUsed := now), after)
    else
      var pinged := l.(calls := l.calls + 1);
      if w(l.calls) then (if cfg.kind.Redis? then e.(healthy := true) else e, pinged)
      else Close(e, pinged)
  }

  function RepairFrom(cfg: Config, w: World, p: Pool, i: nat, now: int): Pool
    requires i <= |p.entries|
    decreases |p.entries| - i
  {
    if i == |p.entries| then p
    else RepairFrom(cfg, w, Put(p, i, Repair(cfg, w, p.entries[i], p.ledger, now)), i + 1, now)
  }

  function HasConn(): Entry -> bool { (e: Entry) => e.conn.Some? }

  function Open(p: Pool): nat { Count(HasConn(), p.entries) }

  predicate Expired(cfg: Config, e: Entry, now: int) {
    !e.inUse && e.conn.Some? && now - e.lastUsed > cfg.idleTtl
  }

  /** Closing idle connections past their time while more than the minimum are open. */
  function ReapFrom(cfg: Config, p: Pool, i: nat, open: int, now: int): Pool
    requires i <= |p.entries|
    decreases |p.entries| - i
  {
    if i == |p.entries| || open <= cfg.Min() then p
    else if Expired(cfg, p.entries[i], now)
    then ReapFrom(cfg, Put(p, i, Close(p.entries[i], p.ledger)), i + 1, open - 1, now)
    else ReapFrom(cfg, p, i + 1, open, now)
  }

  /** One round of `healthLoop`. */
  function HealthPass(cfg: Config, w: World, p: Pool, now: int): Pool {
    var q := RepairFrom(cfg, w, p, 0, now);
    ReapFrom(cfg, q, 0, Open(q), now)
  }

  function StartFrom(cfg: Config, w: World, p: Pool, n: nat, now: int): Pool
    decreases n
  {
    if n == 0 then p else StartFrom(cfg, w, Grow(w, p, false, now), n - 1, now)
  }

  function CloseFrom(p: Pool, i: nat): Pool
    requires i <= |p.entries|
    decreases |p.entries| - i
  {
    if i == |p.entries| then p else CloseFrom(Put(p, i, Close(p.entries[i], p.ledger)), i + 1)
  }

  /** The second half of `stop`: every entry is closed and removed. */
  function Stopped(p: Pool): Pool {
    Pool([], CloseFrom(p, 0).ledger)
  }

  // ---------------------------------------------------------------- invariant

  ghost predicate EntryInv(e: Entry, l: Ledger) {
    && (e.inUse ==> e.healthy)
    && (e.healthy ==> e.conn.Some?)
    && (e.conn.Some? ==> e.conn.value < l.issued && e.conn.value !in l.closed + l.leaked)
  }

  /** Handles: in range, one owner each, and every one of them held, closed or leaked. */
  ghost predicate Inv(cfg: Config, p: Pool) {
    && |p.entries| <= cfg.Max()
    && (forall i | 0 <= i < |p.entries| :: EntryInv(p.entries[i], p.ledger))
    && (forall i, j | 0 <= i < j < |p.entries| && p.entries[i].conn.Some? :: p.entries[i].conn != p.entries[j].conn)
    && (forall h | h in p.ledger.closed + p.ledger.leaked :: h < p.ledger.issued)
    && p.ledger.closed !! p.ledger.leaked
    && p.ledger.issued == |p.ledger.closed| + |p.ledger.leaked| + Open(p)
    && (cfg.kind.Redis? ==> p.ledger.leaked == {})
  }

  /** Changing flags of an entry, without touching its handle. */
  lemma FlagsKeepInv(cfg: Config, p: Pool, i: nat, e: Entry, calls: nat)
    requires Inv(cfg, p) && i < |p.entries| && e.conn == p.entries[i].conn
    requires (e.inUse ==> e.healthy) && (e.healthy ==> e.conn.Some?)
    ensures Inv(cfg, Put(p, i, (e, p.ledger.(calls := calls))))
  {
    CountUpdate(HasConn(), p.entries, i, e);
    assert forall j | 0 <= j < |p.entries| :: EntryInv(p.entries[j], p.ledger);
  }

  lemma CloseKeepsInv(cfg: Config, p: Pool, i: nat)
    requires Inv(cfg, p) && i < |p.entries|
    ensures Inv(cfg, Put(p, i, Close(p.entries[i], p.ledger)))
    ensures Open(Put(p, i, Close(p.entries[i], p.ledger))) ==
            Open(p) - if p.entries[i].conn.Some? then 1 else 0
  {
    var (e, l) := Close(p.entries[i], p.ledger);
    CountUpdate(HasConn(), p.entries, i, e);
    assert forall j | 0 <= j < |p.entries| :: EntryInv(p.entries[j], p.ledger);
  }

  /** Forgetting the handle of an idle entry without closing it. */
  lemma ForgetKeepsInv(cfg: Config, p: Pool, i: nat)
    requires Inv(cfg, p) && i < |p.entries| && !p.entries[i].inUse
    requires cfg.kind.Mysql? && p.entries[i].conn.Some?
    ensures Inv(cfg, Put(p, i, (p.entries[i].(conn := None, healthy := false),
                                p.ledger.(leaked := p.ledger.leaked + {p.entries[i].conn.value}))))
  {
    CountUpdate(HasConn(), p.entries, i, p.entries[i].(conn := None, healthy := false));
    assert forall j | 0 <= j < |p.entries| :: EntryInv(p.entries[j], p.ledger);
  }

  /** Connecting an idle entry that has no handle. */
  lemma ConnectKeepsInv(cfg: Config, w: World, p: Pool, i: nat)
    requires Inv(cfg, p) && i < |p.entries| && !p.entries[i].inUse && p.entries[i].conn.None?
    ensures Inv(cfg, Put(p, i, Reconnect(w, p.entries[i], p.ledger)))
  {
    CountUpdate(HasConn(), p.entries, i, Reconnect(w, p.entries[i], p.ledger).0);
    assert forall j | 0 <= j < |p.entries| :: EntryInv(p.entries[j], p.ledger);
  }

  lemma ReconnectKeepsInv(cfg: Config, w: World, p: Pool, i: nat)
    requires Inv(cfg, p) && i < |p.entries| && !p.entries[i].inUse
    requires p.entries[i].conn.Some? ==> cfg.kind.Mysql?
    ensures Inv(cfg, Put(p, i, Reconnect(w, p.entries[i], p.ledger)))
  {
    hide Inv;
    if p.entries[i].conn.None? {
      ConnectKeepsInv(cfg, w, p, i);
    } else {
      ForgetKeepsInv(cfg, p, i);
      var q := Put(p, i, (p.entries[i].(conn := None, healthy := false),
                          p.ledger.(leaked := p.ledger.leaked + {p.entries[i].conn.value})));
      ConnectKeepsInv(cfg, w, q, i);
      assert Put(p, i, Reconnect(w, p.entries[i], p.ledger)) == Put(q, i, Reconnect(w, q.entries[i], q.ledger));
    }
  }

  lemma EnsureHealthyKeepsInv(cfg: Config, w: World, p: Pool, i: nat)
    requires Inv(cfg, p) && i < |p.entries| && !p.entries[i].inUse
    ensures var q := Put(p, i, EnsureHealthy(w, p.entries[i], p.ledger));
            Inv(cfg, q) && q.ledger.leaked == p.ledger.leaked && LeasesKept(p, q, None)
  {
    hide Inv;
    var e := p.entries[i];
    if e.conn.None? {
      ReconnectKeepsInv(cfg, w, p, i);
    } else {
      FlagsKeepInvWeak(cfg, p, i, p.ledger.calls + 1);
      var a := Put(p, i, (e, p.ledger.(calls := p.ledger.calls + 1)));
      if w(p.ledger.calls) {
        FlagsKeepInvHealthy(cfg, p, i, p.ledger.calls + 1);
      } else {
        CloseKeepsInv(cfg, a, i);
        var b := Put(a, i, Close(a.entries[i], a.ledger));
        ReconnectKeepsInv(cfg, w, b, i);
        var q := Put(p, i, EnsureHealthy(w, e, p.ledger));
        assert q == Put(b, i, Reconnect(w, b.entries[i], b.ledger));
      }
    }
  }

  lemma FlagsKeepInvWeak(cfg: Config, p: Pool, i: nat, calls: nat)
    requires Inv(cfg, p) && i < |p.entries|
    ensures Inv(cfg, Put(p, i, (p.entries[i], p.ledger.(calls := calls))))
  {
    assert EntryInv(p.entries[i], p.ledger);
    FlagsKeepInv(cfg, p, i, p.entries[i], calls);
  }

  lemma FlagsKeepInvHealthy(cfg: Config, p: Pool, i: nat, calls: nat)
    requires Inv(cfg, p) && i < |p.entries| && p.entries[i].conn.Some?
    ensures Inv(cfg, Put(p, i, (p.entries[i].(healthy := true, failures := 0), p.ledger.(calls := calls))))
    ensures Inv(cfg, Put(p, i, (p.entries[i].(healthy := true), p.ledger.(calls := calls))))
  {
    FlagsKeepInv(cfg, p, i, p.entries[i].(healthy := true, failures := 0), calls);
    FlagsKeepInv(cfg, p, i, p.entries[i].(healthy := true), calls);
  }

  /** What a step of the pool keeps for the entries it does not lease or release: leased entries stay
      as they are, and no entry becomes leased except `taken`. */
  ghost predicate LeasesKept(p: Pool, q: Pool, taken: Option<nat>) {
    && |p.entries| <= |q.entries|
    && (forall i | 0 <= i < |p.entries| && p.entries[i].inUse :: q.entries[i] == p.entries[i])
    && (forall i | 0 <= i < |q.entries| && q.entries[i].inUse ::
          (i < |p.entries| && p.entries[i].inUse) || taken == Some(i))
    && (taken.Some? ==> taken.value < |q.entries| && q.entries[taken.value].inUse)
    && (taken.Some? && taken.value < |p.entries| ==> !p.entries[taken.value].inUse)
  }

  lemma LeasesChain(p: Pool, q: Pool, r: Pool, taken: Option<nat>)
    requires LeasesKept(p, q, None) && LeasesKept(q, r, taken)
    ensures LeasesKept(p, r, taken)
  {
  }

  lemma {:induction false} ScanKeepsInv(cfg: Config, w: World, p: Pool, i: nat)
    requires Inv(cfg, p) && i <= |p.entries|
    ensures var (q, found) := Scan(w, p, i);
            Inv(cfg, q) && LeasesKept(p, q, found) && |q.entries| == |p.entries| &&
            q.ledger.leaked == p.ledger.leaked &&
            (found.None? ==> forall k | i <= k < |q.entries| :: q.entries[k].inUse || !q.entries[k].healthy) &&
            (found.Some? ==> found.value >= i &&
                             forall k | i <= k < found.value :: q.entries[k].inUse || !q.entries[k].healthy) &&
            (forall k | 0 <= k < i :: q.entries[k] == p.entries[k])
    decreases |p.entries| - i
  {
    hide Inv;
    hide EnsureHealthy;
    if i < |p.entries| {
      var e := p.entries[i];
      if e.inUse {
        ScanKeepsInv(cfg, w, p, i + 1);
      } else if e.healthy {
        LeaseKeepsInv(cfg, p, i);
      } else {
        EnsureHealthyKeepsInv(cfg, w, p, i);
        var q := Put(p, i, EnsureHealthy(w, e, p.ledger));
        if q.entries[i].healthy {
          LeaseKeepsInv(cfg, q, i);
          LeasesChain(p, q, Put(q, i, (q.entries[i].(inUse := true), q.ledger)), Some(i));
        } else {
          ScanKeepsInv(cfg, w, q, i + 1);
          var (r, found) := Scan(w, q, i + 1);
          LeasesChain(p, q, r, found);
          assert r.entries[i] == q.entries[i];
        }
      }
    }
  }

  lemma LeaseKeepsInv(cfg: Config, p: Pool, i: nat)
    requires Inv(cfg, p) && i < |p.entries| && p.entries[i].healthy && !p.entries[i].inUse
    ensures var q := Put(p, i, (p.entries[i].(inUse := true), p.ledger));
            Inv(cfg, q) && LeasesKept(p, q, Some(i))
  {
    assert EntryInv(p.entries[i], p.ledger);
    FlagsKeepInv(cfg, p, i, p.entries[i].(inUse := true), p.ledger.calls);
    assert p.ledger.(calls := p.ledger.calls) == p.ledger;
  }

  lemma GrowKeepsInv(cfg: Config, w: World, p: Pool, lease: bool, now: int)
    requires Inv(cfg, p) && |p.entries| < cfg.Max()
    ensures var q := Grow(w, p, lease, now);
            var e := q.entries[|p.entries|];
            Inv(cfg, q) && |q.entries| == |p.entries| + 1 && q.ledger.leaked == p.ledger.leaked &&
            (e.inUse <==> lease && e.healthy) && (e.healthy <==> w(p.ledger.calls)) &&
            LeasesKept(p, q, if e.inUse then Some(|p.entries|) else None)
  {
    hide Inv;
    var n := |p.entries|;
    var blank := Entry(None, false, false, 0, now);
    var a := Pool(p.entries + [blank], p.ledger);
    AppendKeepsInv(cfg, p, blank);
    ConnectKeepsInv(cfg, w, a, n);
    var b := Put(a, n, Reconnect(w, blank, p.ledger));
    var q := Grow(w, p, lease, now);
    if q.entries[n].inUse {
      LeaseKeepsInv(cfg, b, n);
      assert q == Put(b, n, (b.entries[n].(inUse := true), b.ledger));
    } else {
      assert q == b;
    }
  }

  lemma AppendKeepsInv(cfg: Config, p: Pool, e: Entry)
    requires Inv(cfg, p) && |p.entries| < cfg.Max() && e.conn.None? && !e.healthy && !e.inUse
    ensures Inv(cfg, Pool(p.entries + [e], p.ledger))
  {
    CountAppend(HasConn(), p.entries, [e]);
    assert forall j | 0 <= j < |p.entries| :: EntryInv(p.entries[j], p.ledger);
  }

  /** One pass of `acquire`: it leases exactly the entry it returns, the first usable one, disturbs no
      other lease, leaks nothing, and comes back empty only if no idle entry could be made healthy and the
      pool is full or a new connection failed. */
  lemma AcquireKeepsInv(cfg: Config, w: World, p: Pool, now: int)
    requires Inv(cfg, p)
    ensures var (q, found) := AcquirePass(cfg, w, p, now);
            Inv(cfg, q) && LeasesKept(p, q, found) && q.ledger.leaked == p.ledger.leaked &&
            (found.Some? ==> forall k | 0 <= k < found.value && k < |p.entries| ::
                               q.entries[k].inUse || !q.entries[k].healthy) &&
            (found.None? ==> (forall k | 0 <= k < |q.entries| :: q.entries[k].inUse || !q.entries[k].healthy) &&
                             (|p.entries| < cfg.Max() ==> |q.entries| == |p.entries| + 1))
  {
    hide Inv;
    hide Scan;
    hide Grow;
    ScanKeepsInv(cfg, w, p, 0);
    var (q, found) := Scan(w, p, 0);
    if found.None? && |q.entries| < cfg.Max() {
      GrowKeepsInv(cfg, w, q, true, now);
      var r := Grow(w, q, true, now);
      var taken := if r.entries[|q.entries|].inUse then Some(|q.entries|) else None;
      LeasesChain(p, q, r, taken);
      assert forall k | 0 <= k < |q.entries| && !q.entries[k].healthy :: true;
      GrowKeepsOthers(w, q, true, now);
    }
  }

  lemma GrowKeepsOthers(w: World, p: Pool, lease: bool, now: int)
    ensures forall k | 0 <= k < |p.entries| :: Grow(w, p, lease, now).entries[k] == p.entries[k]
  {
  }

  lemma ReleaseKeepsInv(cfg: Config, w: World, p: Pool, i: nat, healthy: bool, now: int)
    requires Inv(cfg, p)
    ensures var q := Release(cfg, w, p, i, healthy, now);
            Inv(cfg, q) && |q.entries| == |p.entries| &&
            q.ledger.(calls := p.ledger.calls) == p.ledger &&
            (i < |p.entries| ==> !q.entries[i].inUse && q.entries[i].conn == p.entries[i].conn &&
                                 q.entries[i].lastUsed == now &&
                                 q.entries[i].failures == p.entries[i].failures +
                                   (if healthy && (cfg.kind.Mysql? ==> w(p.ledger.calls)) then 0 else 1) &&
                                 (q.entries[i].healthy <==>
                                  p.entries[i].healthy && healthy && (cfg.kind.Mysql? ==> w(p.ledger.calls)))) &&
            (forall k | 0 <= k < |p.entries| && k != i :: q.entries[k] == p.entries[k])
  {
    if i < |p.entries| {
      assert EntryInv(p.entries[i], p.ledger);
      var q := Release(cfg, w, p, i, healthy, now);
      FlagsKeepInv(cfg, p, i, q.entries[i], q.ledger.calls);
    }
  }

  // ------------------------------------------------------------ health pass

  lemma EntryFact(cfg: Config, p: Pool, i: nat)
    requires Inv(cfg, p) && i < |p.entries|
    ensures EntryInv(p.entries[i], p.ledger)
  {
  }

  /** What `Repair` leaks: the handle of an idle MySQL entry marked unhealthy. */
  function Lost(cfg: Config, e: Entry): set<nat> {
    if cfg.kind.Mysql? && !e.inUse && !e.healthy && e.conn.Some? then {e.conn.value} else {}
  }

  lemma RepairKeepsInv(cfg: Config, w: World, p: Pool, i: nat, now: int)
    requires Inv(cfg, p) && i < |p.entries|
    ensures var q := Put(p, i, Repair(cfg, w, p.entries[i], p.ledger, now));
            Inv(cfg, q) && LeasesKept(p, q, None) &&
            q.ledger.leaked == p.ledger.leaked + Lost(cfg, p.entries[i])
  {
    hide Inv;
    var e := p.entries[i];
    EntryFact(cfg, p, i);
    if e.inUse {
      assert Put(p, i, Repair(cfg, w, e, p.ledger, now)) == p;
    } else if e.conn.None? || (cfg.kind.Mysql? && !e.healthy) {
      RepairByReconnect(cfg, w, p, i, now);
    } else {
      RepairByPing(cfg, w, p, i, now);
    }
  }

  lemma RepairByReconnect(cfg: Config, w: World, p: Pool, i: nat, now: int)
    requires Inv(cfg, p) && i < |p.entries| && !p.entries[i].inUse
    requires p.entries[i].conn.None? || (cfg.kind.Mysql? && !p.entries[i].healthy)
    requires p.entries[i].conn.None? ==> !p.entries[i].healthy
    ensures var q := Put(p, i, Repair(cfg, w, p.entries[i], p.ledger, now));
            Inv(cfg, q) && LeasesKept(p, q, None) &&
            q.ledger.leaked == p.ledger.leaked + Lost(cfg, p.entries[i])
  {
    hide Inv;
    var e := p.entries[i];
    ReconnectKeepsInv(cfg, w, p, i);
    var b := Put(p, i, Reconnect(w, e, p.ledger));
    StampKeepsInv(cfg, b, i, now);
    assert Put(p, i, Repair(cfg, w, e, p.ledger, now)) == Put(b, i, (b.entries[i].(lastUsed := now), b.ledger));
  }

  lemma RepairByPing(cfg: Config, w: World, p: Pool, i: nat, now: int)
    requires Inv(cfg, p) && i < |p.entries| && !p.entries[i].inUse
    requires p.entries[i].conn.Some? && (cfg.kind.Mysql? ==> p.entries[i].healthy)
    ensures var q := Put(p, i, Repair(cfg, w, p.entries[i], p.ledger, now));
            Inv(cfg, q) && LeasesKept(p, q, None) && q.ledger.leaked == p.ledger.leaked
  {
    hide Inv;
    var e := p.entries[i];
    FlagsKeepInvWeak(cfg, p, i, p.ledger.calls + 1);
    FlagsKeepInvHealthy(cfg, p, i, p.ledger.calls + 1);
    if !w(p.ledger.calls) {
      var a := Put(p, i, (e, p.ledger.(calls := p.ledger.calls + 1)));
      CloseKeepsInv(cfg, a, i);
      assert Put(p, i, Repair(cfg, w, e, p.ledger, now)) == Put(a, i, Close(a.entries[i], a.ledger));
    }
  }

  lemma StampKeepsInv(cfg: Config, p: Pool, i: nat, now: int)
    requires Inv(cfg, p) && i < |p.entries|
    ensures Inv(cfg, Put(p, i, (p.entries[i].(lastUsed := now), p.ledger)))
  {
    assert EntryInv(p.entries[i], p.ledger);
    FlagsKeepInv(cfg, p, i, p.entries[i].(lastUsed := now), p.ledger.calls);
    assert p.ledger.(calls := p.ledger.calls) == p.ledger;
  }

  /** A handle the MySQL health pass is about to overwrite: idle, unhealthy and still open. */
  predicate Doomed(cfg: Config, p: Pool, k: nat)
    requires k < |p.entries|
  {
    cfg.kind.Mysql? && !p.entries[k].inUse && !p.entries[k].healthy && p.entries[k].conn.Some?
  }

  lemma {:induction false} RepairAllKeepsInv(cfg: Config, w: World, p: Pool, i: nat, now: int)
    requires Inv(cfg, p) && i <= |p.entries|
    ensures var q := RepairFrom(cfg, w, p, i, now);
            Inv(cfg, q) && LeasesKept(p, q, None) && |q.entries| == |p.entries| &&
            (forall h :: h in q.ledger.leaked <==>
               h in p.ledger.leaked ||
               exists k | i <= k < |p.entries| :: Doomed(cfg, p, k) && p.entries[k].conn == Some(h))
    decreases |p.entries| - i
  {
    hide Inv;
    hide Repair;
    if i < |p.entries| {
      RepairKeepsInv(cfg, w, p, i, now);
      var q := Put(p, i, Repair(cfg, w, p.entries[i], p.ledger, now));
      RepairAllKeepsInv(cfg, w, q, i + 1, now);
      LeasesChain(p, q, RepairFrom(cfg, w, q, i + 1, now), None);
      forall h ensures h in RepairFrom(cfg, w, p, i, now).ledger.leaked <==>
                       h in p.ledger.leaked ||
                       exists k | i <= k < |p.entries| :: Doomed(cfg, p, k) && p.entries[k].conn == Some(h)
      {
        DoomedSplit(cfg, p, q, i, h);
      }
    }
  }

  lemma DoomedSplit(cfg: Config, p: Pool, q: Pool, i: nat, h: nat)
    requires i < |p.entries| == |q.entries|
    requires forall k | i < k < |p.entries| :: q.entries[k] == p.entries[k]
    ensures (exists k | i <= k < |p.entries| :: Doomed(cfg, p, k) && p.entries[k].conn == Some(h)) <==>
            (Doomed(cfg, p, i) && p.entries[i].conn == Some(h)) ||
            exists k | i + 1 <= k < |q.entries| :: Doomed(cfg, q, k) && q.entries[k].conn == Some(h)
  {
    forall k | i + 1 <= k < |p.entries| ensures Doomed(cfg, p, k) == Doomed(cfg, q, k) {
    }
  }

  /** With a server that answers every call the repairs leave every connection open and healthy; with
      one that answers none they leave no idle connection open. */
  lemma {:induction false} RepairFollowsServer(cfg: Config, w: World, p: Pool, i: nat, now: int)
    requires Inv(cfg, p) && i <= |p.entries|
    ensures var q := RepairFrom(cfg, w, p, i, now);
            |q.entries| == |p.entries| && (forall k | 0 <= k < i :: q.entries[k] == p.entries[k]) &&
            ((forall n :: w(n)) ==> forall k | i <= k < |q.entries| :: q.entries[k].healthy) &&
            ((forall n :: !w(n)) ==>
               forall k | i <= k < |q.entries| && !q.entries[k].inUse :: q.entries[k].conn.None?)
    decreases |p.entries| - i
  {
    hide Inv;
    if i < |p.entries| {
      EntryFact(cfg, p, i);
      RepairKeepsInv(cfg, w, p, i, now);
      RepairFollowsServer(cfg, w, Put(p, i, Repair(cfg, w, p.entries[i], p.ledger, now)), i + 1, now);
    }
  }

  /** Idle reaping stops at the minimum, and if it does not get that low it has closed every idle
      connection past its time. */
  lemma {:induction false} ReapKeepsInv(cfg: Config, p: Pool, i: nat, now: int)
    requires Inv(cfg, p) && i <= |p.entries|
    ensures var q := ReapFrom(cfg, p, i, Open(p), now);
            Inv(cfg, q) && LeasesKept(p, q, None) && |q.entries| == |p.entries| &&
            q.ledger.leaked == p.ledger.leaked &&
            Open(q) >= (if Open(p) < cfg.Min() then Open(p) else cfg.Min()) &&
            (Open(q) > cfg.Min() ==> forall k | i <= k < |q.entries| :: !Expired(cfg, q.entries[k], now)) &&
            (forall k | 0 <= k < i :: q.entries[k] == p.entries[k])
    decreases |p.entries| - i
  {
    hide Inv;
    hide Open;
    if i < |p.entries| && Open(p) > cfg.Min() {
      if Expired(cfg, p.entries[i], now) {
        CloseKeepsInv(cfg, p, i);
        var q := Put(p, i, Close(p.entries[i], p.ledger));
        ReapKeepsInv(cfg, q, i + 1, now);
        LeasesChain(p, q, ReapFrom(cfg, q, i + 1, Open(q), now), None);
      } else {
        ReapKeepsInv(cfg, p, i + 1, now);
      }
    }
  }

  /** A health pass never touches a leased entry, never changes the number of entries, keeps the
      minimum open, and leaks exactly the handles of idle MySQL entries marked unhealthy. */
  lemma HealthPassKeepsInv(cfg: Config, w: World, p: Pool, now: int)
    requires Inv(cfg, p)
    ensures var q := HealthPass(cfg, w, p, now);
            var repaired := RepairFrom(cfg, w, p, 0, now);
            Inv(cfg, q) && LeasesKept(p, q, None) && |q.entries| == |p.entries| &&
            Open(q) >= (if Open(repaired) < cfg.Min() then Open(repaired) else cfg.Min()) &&
            (forall h :: h in q.ledger.leaked <==>
               h in p.ledger.leaked ||
               exists k | 0 <= k < |p.entries| :: Doomed(cfg, p, k) && p.entries[k].conn == Some(h))
  {
    hide Inv;
    hide Count;
    RepairAllKeepsInv(cfg, w, p, 0, now);
    var q := RepairFrom(cfg, w, p, 0, now);
    ReapKeepsInv(cfg, q, 0, now);
    LeasesChain(p, q, HealthPass(cfg, w, p, now), None);
  }

  // -------------------------------------------------------------- start, stop

  lemma {:induction false} StartKeepsInv(cfg: Config, w: World, p: Pool, n: nat, now: int)
    requires Inv(cfg, p) && |p.entries| + n <= cfg.Max()
    requires forall e | e in p.entries :: !e.inUse
    ensures var q := StartFrom(cfg, w, p, n, now);
            Inv(cfg, q) && |q.entries| == |p.entries| + n && (forall e | e in q.entries :: !e.inUse)
    decreases n
  {
    hide Inv;
    if n > 0 {
      GrowKeepsInv(cfg, w, p, false, now);
      StartKeepsInv(cfg, w, Grow(w, p, false, now), n - 1, now);
    }
  }

  lemma {:induction false} CloseAllKeepsInv(cfg: Config, p: Pool, i: nat)
    requires Inv(cfg, p) && i <= |p.entries|
    requires forall k | 0 <= k < i :: p.entries[k].conn.None?
    ensures var q := CloseFrom(p, i);
            Inv(cfg, q) && q.ledger.leaked == p.ledger.leaked &&
            forall k | 0 <= k < |q.entries| :: q.entries[k].conn.None?
    decreases |p.entries| - i
  {
    hide Inv;
    if i < |p.entries| {
      CloseKeepsInv(cfg, p, i);
      CloseAllKeepsInv(cfg, Put(p, i, Close(p.entries[i], p.ledger)), i + 1);
    }
  }

  /** After `stop` every handle ever opened is closed, except those the MySQL health pass lost. */
  lemma StopClosesEverything(cfg: Config, p: Pool)
    requires Inv(cfg, p)
    ensures var l := Stopped(p).ledger;
            l.issued == p.ledger.issued && l.leaked == p.ledger.leaked && l.closed !! l.leaked &&
            |l.closed| + |l.leaked| == l.issued &&
            (forall h | h in l.closed + l.leaked :: h < l.issued)
  {
    CloseAllKeepsInv(cfg, p, 0);
    var q := CloseFrom(p, 0);
    CountBound(HasConn(), q.entries);
    CloseOpensNothing(p, 0);
  }

  lemma {:induction false} CloseOpensNothing(p: Pool, i: nat)
    requires i <= |p.entries|
    ensures CloseFrom(p, i).ledger.issued == p.ledger.issued
    decreases |p.entries| - i
  {
    if i < |p.entries| { CloseOpensNothing(Put(p, i, Close(p.entries[i], p.ledger)), i + 1); }
  }

  // ------------------------------------------------------- what happens to a handle

  /** Making an idle entry healthy: a handle that answers is kept, one that does not is closed and
      replaced if the server connects, and an entry without one gets one if the server connects. */
  lemma EnsureHealthyOutcome(w: World, e: Entry, l: Ledger)
    requires e.conn.Some? ==> e.conn.value < l.issued
    ensures var (f, m) := EnsureHealthy(w, e, l);
            (e.conn.Some? && w(l.calls) ==>
               f == e.(healthy := true, failures := 0) && m == l.(calls := l.calls + 1)) &&
            (e.conn.Some? && !w(l.calls) ==>
               m.closed == l.closed + {e.conn.value} && f.conn != e.conn && f.lastUsed == e.lastUsed &&
               f.conn == (if w(l.calls + 1) then Some(l.issued) else None) && f.healthy == w(l.calls + 1)) &&
            (e.conn.None? ==>
               m.closed == l.closed && f == e.(conn := f.conn, healthy := f.healthy) &&
               f.conn == (if w(l.calls) then Some(l.issued) else None) && f.healthy == w(l.calls))
  {
  }

  /** What the repairs of a health pass may have made of an entry: a leased one is untouched; an idle one
      that is open and, in a MySQL pool, healthy keeps its handle, its time and its count of failures, or
      is closed; any other is reconnected or left closed, with the time of the pass. */
  ghost predicate Repaired(cfg: Config, e: Entry, f: Entry, now: int) {
    if e.inUse then f == e
    else if e.conn.Some? && (e.healthy || cfg.kind.Redis?) then
      f == e.(healthy := true) || f == e.(conn := None, healthy := false)
    else
      !f.inUse && f.lastUsed == now && f.failures == e.failures && f.healthy == f.conn.Some? &&
      (e.conn.Some? ==> f.conn != e.conn)
  }

  lemma RepairOne(cfg: Config, w: World, e: Entry, l: Ledger, now: int)
    requires EntryInv(e, l)
    ensures Repaired(cfg, e, Repair(cfg, w, e, l, now).0, now)
  {
  }

  lemma {:induction false} RepairsAre(cfg: Config, w: World, p: Pool, i: nat, now: int)
    requires Inv(cfg, p) && i <= |p.entries|
    ensures var q := RepairFrom(cfg, w, p, i, now);
            |q.entries| == |p.entries| && (forall k | 0 <= k < i :: q.entries[k] == p.entries[k]) &&
            forall k | i <= k < |p.entries| :: Repaired(cfg, p.entries[k], q.entries[k], now)
    decreases |p.entries| - i
  {
    hide Inv;
    hide Repair;
    hide Repaired;
    if i < |p.entries| {
      EntryFact(cfg, p, i);
      RepairOne(cfg, w, p.entries[i], p.ledger, now);
      RepairKeepsInv(cfg, w, p, i, now);
      RepairsAre(cfg, w, Put(p, i, Repair(cfg, w, p.entries[i], p.ledger, now)), i + 1, now);
    }
  }

  /** What reaping may have made of an entry: it closes idle connections that have not been used for
      longer than the time to live, and touches nothing else. */
  ghost predicate Reaped(cfg: Config, e: Entry, f: Entry, now: int) {
    f == e ||
    (!e.inUse && e.conn.Some? && now - e.lastUsed > cfg.idleTtl && f == e.(conn := None, healthy := false))
  }

  lemma {:induction false} ReapingIs(cfg: Config, p: Pool, i: nat, open: int, now: int)
    requires i <= |p.entries|
    ensures var q := ReapFrom(cfg, p, i, open, now);
            |q.entries| == |p.entries| && (forall k | 0 <= k < i :: q.entries[k] == p.entries[k]) &&
            forall k | i <= k < |p.entries| :: Reaped(cfg, p.entries[k], q.entries[k], now)
    decreases |p.entries| - i
  {
    if i < |p.entries| && open > cfg.Min() {
      if Expired(cfg, p.entries[i], now) {
        ReapingIs(cfg, Put(p, i, Close(p.entries[i], p.ledger)), i + 1, open - 1, now);
      } else {
        ReapingIs(cfg, p, i + 1, open, now);
      }
    }
  }

  /** After the repairs of a health pass: an entry whose handle the pass then closes was idle and unused
      for longer than the time to live; every other entry, in particular an idle open one used since, is
      as the repairs left it; if more than the minimum stay open no idle open entry that has been unused
      for longer is left; and the minimum stays open. */
  lemma ReapsOnlyTheStale(cfg: Config, w: World, p: Pool, now: int)
    requires Inv(cfg, p)
    ensures var repaired, q := RepairFrom(cfg, w, p, 0, now), HealthPass(cfg, w, p, now);
            |q.entries| == |repaired.entries| == |p.entries| &&
            (forall k | 0 <= k < |p.entries| :: Repaired(cfg, p.entries[k], repaired.entries[k], now)) &&
            (forall k | 0 <= k < |p.entries| :: Reaped(cfg, repaired.entries[k], q.entries[k], now)) &&
            (Open(q) > cfg.Min() ==>
               forall k | 0 <= k < |q.entries| && !q.entries[k].inUse && q.entries[k].conn.Some? ::
                 now - q.entries[k].lastUsed <= cfg.idleTtl)
  {
    hide Repaired;
    hide Reaped;
    RepairsAre(cfg, w, p, 0, now);
    RepairAllKeepsInv(cfg, w, p, 0, now);
    hide Inv;
    var repaired := RepairFrom(cfg, w, p, 0, now);
    ReapingIs(cfg, repaired, 0, Open(repaired), now);
    ReapKeepsInv(cfg, repaired, 0, now);
    StaleMeans(cfg, HealthPass(cfg, w, p, now), now);
    hide RepairFrom;
    hide ReapFrom;
    hide Expired;
  }

  lemma StaleMeans(cfg: Config, q: Pool, now: int)
    requires Open(q) > cfg.Min() ==> forall k | 0 <= k < |q.entries| :: !Expired(cfg, q.entries[k], now)
    ensures Open(q) > cfg.Min() ==>
              forall k | 0 <= k < |q.entries| && !q.entries[k].inUse && q.entries[k].conn.Some? ::
                now - q.entries[k].lastUsed <= cfg.idleTtl
  {
    hide Open;
  }
}
