/** The anomaly query of the manager (`queryAnomalyRecords` in `manager/src/QueryManager.cpp`): a SQL
    prefilter, a classifier in the application, a sort and a page. Columns may be NULL, as the tables
    allow, and the prefilter follows SQL's three-valued logic. Floats are reals. */
module Anomalies {
  import opened Options
  import opened Seqs
  import opened Paging

  // ---------------------------------------------------------------- SQL logic

  /** The value of a condition; `None` is SQL's unknown. */
  type Truth = Option<bool>

  function Greater(column: Option<real>, bound: real): Truth {
    if column.None? then None else Some(column.value > bound)
  }

  function Less(column: Option<real>, bound: real): Truth {
    if column.None? then None else Some(column.value < bound)
  }

  function AbsGreater(column: Option<real>, bound: real): Truth {
    if column.None? then None else Some(Abs(column.value) > bound)
  }

  function Is(column: Option<bool>, expected: bool): Truth {
    if column.None? then None else Some(column.value == expected)
  }

  function And(a: Truth, b: Truth): Truth {
    if a == Some(false) || b == Some(false) then Some(false)
    else if a == Some(true) && b == Some(true) then Some(true)
    else None
  }

  function AnyOf(conditions: seq<Truth>): Truth {
    if Some(true) in conditions then Some(true)
    else if None in conditions then None
    else Some(false)
  }

  function Abs(x: real): real { if x < 0.0 then -x else x }

  /** `toFloat` and `toBool`: a NULL cell reads as zero and as false. */
  function Number(column: Option<real>): real { if column.Some? then column.value else 0.0 }
  function Flag(column: Option<bool>): bool { column.Some? && column.value }

  // --------------------------------------------------------------------- rows

  datatype Meta = Meta(tenant: string, team: string, cluster: string, server: string, timestamp: int)

  datatype PerfRow = PerfRow(meta: Meta, cpu: Option<real>, mem: Option<real>, disk: Option<real>,
                             cpuRate: Option<real>, memRate: Option<real>)

  datatype MysqlRow = MysqlRow(meta: Meta, instance: string, up: Option<bool>, connectionUsed: Option<real>,
                               replicationConfigured: Option<bool>, lag: Option<real>,
                               slowRate: Option<real>, lockRate: Option<real>, poolHit: Option<real>)

  datatype RedisRow = RedisRow(meta: Meta, instance: string, up: Option<bool>, connectionUsed: Option<real>,
                               memoryUsed: Option<real>, hitRate: Option<real>,
                               replicationConfigured: Option<bool>, masterLinkUp: Option<bool>,
                               lag: Option<real>, rejected: Option<real>, slowlogGrowth: Option<real>)

  datatype Tables = Tables(perf: seq<PerfRow>, mysql: seq<MysqlRow>, redis: seq<RedisRow>)

  datatype Query = Query(tenant: string, team: string, cluster: string, server: string, start: int, end: int)

  datatype Thresholds = Thresholds(
    cpu: real, memory: real, disk: real, changeRate: real,
    mysqlConnection: real, mysqlLag: real, mysqlSlow: real, mysqlLock: real, mysqlPoolHit: real,
    redisConnection: real, redisMemory: real, redisHitRate: real, redisLag: real, redisSlowlog: real)

  function PositiveOr(x: real, fallback: real): real { if x > 0.0 then x else fallback }

  /** The thresholds the query service passes on: its own where the request gives none. */
  function ServiceThresholds(t: Thresholds): Thresholds {
    Thresholds(PositiveOr(t.cpu, 80.0), PositiveOr(t.memory, 90.0), PositiveOr(t.disk, 85.0),
               PositiveOr(t.changeRate, 0.5), PositiveOr(t.mysqlConnection, 90.0), PositiveOr(t.mysqlLag, 30.0),
               PositiveOr(t.mysqlSlow, 1.0), PositiveOr(t.mysqlLock, 1.0), PositiveOr(t.mysqlPoolHit, 95.0),
               PositiveOr(t.redisConnection, 90.0), PositiveOr(t.redisMemory, 90.0),
               PositiveOr(t.redisHitRate, 80.0), PositiveOr(t.redisLag, 30.0), PositiveOr(t.redisSlowlog, 1.0))
  }

  /** No upper threshold is negative, so a NULL cell read as zero exceeds none of them. */
  predicate NonNegative(t: Thresholds) {
    && t.cpu >= 0.0 && t.memory >= 0.0 && t.disk >= 0.0 && t.changeRate >= 0.0
    && t.mysqlConnection >= 0.0 && t.mysqlLag >= 0.0 && t.mysqlSlow >= 0.0 && t.mysqlLock >= 0.0
    && t.redisConnection >= 0.0 && t.redisMemory >= 0.0 && t.redisLag >= 0.0 && t.redisSlowlog >= 0.0
  }

  lemma ServiceThresholdsNonNegative(t: Thresholds)
    ensures NonNegative(ServiceThresholds(t))
  {
  }

  /** `scopePredicate`, the time range and the optional server name. */
  predicate InQuery(q: Query, m: Meta) {
    && m.tenant == q.tenant && m.team == q.team && (q.cluster != "" ==> m.cluster == q.cluster)
    && q.start <= m.timestamp <= q.end && (q.server != "" ==> m.server == q.server)
  }

  // --------------------------------------------------------------- prefilters

  predicate PerfFetched(t: Thresholds, r: PerfRow) {
    AnyOf([Greater(r.cpu, t.cpu), Greater(r.mem, t.memory), Greater(r.disk, t.disk),
           AbsGreater(r.cpuRate, t.changeRate), AbsGreater(r.memRate, t.changeRate)]) == Some(true)
  }

  predicate MysqlFetched(t: Thresholds, r: MysqlRow) {
    AnyOf([Is(r.up, false), Greater(r.connectionUsed, t.mysqlConnection),
           And(Is(r.replicationConfigured, true), Greater(r.lag, t.mysqlLag)),
           Greater(r.slowRate, t.mysqlSlow), Greater(r.lockRate, t.mysqlLock),
           And(Greater(r.poolHit, 0.0), Less(r.poolHit, t.mysqlPoolHit))]) == Some(true)
  }

  predicate RedisFetched(t: Thresholds, r: RedisRow) {
    AnyOf([Is(r.up, false), Greater(r.connectionUsed, t.redisConnection), Greater(r.memoryUsed, t.redisMemory),
           And(Greater(r.hitRate, 0.0), Less(r.hitRate, t.redisHitRate)),
           And(Is(r.replicationConfigured, true), Is(r.masterLinkUp, false)),
           Greater(r.lag, t.redisLag), Greater(r.rejected, 0.0),
           Greater(r.slowlogGrowth, t.redisSlowlog)]) == Some(true)
  }

  // -------------------------------------------------------------- classifiers

  datatype Anomaly = Anomaly(server: string, timestamp: int, kind: string, severity: string,
                             value: real, threshold: real, metric: string)

  /** One check of a classifier: a record when the condition holds. */
  function Check(condition: bool, a: Anomaly): (records: seq<Anomaly>)
    ensures |records| == if condition then 1 else 0
  {
    if condition then [a] else []
  }

  function Severity(critical: bool): string { if critical then "CRITICAL" else "WARNING" }

  function PerfAnomalies(t: Thresholds, r: PerfRow): seq<Anomaly> {
    var (cpu, mem, disk) := (Number(r.cpu), Number(r.mem), Number(r.disk));
    var (cpuRate, memRate) := (Number(r.cpuRate), Number(r.memRate));
    var (s, ts) := (r.meta.server, r.meta.timestamp);
    Check(cpu > t.cpu, Anomaly(s, ts, "CPU_HIGH", Severity(cpu > 95.0), cpu, t.cpu, "cpu_percent"))
    + Check(mem > t.memory, Anomaly(s, ts, "MEM_HIGH", Severity(mem > 95.0), mem, t.memory, "mem_used_percent"))
    + Check(disk > t.disk, Anomaly(s, ts, "DISK_HIGH", Severity(disk > 95.0), disk, t.disk, "disk_util_percent"))
    + Check(Abs(cpuRate) > t.changeRate,
            Anomaly(s, ts, "RATE_SPIKE", Severity(Abs(cpuRate) > 1.0), cpuRate, t.changeRate, "cpu_percent_rate"))
    + Check(Abs(memRate) > t.changeRate,
            Anomaly(s, ts, "RATE_SPIKE", Severity(Abs(memRate) > 1.0), memRate, t.changeRate, "mem_used_percent_rate"))
  }

  function Metric(instance: string, name: string): string {
    if instance == "" then name else instance + "." + name
  }

  function MysqlAnomalies(t: Thresholds, r: MysqlRow): seq<Anomaly> {
    var (s, ts, i) := (r.meta.server, r.meta.timestamp, r.instance);
    var (conn, lag) := (Number(r.connectionUsed), Number(r.lag));
    var (slow, lock, hit) := (Number(r.slowRate), Number(r.lockRate), Number(r.poolHit));
    Check(!Flag(r.up), Anomaly(s, ts, "MYSQL_DOWN", "CRITICAL", 0.0, 1.0, Metric(i, "up")))
    + Check(conn > t.mysqlConnection,
            Anomaly(s, ts, if conn > 95.0 then "MYSQL_CONNECTION_CRITICAL" else "MYSQL_CONNECTION_HIGH",
                    Severity(conn > 95.0), conn, t.mysqlConnection, Metric(i, "connection_used_percent")))
    + Check(lag > t.mysqlLag,
            Anomaly(s, ts, "MYSQL_REPLICATION_LAG", Severity(lag > t.mysqlLag * 2.0), lag, t.mysqlLag,
                    Metric(i, "replication_lag_seconds")))
    + Check(slow > t.mysqlSlow,
            Anomaly(s, ts, "MYSQL_SLOW_QUERY_SPIKE", Severity(slow > t.mysqlSlow * 5.0), slow, t.mysqlSlow,
                    Metric(i, "slow_queries_rate")))
    + Check(lock > t.mysqlLock,
            Anomaly(s, ts, "MYSQL_LOCK_WAIT_SPIKE", Severity(lock > t.mysqlLock * 5.0), lock, t.mysqlLock,
                    Metric(i, "innodb_row_lock_waits_rate")))
    + Check(hit > 0.0 && hit < t.mysqlPoolHit,
            Anomaly(s, ts, "MYSQL_BUFFER_POOL_LOW", Severity(hit < 90.0), hit, t.mysqlPoolHit,
                    Metric(i, "innodb_buffer_pool_hit_percent")))
  }

  function RedisAnomalies(t: Thresholds, r: RedisRow): seq<Anomaly> {
    var (s, ts, i) := (r.meta.server, r.meta.timestamp, r.instance);
    var (conn, mem, hit) := (Number(r.connectionUsed), Number(r.memoryUsed), Number(r.hitRate));
    var (lag, rejected, slowlog) := (Number(r.lag), Number(r.rejected), Number(r.slowlogGrowth));
    Check(!Flag(r.up), Anomaly(s, ts, "REDIS_DOWN", "CRITICAL", 0.0, 1.0, Metric(i, "up")))
    + Check(conn > t.redisConnection,
            Anomaly(s, ts, if conn > 95.0 then "REDIS_CONNECTION_CRITICAL" else "REDIS_CONNECTION_HIGH",
                    Severity(conn > 95.0), conn, t.redisConnection, Metric(i, "connection_used_percent")))
    + Check(mem > t.redisMemory,
            Anomaly(s, ts, if mem > 95.0 then "REDIS_MEMORY_CRITICAL" else "REDIS_MEMORY_HIGH",
                    Severity(mem > 95.0), mem, t.redisMemory, Metric(i, "memory_used_percent")))
    + Check(hit > 0.0 && hit < t.redisHitRate,
            Anomaly(s, ts, "REDIS_HIT_RATE_LOW", Severity(hit < 60.0), hit, t.redisHitRate,
                    Metric(i, "keyspace_hit_percent")))
    + Check(Flag(r.replicationConfigured) && !Flag(r.masterLinkUp),
            Anomaly(s, ts, "REDIS_REPLICATION_LINK_DOWN", "CRITICAL", 0.0, 1.0, Metric(i, "master_link_up")))
    + Check(lag > t.redisLag,
            Anomaly(s, ts, "REDIS_REPLICATION_LAG", Severity(lag > t.redisLag * 2.0), lag, t.redisLag,
                    Metric(i, "master_last_io_seconds_ago")))
    + Check(rejected > 0.0,
            Anomaly(s, ts, "REDIS_REJECTED_CONNECTIONS", "WARNING", rejected, 0.0, Metric(i, "rejected_connections")))
    + Check(slowlog > t.redisSlowlog,
            Anomaly(s, ts, "REDIS_SLOWLOG_GROWTH", Severity(slowlog > t.redisSlowlog * 5.0), slowlog,
                    t.redisSlowlog, Metric(i, "slowlog_growth")))
  }

  // ------------------------------------------- what the prefilter lets through

  /** A NULL cell, read as zero, that exceeds a negative threshold, while SQL does not see it do so. */
  predicate NullExceeds(column: Option<real>, bound: real) { column.None? && bound < 0.0 }

  /** A performance row the prefilter cannot judge. */
  predicate PerfBlind(t: Thresholds, r: PerfRow) {
    || NullExceeds(r.cpu, t.cpu) || NullExceeds(r.mem, t.memory) || NullExceeds(r.disk, t.disk)
    || NullExceeds(r.cpuRate, t.changeRate) || NullExceeds(r.memRate, t.changeRate)
  }

  /** A performance row is anomalous exactly when it is fetched or blind. */
  lemma PerfFetchedIff(t: Thresholds, r: PerfRow)
    ensures PerfAnomalies(t, r) != [] <==> PerfFetched(t, r) || PerfBlind(t, r)
  {
  }

  /** A MySQL row the prefilter cannot judge: its state is NULL, it lags without being marked as
      replicating, or a NULL cell exceeds a negative threshold. */
  predicate MysqlBlind(t: Thresholds, r: MysqlRow) {
    || r.up.None?
    || (Number(r.lag) > t.mysqlLag && (r.replicationConfigured != Some(true) || r.lag.None?))
    || NullExceeds(r.connectionUsed, t.mysqlConnection)
    || NullExceeds(r.slowRate, t.mysqlSlow) || NullExceeds(r.lockRate, t.mysqlLock)
  }

  /** A MySQL row is anomalous exactly when it is fetched or blind; a fetched one always is. */
  lemma MysqlFetchedIff(t: Thresholds, r: MysqlRow)
    ensures MysqlAnomalies(t, r) != [] <==> MysqlFetched(t, r) || MysqlBlind(t, r)
  {
    MysqlWhereMeans(t, r);
    MysqlChecksMean(t, r);
    hide MysqlFetched;
    hide MysqlAnomalies;
  }

  lemma MysqlWhereMeans(t: Thresholds, r: MysqlRow)
    ensures MysqlFetched(t, r) <==>
            r.up == Some(false) || Greater(r.connectionUsed, t.mysqlConnection) == Some(true) ||
            (r.replicationConfigured == Some(true) && Greater(r.lag, t.mysqlLag) == Some(true)) ||
            Greater(r.slowRate, t.mysqlSlow) == Some(true) || Greater(r.lockRate, t.mysqlLock) == Some(true) ||
            (r.poolHit.Some? && 0.0 < r.poolHit.value < t.mysqlPoolHit)
  {
  }

  lemma MysqlChecksMean(t: Thresholds, r: MysqlRow)
    ensures MysqlAnomalies(t, r) != [] <==>
            !Flag(r.up) || Number(r.connectionUsed) > t.mysqlConnection || Number(r.lag) > t.mysqlLag ||
            Number(r.slowRate) > t.mysqlSlow || Number(r.lockRate) > t.mysqlLock ||
            0.0 < Number(r.poolHit) < t.mysqlPoolHit
  {
    hide Metric;
    hide Severity;
  }

  /** A Redis row the prefilter cannot judge: its state, or the state of its master link, is NULL, or a
      NULL cell exceeds a negative threshold. */
  predicate RedisBlind(t: Thresholds, r: RedisRow) {
    || r.up.None? || (r.replicationConfigured == Some(true) && r.masterLinkUp.None?)
    || NullExceeds(r.connectionUsed, t.redisConnection) || NullExceeds(r.memoryUsed, t.redisMemory)
    || NullExceeds(r.lag, t.redisLag) || NullExceeds(r.slowlogGrowth, t.redisSlowlog)
  }

  /** A Redis row is anomalous exactly when it is fetched or blind. */
  lemma RedisFetchedIff(t: Thresholds, r: RedisRow)
    ensures RedisAnomalies(t, r) != [] <==> RedisFetched(t, r) || RedisBlind(t, r)
  {
    RedisWhereMeans(t, r);
    RedisChecksMean(t, r);
    hide RedisFetched;
    hide RedisAnomalies;
  }

  lemma RedisWhereMeans(t: Thresholds, r: RedisRow)
    ensures RedisFetched(t, r) <==>
            r.up == Some(false) || Greater(r.connectionUsed, t.redisConnection) == Some(true) ||
            Greater(r.memoryUsed, t.redisMemory) == Some(true) ||
            (r.hitRate.Some? && 0.0 < r.hitRate.value < t.redisHitRate) ||
            (r.replicationConfigured == Some(true) && r.masterLinkUp == Some(false)) ||
            Greater(r.lag, t.redisLag) == Some(true) || Greater(r.rejected, 0.0) == Some(true) ||
            Greater(r.slowlogGrowth, t.redisSlowlog) == Some(true)
  {
  }

  lemma RedisChecksMean(t: Thresholds, r: RedisRow)
    ensures RedisAnomalies(t, r) != [] <==>
            !Flag(r.up) || Number(r.connectionUsed) > t.redisConnection || Number(r.memoryUsed) > t.redisMemory ||
            0.0 < Number(r.hitRate) < t.redisHitRate ||
            (Flag(r.replicationConfigured) && !Flag(r.masterLinkUp)) || Number(r.lag) > t.redisLag ||
            Number(r.rejected) > 0.0 || Number(r.slowlogGrowth) > t.redisSlowlog
  {
    hide Metric;
    hide Severity;
  }

  // ------------------------------------------------------------ the whole query

  function FlatMap<T, U>(f: T -> seq<U>, s: seq<T>): seq<U> {
    if s == [] then [] else f(s[0]) + FlatMap(f, s[1..])
  }

  lemma {:induction false} FlatMapAppend<T, U>(f: T -> seq<U>, a: seq<T>, b: seq<T>)
    ensures FlatMap(f, a + b) == FlatMap(f, a) + FlatMap(f, b)
  {
    if a == [] {
      assert a + b == b;
    } else {
      assert (a + b)[0] == a[0] && (a + b)[1..] == a[1..] + b;
      FlatMapAppend(f, a[1..], b);
      assert f(a[0]) + (FlatMap(f, a[1..]) + FlatMap(f, b)) == (f(a[0]) + FlatMap(f, a[1..])) + FlatMap(f, b);
    }
  }

  /** Filtering before a classifier loses nothing exactly when every row filtered out yields nothing. */
  lemma {:induction false} PrefilterExactIff<T, U>(p: T -> bool, f: T -> seq<U>, s: seq<T>)
    ensures |FlatMap(f, Filter(p, s))| <= |FlatMap(f, s)|
    ensures |FlatMap(f, Filter(p, s))| == |FlatMap(f, s)| ==> FlatMap(f, Filter(p, s)) == FlatMap(f, s)
    ensures FlatMap(f, Filter(p, s)) == FlatMap(f, s) <==> forall x | x in s :: p(x) || f(x) == []
  {
    if s != [] {
      assert s == [s[0]] + s[1..];
      PrefilterExactIff(p, f, s[1..]);
      if p(s[0]) {
        var tail := Filter(p, s[1..]);
        assert Filter(p, s) == [s[0]] + tail && ([s[0]] + tail)[1..] == tail;
        if FlatMap(f, Filter(p, s)) == FlatMap(f, s) {
          assert FlatMap(f, Filter(p, s))[|f(s[0])|..] == FlatMap(f, tail);
          assert FlatMap(f, s)[|f(s[0])|..] == FlatMap(f, s[1..]);
        }
      } else {
        assert Filter(p, s) == Filter(p, s[1..]);
      }
    }
  }

  function PerfWhere(q: Query, t: Thresholds): PerfRow -> bool {
    (r: PerfRow) => InQuery(q, r.meta) && PerfFetched(t, r)
  }
  function MysqlWhere(q: Query, t: Thresholds): MysqlRow -> bool {
    (r: MysqlRow) => InQuery(q, r.meta) && MysqlFetched(t, r)
  }
  function RedisWhere(q: Query, t: Thresholds): RedisRow -> bool {
    (r: RedisRow) => InQuery(q, r.meta) && RedisFetched(t, r)
  }

  function PerfIn(q: Query): PerfRow -> bool { (r: PerfRow) => InQuery(q, r.meta) }
  function MysqlIn(q: Query): MysqlRow -> bool { (r: MysqlRow) => InQuery(q, r.meta) }
  function RedisIn(q: Query): RedisRow -> bool { (r: RedisRow) => InQuery(q, r.meta) }

  function PerfCheck(t: Thresholds): PerfRow -> seq<Anomaly> { (r: PerfRow) => PerfAnomalies(t, r) }
  function MysqlCheck(t: Thresholds): MysqlRow -> seq<Anomaly> { (r: MysqlRow) => MysqlAnomalies(t, r) }
  function RedisCheck(t: Thresholds): RedisRow -> seq<Anomaly> { (r: RedisRow) => RedisAnomalies(t, r) }

  /** What each of the three statements contributes. */
  function FromPerf(db: Tables, q: Query, t: Thresholds): seq<Anomaly> {
    FlatMap(PerfCheck(t), Filter(PerfWhere(q, t), db.perf))
  }
  function FromMysql(db: Tables, q: Query, t: Thresholds): seq<Anomaly> {
    FlatMap(MysqlCheck(t), Filter(MysqlWhere(q, t), db.mysql))
  }
  function FromRedis(db: Tables, q: Query, t: Thresholds): seq<Anomaly> {
    FlatMap(RedisCheck(t), Filter(RedisWhere(q, t), db.redis))
  }

  /** What the query collects: the classified rows the three SQL statements fetch. */
  function Collected(db: Tables, q: Query, t: Thresholds): seq<Anomaly> {
    FromPerf(db, q, t) + FromMysql(db, q, t) + FromRedis(db, q, t)
  }

  /** The intended answer: every row in scope and time range, classified. */
  function AllAnomalies(db: Tables, q: Query, t: Thresholds): seq<Anomaly> {
    FlatMap(PerfCheck(t), Filter(PerfIn(q), db.perf))
    + FlatMap(MysqlCheck(t), Filter(MysqlIn(q), db.mysql))
    + FlatMap(RedisCheck(t), Filter(RedisIn(q), db.redis))
  }

  lemma {:induction false} FilterAnd<T>(wide: T -> bool, narrow: T -> bool, keep: T -> bool, s: seq<T>)
    requires forall x | x in s :: narrow(x) <==> wide(x) && keep(x)
    ensures Filter(narrow, s) == Filter(keep, Filter(wide, s))
  {
    if s != [] {
      assert s == [s[0]] + s[1..];
      FilterAnd(wide, narrow, keep, s[1..]);
      FilterAppend(keep, if wide(s[0]) then [s[0]] else [], Filter(wide, s[1..]));
    }
  }

  /** One table: prefiltering keeps all anomalies exactly when no row in the query is anomalous
      without being fetched. */
  lemma TableExactIff<T>(wide: T -> bool, narrow: T -> bool, keep: T -> bool, check: T -> seq<Anomaly>, s: seq<T>)
    requires forall x | x in s :: narrow(x) <==> wide(x) && keep(x)
    ensures |FlatMap(check, Filter(narrow, s))| <= |FlatMap(check, Filter(wide, s))|
    ensures |FlatMap(check, Filter(narrow, s))| == |FlatMap(check, Filter(wide, s))| <==>
            FlatMap(check, Filter(narrow, s)) == FlatMap(check, Filter(wide, s))
    ensures FlatMap(check, Filter(narrow, s)) == FlatMap(check, Filter(wide, s)) <==>
            forall x | x in s && wide(x) :: keep(x) || check(x) == []
  {
    FilterAnd(wide, narrow, keep, s);
    var inside := Filter(wide, s);
    PrefilterExactIff(keep, check, inside);
    forall x | x in s && wide(x) ensures x in inside { FilterMember(wide, s, x); }
    forall x | x in inside ensures x in s && wide(x) { FilterMember(wide, s, x); }
  }

  function PerfKeep(t: Thresholds): PerfRow -> bool { (r: PerfRow) => PerfFetched(t, r) }
  function MysqlKeep(t: Thresholds): MysqlRow -> bool { (r: MysqlRow) => MysqlFetched(t, r) }
  function RedisKeep(t: Thresholds): RedisRow -> bool { (r: RedisRow) => RedisFetched(t, r) }

  /** No row of the query is anomalous in a way the prefilter cannot see. */
  ghost predicate NothingHidden(db: Tables, q: Query, t: Thresholds) {
    && (forall r | r in db.perf && InQuery(q, r.meta) :: PerfBlind(t, r) ==> PerfFetched(t, r))
    && (forall r | r in db.mysql && InQuery(q, r.meta) :: MysqlBlind(t, r) ==> MysqlFetched(t, r))
    && (forall r | r in db.redis && InQuery(q, r.meta) :: RedisBlind(t, r) ==> RedisFetched(t, r))
  }

  lemma PerfExactIff(db: Tables, q: Query, t: Thresholds)
    ensures var got, all := FromPerf(db, q, t), FlatMap(PerfCheck(t), Filter(PerfIn(q), db.perf));
            |got| <= |all| && (|got| == |all| <==> got == all) &&
            (got == all <==> forall r | r in db.perf && InQuery(q, r.meta) :: PerfBlind(t, r) ==> PerfFetched(t, r))
  {
    hide PerfFetched;
    hide PerfAnomalies;
    hide PerfBlind;
    TableExactIff(PerfIn(q), PerfWhere(q, t), PerfKeep(t), PerfCheck(t), db.perf);
    forall r | r in db.perf && InQuery(q, r.meta)
      ensures (PerfKeep(t)(r) || PerfCheck(t)(r) == []) <==> (PerfBlind(t, r) ==> PerfFetched(t, r))
    {
      PerfFetchedIff(t, r);
    }
  }

  lemma MysqlExactIff(db: Tables, q: Query, t: Thresholds)
    ensures var got, all := FromMysql(db, q, t), FlatMap(MysqlCheck(t), Filter(MysqlIn(q), db.mysql));
            |got| <= |all| && (|got| == |all| <==> got == all) &&
            (got == all <==> forall r | r in db.mysql && InQuery(q, r.meta) :: MysqlBlind(t, r) ==> MysqlFetched(t, r))
  {
    hide MysqlFetched;
    hide MysqlAnomalies;
    hide MysqlBlind;
    TableExactIff(MysqlIn(q), MysqlWhere(q, t), MysqlKeep(t), MysqlCheck(t), db.mysql);
    forall r | r in db.mysql && InQuery(q, r.meta)
      ensures (MysqlKeep(t)(r) || MysqlCheck(t)(r) == []) <==> (MysqlBlind(t, r) ==> MysqlFetched(t, r))
    {
      MysqlFetchedIff(t, r);
    }
  }

  lemma RedisExactIff(db: Tables, q: Query, t: Thresholds)
    ensures var got, all := FromRedis(db, q, t), FlatMap(RedisCheck(t), Filter(RedisIn(q), db.redis));
            |got| <= |all| && (|got| == |all| <==> got == all) &&
            (got == all <==> forall r | r in db.redis && InQuery(q, r.meta) :: RedisBlind(t, r) ==> RedisFetched(t, r))
  {
    hide RedisFetched;
    hide RedisAnomalies;
    hide RedisBlind;
    TableExactIff(RedisIn(q), RedisWhere(q, t), RedisKeep(t), RedisCheck(t), db.redis);
    forall r | r in db.redis && InQuery(q, r.meta)
      ensures (RedisKeep(t)(r) || RedisCheck(t)(r) == []) <==> (RedisBlind(t, r) ==> RedisFetched(t, r))
    {
      RedisFetchedIff(t, r);
    }
  }

  /** For every table, query and threshold: the query collects exactly the anomalies of all rows in
      scope and range if and only if no such row is blind without being fetched for another reason. */
  lemma PrefilterChangesNothingIff(db: Tables, q: Query, t: Thresholds)
    ensures Collected(db, q, t) == AllAnomalies(db, q, t) <==> NothingHidden(db, q, t)
  {
    hide FromPerf; hide FromMysql; hide FromRedis; hide FlatMap; hide Filter; hide InQuery;
    hide PerfFetched; hide MysqlFetched; hide RedisFetched;
    hide PerfBlind; hide MysqlBlind; hide RedisBlind;
    hide PerfCheck; hide MysqlCheck; hide RedisCheck;
    PerfExactIff(db, q, t);
    MysqlExactIff(db, q, t);
    RedisExactIff(db, q, t);
    ConcatSameIff(FromPerf(db, q, t), FromMysql(db, q, t), FromRedis(db, q, t),
                  FlatMap(PerfCheck(t), Filter(PerfIn(q), db.perf)),
                  FlatMap(MysqlCheck(t), Filter(MysqlIn(q), db.mysql)),
                  FlatMap(RedisCheck(t), Filter(RedisIn(q), db.redis)));
  }

  /** Three parts that are never longer make up the same whole only if each is the same. */
  lemma ConcatSameIff<T>(a: seq<T>, b: seq<T>, c: seq<T>, x: seq<T>, y: seq<T>, z: seq<T>)
    requires |a| <= |x| && |b| <= |y| && |c| <= |z|
    requires (|a| == |x| <==> a == x) && (|b| == |y| <==> b == y) && (|c| == |z| <==> c == z)
    ensures a + b + c == x + y + z <==> a == x && b == y && c == z
  {
    if a + b + c == x + y + z { assert |a| + |b| + |c| == |x| + |y| + |z|; }
  }

  /** What the worker promises of its rows: flags are present, and a server that is not configured as
      a replica reports no lag. */
  predicate FromWorker(db: Tables) {
    && (forall r | r in db.mysql :: r.up.Some? && (r.replicationConfigured != Some(true) ==> Number(r.lag) == 0.0))
    && (forall r | r in db.redis :: r.up.Some? && r.masterLinkUp.Some?)
  }

  /** With the service's thresholds and rows written by the worker the prefilter changes nothing. */
  lemma PrefilterIsExact(db: Tables, q: Query, requested: Thresholds)
    requires FromWorker(db)
    ensures var t := ServiceThresholds(requested);
            Collected(db, q, t) == AllAnomalies(db, q, t)
  {
    var t := ServiceThresholds(requested);
    ServiceThresholdsNonNegative(requested);
    PrefilterChangesNothingIff(db, q, t);
    hide Collected;
    hide AllAnomalies;
    hide MysqlFetched;
    hide RedisFetched;
    hide ServiceThresholds;
    assert forall r | r in db.perf :: !PerfBlind(t, r);
    assert forall r | r in db.mysql :: !MysqlBlind(t, r);
    assert forall r | r in db.redis :: !RedisBlind(t, r);
  }

  // ------------------------------------------------------------------- method

  /** Refused before any statement; broken off by a failing statement, with what was collected until
      then, unsorted; or an answer. */
  datatype Outcome = Refused(error: string)
                   | BrokenOff(records: seq<Anomaly>)
                   | Answer(total: nat, records: seq<Anomaly>)

  /** Whether a connection was leased and the three statements succeeded. */
  datatype Database = Database(connected: bool, perfOk: bool, mysqlOk: bool, redisOk: bool)

  function Stamp(): Anomaly -> int { (a: Anomaly) => a.timestamp }

  /** `queryAnomalyRecords`; `sorted` is the order the sort produced. */
  method QueryAnomalyRecords(db: Tables, io: Database, q: Query, t: Thresholds, page: int, pageSize: int)
    returns (out: Outcome, ghost sorted: seq<Anomaly>)
    ensures out.Refused? <==> !io.connected || q.tenant == "" || q.team == "" || q.start > q.end
    ensures out.Answer? <==> !out.Refused? && io.perfOk && io.mysqlOk && io.redisOk
    ensures out.BrokenOff? ==>
              out.records == if !io.perfOk then []
                             else if !io.mysqlOk then FromPerf(db, q, t)
                             else FromPerf(db, q, t) + FromMysql(db, q, t)
    ensures out.Answer? ==>
              multiset(sorted) == multiset(Collected(db, q, t)) && Descending(Stamp(), sorted) &&
              out.total == |sorted| &&
              out.records == Page(sorted, if page < 1 then 1 else page, if pageSize < 1 then 100 else pageSize)
  {
    sorted := [];
    if !io.connected { return Refused("no connection"), []; }
    if q.tenant == "" || q.team == "" { return Refused("Missing query tenant or team scope"), []; }
    if q.start > q.end { return Refused("Invalid time range: start_time > end_time"), []; }
    hide PerfWhere; hide MysqlWhere; hide RedisWhere;
    hide PerfCheck; hide MysqlCheck; hide RedisCheck;
    if !io.perfOk { return BrokenOff([]), []; }
    var records := Classify(PerfCheck(t), Filter(PerfWhere(q, t), db.perf));
    if !io.mysqlOk { return BrokenOff(records), []; }
    var fromMysql := Classify(MysqlCheck(t), Filter(MysqlWhere(q, t), db.mysql));
    records := records + fromMysql;
    if !io.redisOk { return BrokenOff(records), []; }
    var fromRedis := Classify(RedisCheck(t), Filter(RedisWhere(q, t), db.redis));
    records := records + fromRedis;
    var ordered := SortDescending(Stamp(), records);
    sorted := ordered;
    var pageNo, size := if page < 1 then 1 else page, if pageSize < 1 then 100 else pageSize;
    SameCount(ordered, records);
    out := Answer(|ordered|, Page(ordered, pageNo, size));
  }

  lemma SameCount<T>(a: seq<T>, b: seq<T>)
    requires multiset(a) == multiset(b)
    ensures |a| == |b|
  {
    assert |multiset(a)| == |a| && |multiset(b)| == |b|;
  }

  /** The loop over fetched rows, pushing each row's anomalies. */
  method Classify<T>(check: T -> seq<Anomaly>, rows: seq<T>) returns (records: seq<Anomaly>)
    ensures records == FlatMap(check, rows)
  {
    records := [];
    var i := 0;
    while i < |rows|
      invariant 0 <= i <= |rows|
      invariant records == FlatMap(check, rows[..i])
    {
      assert rows[..i + 1] == rows[..i] + [rows[i]];
      FlatMapAppend(check, rows[..i], [rows[i]]);
      assert FlatMap(check, [rows[i]]) == check(rows[i]) + [];
      records := records + check(rows[i]);
      i := i + 1;
    }
    assert rows[..|rows|] == rows;
  }

  // ---------------------------------------------------------- in the source's words

  /** A row of the tenant and team that is asked for, and of the cluster and server if they are, with a
      time stamp from start to end. */
  predicate AskedFor(q: Query, tenant: string, team: string, cluster: string, server: string, timestamp: int) {
    tenant == q.tenant && team == q.team && (q.cluster == "" || q.cluster == cluster) &&
    (q.server == "" || q.server == server) && q.start <= timestamp && timestamp <= q.end
  }

  lemma InQueryMeans(q: Query, m: Meta)
    ensures InQuery(q, m) <==> AskedFor(q, m.tenant, m.team, m.cluster, m.server, m.timestamp)
  {
  }

  /** A row anywhere in a table contributes its own anomalies if it is asked for and fetched, and nothing
      otherwise: rows of other tenants, teams, clusters, servers and times never show. */
  lemma RowContributes<T>(where: T -> bool, check: T -> seq<Anomaly>, a: seq<T>, r: T, b: seq<T>)
    ensures FlatMap(check, Filter(where, a + [r] + b)) ==
            FlatMap(check, Filter(where, a)) + (if where(r) then check(r) else []) + FlatMap(check, Filter(where, b))
  {
    FilterAppend(where, a + [r], b);
    FilterAppend(where, a, [r]);
    var x, y, z := Filter(where, a), Filter(where, [r]), Filter(where, b);
    assert y == if where(r) then [r] else [];
    FlatMapAppend(check, x + y, z);
    FlatMapAppend(check, x, y);
    assert FlatMap(check, [r]) == check(r) + [];
  }

  lemma PerfRowContributes(db: Tables, q: Query, t: Thresholds, a: seq<PerfRow>, r: PerfRow, b: seq<PerfRow>)
    ensures var m := r.meta;
            FromPerf(db.(perf := a + [r] + b), q, t) ==
            FromPerf(db.(perf := a), q, t) +
            (if AskedFor(q, m.tenant, m.team, m.cluster, m.server, m.timestamp) && PerfFetched(t, r)
             then PerfAnomalies(t, r) else []) + FromPerf(db.(perf := b), q, t)
  {
    hide PerfAnomalies;
    hide PerfFetched;
    InQueryMeans(q, r.meta);
    RowContributes(PerfWhere(q, t), PerfCheck(t), a, r, b);
  }

  lemma MysqlRowContributes(db: Tables, q: Query, t: Thresholds, a: seq<MysqlRow>, r: MysqlRow, b: seq<MysqlRow>)
    ensures var m := r.meta;
            FromMysql(db.(mysql := a + [r] + b), q, t) ==
            FromMysql(db.(mysql := a), q, t) +
            (if AskedFor(q, m.tenant, m.team, m.cluster, m.server, m.timestamp) && MysqlFetched(t, r)
             then MysqlAnomalies(t, r) else []) + FromMysql(db.(mysql := b), q, t)
  {
    hide MysqlAnomalies;
    hide MysqlFetched;
    InQueryMeans(q, r.meta);
    RowContributes(MysqlWhere(q, t), MysqlCheck(t), a, r, b);
  }

  lemma RedisRowContributes(db: Tables, q: Query, t: Thresholds, a: seq<RedisRow>, r: RedisRow, b: seq<RedisRow>)
    ensures var m := r.meta;
            FromRedis(db.(redis := a + [r] + b), q, t) ==
            FromRedis(db.(redis := a), q, t) +
            (if AskedFor(q, m.tenant, m.team, m.cluster, m.server, m.timestamp) && RedisFetched(t, r)
             then RedisAnomalies(t, r) else []) + FromRedis(db.(redis := b), q, t)
  {
    hide RedisAnomalies;
    hide RedisFetched;
    InQueryMeans(q, r.meta);
    RowContributes(RedisWhere(q, t), RedisCheck(t), a, r, b);
  }

  function One(condition: bool): nat { if condition then 1 else 0 }

  /** A record of a row: what was measured, what it was held against, and how bad it is. */
  predicate Reports(out: seq<Anomaly>, m: Meta, condition: bool, kind: string, critical: bool, value: real,
                    threshold: real, metric: string)
  {
    condition ==> Anomaly(m.server, m.timestamp, kind, if critical then "CRITICAL" else "WARNING", value, threshold,
                          metric) in out
  }

  /** A performance row has one record for each value over its threshold, critical over 95, and for each
      rate over its threshold in either direction, critical over one; and no other record. NULL is zero. */
  lemma PerfRecords(t: Thresholds, r: PerfRow)
    ensures var cpu, mem := if r.cpu.Some? then r.cpu.value else 0.0, if r.mem.Some? then r.mem.value else 0.0;
            var disk := if r.disk.Some? then r.disk.value else 0.0;
            var cpuRate := if r.cpuRate.Some? then r.cpuRate.value else 0.0;
            var memRate := if r.memRate.Some? then r.memRate.value else 0.0;
            var cpuSpike := cpuRate > t.changeRate || -cpuRate > t.changeRate;
            var memSpike := memRate > t.changeRate || -memRate > t.changeRate;
            var out, m := PerfAnomalies(t, r), r.meta;
            |out| == One(cpu > t.cpu) + One(mem > t.memory) + One(disk > t.disk) + One(cpuSpike) + One(memSpike) &&
            Reports(out, m, cpu > t.cpu, "CPU_HIGH", cpu > 95.0, cpu, t.cpu, "cpu_percent") &&
            Reports(out, m, mem > t.memory, "MEM_HIGH", mem > 95.0, mem, t.memory, "mem_used_percent") &&
            Reports(out, m, disk > t.disk, "DISK_HIGH", disk > 95.0, disk, t.disk, "disk_util_percent") &&
            Reports(out, m, cpuSpike, "RATE_SPIKE", cpuRate > 1.0 || cpuRate < -1.0, cpuRate, t.changeRate,
                    "cpu_percent_rate") &&
            Reports(out, m, memSpike, "RATE_SPIKE", memRate > 1.0 || memRate < -1.0, memRate, t.changeRate,
                    "mem_used_percent_rate")
  {
  }

  /** The metric of an instance carries its name. */
  function Named(instance: string, metric: string): string {
    if instance == "" then metric else instance + "." + metric
  }

  /** A MySQL row has one record if the server is not up, and one for each of connections, lag, slow
      queries and lock waits over its threshold and a buffer pool hit rate under it; and no other. */
  lemma MysqlRecords(t: Thresholds, r: MysqlRow)
    ensures var conn := if r.connectionUsed.Some? then r.connectionUsed.value else 0.0;
            var lag := if r.lag.Some? then r.lag.value else 0.0;
            var slow := if r.slowRate.Some? then r.slowRate.value else 0.0;
            var lock := if r.lockRate.Some? then r.lockRate.value else 0.0;
            var hit := if r.poolHit.Some? then r.poolHit.value else 0.0;
            var down, poor := r.up != Some(true), 0.0 < hit && hit < t.mysqlPoolHit;
            var out, m, i := MysqlAnomalies(t, r), r.meta, r.instance;
            |out| == One(down) + One(conn > t.mysqlConnection) + One(lag > t.mysqlLag) + One(slow > t.mysqlSlow) +
                     One(lock > t.mysqlLock) + One(poor) &&
            Reports(out, m, down, "MYSQL_DOWN", true, 0.0, 1.0, Named(i, "up")) &&
            Reports(out, m, conn > t.mysqlConnection,
                    if conn > 95.0 then "MYSQL_CONNECTION_CRITICAL" else "MYSQL_CONNECTION_HIGH", conn > 95.0, conn,
                    t.mysqlConnection, Named(i, "connection_used_percent")) &&
            Reports(out, m, lag > t.mysqlLag, "MYSQL_REPLICATION_LAG", lag > t.mysqlLag * 2.0, lag, t.mysqlLag,
                    Named(i, "replication_lag_seconds")) &&
            Reports(out, m, slow > t.mysqlSlow, "MYSQL_SLOW_QUERY_SPIKE", slow > t.mysqlSlow * 5.0, slow, t.mysqlSlow,
                    Named(i, "slow_queries_rate")) &&
            Reports(out, m, lock > t.mysqlLock, "MYSQL_LOCK_WAIT_SPIKE", lock > t.mysqlLock * 5.0, lock, t.mysqlLock,
                    Named(i, "innodb_row_lock_waits_rate")) &&
            Reports(out, m, poor, "MYSQL_BUFFER_POOL_LOW", hit < 90.0, hit, t.mysqlPoolHit,
                    Named(i, "innodb_buffer_pool_hit_percent"))
  {
  }

  /** A Redis row has one record if the server is not up, one if it is a replica whose master link is not
      up, one for each of connections, memory, lag and slow log growth over its threshold, one for any
      rejected connections, and one for a hit rate under its threshold; and no other. */
  lemma RedisTally(t: Thresholds, r: RedisRow)
    ensures var conn := if r.connectionUsed.Some? then r.connectionUsed.value else 0.0;
            var mem := if r.memoryUsed.Some? then r.memoryUsed.value else 0.0;
            var hit := if r.hitRate.Some? then r.hitRate.value else 0.0;
            var down, poor := r.up != Some(true), 0.0 < hit && hit < t.redisHitRate;
            var lag := if r.lag.Some? then r.lag.value else 0.0;
            var rejected := if r.rejected.Some? then r.rejected.value else 0.0;
            var slow := if r.slowlogGrowth.Some? then r.slowlogGrowth.value else 0.0;
            var unlinked := r.replicationConfigured == Some(true) && r.masterLinkUp != Some(true);
            |RedisAnomalies(t, r)| ==
            One(down) + One(conn > t.redisConnection) + One(mem > t.redisMemory) + One(poor) + One(unlinked) +
            One(lag > t.redisLag) + One(rejected > 0.0) + One(slow > t.redisSlowlog)
  {
    hide Metric;
    hide Severity;
    hide Check;
  }

  /** The records about the server itself. */
  lemma RedisServerRecords(t: Thresholds, r: RedisRow)
    ensures var conn := if r.connectionUsed.Some? then r.connectionUsed.value else 0.0;
            var mem := if r.memoryUsed.Some? then r.memoryUsed.value else 0.0;
            var hit := if r.hitRate.Some? then r.hitRate.value else 0.0;
            var down, poor := r.up != Some(true), 0.0 < hit && hit < t.redisHitRate;
            var out, m, i := RedisAnomalies(t, r), r.meta, r.instance;
            Reports(out, m, down, "REDIS_DOWN", true, 0.0, 1.0, Named(i, "up")) &&
            Reports(out, m, conn > t.redisConnection,
                    if conn > 95.0 then "REDIS_CONNECTION_CRITICAL" else "REDIS_CONNECTION_HIGH", conn > 95.0, conn,
                    t.redisConnection, Named(i, "connection_used_percent")) &&
            Reports(out, m, mem > t.redisMemory, if mem > 95.0 then "REDIS_MEMORY_CRITICAL" else "REDIS_MEMORY_HIGH",
                    mem > 95.0, mem, t.redisMemory, Named(i, "memory_used_percent")) &&
            Reports(out, m, poor, "REDIS_HIT_RATE_LOW", hit < 60.0, hit, t.redisHitRate,
                    Named(i, "keyspace_hit_percent"))
  {
  }

  /** The records about its master, its clients and its slow log. */
  lemma RedisLinkRecords(t: Thresholds, r: RedisRow)
    ensures var lag := if r.lag.Some? then r.lag.value else 0.0;
            var rejected := if r.rejected.Some? then r.rejected.value else 0.0;
            var slow := if r.slowlogGrowth.Some? then r.slowlogGrowth.value else 0.0;
            var unlinked := r.replicationConfigured == Some(true) && r.masterLinkUp != Some(true);
            var out, m, i := RedisAnomalies(t, r), r.meta, r.instance;
            Reports(out, m, unlinked, "REDIS_REPLICATION_LINK_DOWN", true, 0.0, 1.0, Named(i, "master_link_up")) &&
            Reports(out, m, lag > t.redisLag, "REDIS_REPLICATION_LAG", lag > t.redisLag * 2.0, lag, t.redisLag,
                    Named(i, "master_last_io_seconds_ago")) &&
            Reports(out, m, rejected > 0.0, "REDIS_REJECTED_CONNECTIONS", false, rejected, 0.0,
                    Named(i, "rejected_connections")) &&
            Reports(out, m, slow > t.redisSlowlog, "REDIS_SLOWLOG_GROWTH", slow > t.redisSlowlog * 5.0, slow,
                    t.redisSlowlog, Named(i, "slowlog_growth"))
  {
  }

  /** `given` if it is positive, else `default`. */
  predicate Chosen(chosen: real, given: real, default: real) {
    (given > 0.0 ==> chosen == given) && (given <= 0.0 ==> chosen == default)
  }

  /** Each threshold is the requested one if that is positive, else the service's own. */
  lemma ServiceThresholdsAre(t: Thresholds)
    ensures var s := ServiceThresholds(t);
            Chosen(s.cpu, t.cpu, 80.0) && Chosen(s.memory, t.memory, 90.0) && Chosen(s.disk, t.disk, 85.0) &&
            Chosen(s.changeRate, t.changeRate, 0.5) && Chosen(s.mysqlConnection, t.mysqlConnection, 90.0) &&
            Chosen(s.mysqlLag, t.mysqlLag, 30.0) && Chosen(s.mysqlSlow, t.mysqlSlow, 1.0) &&
            Chosen(s.mysqlLock, t.mysqlLock, 1.0) && Chosen(s.mysqlPoolHit, t.mysqlPoolHit, 95.0) &&
            Chosen(s.redisConnection, t.redisConnection, 90.0) && Chosen(s.redisMemory, t.redisMemory, 90.0) &&
            Chosen(s.redisHitRate, t.redisHitRate, 80.0) && Chosen(s.redisLag, t.redisLag, 30.0) &&
            Chosen(s.redisSlowlog, t.redisSlowlog, 1.0)
  {
  }
}
