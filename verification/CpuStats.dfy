/** CPU percentages of the worker (`worker/src/monitor/CpuStatMonitor.cpp`): per-core shares from
    counter deltas, the "all" aggregate, and the cache of previous samples. Counters are naturals and
    percentages reals. */
module CpuStats {
  import opened Options

  datatype Totals = Totals(user: nat, nice: nat, system: nat, idle: nat, iowait: nat,
                           irq: nat, softirq: nat, steal: nat)

  datatype Sample = Sample(name: string, totals: Totals)

  datatype Row = Row(name: string, cpu: real, usr: real, system: real, nice: real, idle: real,
                     iowait: real, irq: real, softirq: real)

  const ZERO := Totals(0, 0, 0, 0, 0, 0, 0, 0)

  /** The mapped device holds room for this many CPUs. */
  const MAX_CPUS := 128

  function Plus(a: Totals, b: Totals): Totals {
    Totals(a.user + b.user, a.nice + b.nice, a.system + b.system, a.idle + b.idle,
           a.iowait + b.iowait, a.irq + b.irq, a.softirq + b.softirq, a.steal + b.steal)
  }

  function TotalTime(t: Totals): nat {
    t.user + t.nice + t.system + t.idle + t.iowait + t.irq + t.softirq + t.steal
  }

  function BusyTime(t: Totals): nat {
    t.user + t.nice + t.system + t.irq + t.softirq + t.steal
  }

  function Share(curr: int, prev: int, delta: int): real
    requires delta > 0
  {
    (curr - prev) as real / delta as real * 100.0
  }

  /** `setCpuStatPercentages`: no row when the total did not grow. */
  function Percentages(name: string, curr: Totals, prev: Totals): Option<Row> {
    var delta := TotalTime(curr) - TotalTime(prev);
    if delta <= 0 then None
    else Some(Row(name,
                  Share(BusyTime(curr), BusyTime(prev), delta),
                  Share(curr.user, prev.user, delta),
                  Share(curr.system, prev.system, delta),
                  Share(curr.nice, prev.nice, delta),
                  Share(curr.idle, prev.idle, delta),
                  Share(curr.iowait, prev.iowait, delta),
                  Share(curr.irq, prev.irq, delta),
                  Share(curr.softirq, prev.softirq, delta)))
  }

  /** What the loop over the CPUs carries: rows so far, the two sums, whether any CPU had an earlier
      sample, and the cache. */
  datatype Progress = Progress(rows: seq<Row>, curr: Totals, prev: Totals, based: bool,
                               cache: map<string, Totals>)

  function Advance(p: Progress, s: Sample): Progress {
    var cache := p.cache[s.name := s.totals];
    if s.name !in p.cache then p.(cache := cache)
    else
      var prev := p.cache[s.name];
      var row := Percentages(s.name, s.totals, prev);
      Progress(p.rows + (if row.Some? then [row.value] else []),
               Plus(p.curr, s.totals), Plus(p.prev, prev), true, cache)
  }

  function AdvanceAll(p: Progress, samples: seq<Sample>): Progress {
    if samples == [] then p
    else Advance(AdvanceAll(p, samples[..|samples| - 1]), samples[|samples| - 1])
  }

  /** The samples read: up to the first empty name, at most `MAX_CPUS`. */
  function Used(stats: seq<Sample>): (n: nat)
    ensures n <= |stats| && n <= 128
    ensures forall i | 0 <= i < n :: stats[i].name != ""
    ensures n < |stats| && n < 128 ==> stats[n].name == ""
  {
    UsedFrom(stats, 0)
  }

  function UsedFrom(stats: seq<Sample>, i: nat): (n: nat)
    requires i <= |stats| && i <= MAX_CPUS && forall k | 0 <= k < i :: stats[k].name != ""
    ensures n <= |stats| && n <= MAX_CPUS
    ensures forall k | 0 <= k < n :: stats[k].name != ""
    ensures n < |stats| && n < MAX_CPUS ==> stats[n].name == ""
    decreases |stats| - i
  {
    if i < |stats| && i < MAX_CPUS && stats[i].name != "" then UsedFrom(stats, i + 1) else i
  }

  function Loop(cache: map<string, Totals>, stats: seq<Sample>): Progress {
    AdvanceAll(Progress([], ZERO, ZERO, false, cache), stats[..Used(stats)])
  }

  /** The row named "all", if any CPU had an earlier sample and the sum grew. */
  function AllRow(p: Progress): Option<Row> {
    if p.based then Percentages("all", p.curr, p.prev) else None
  }

  class CpuStatMonitor {
    var cache: map<string, Totals>

    constructor ()
      ensures cache == map[]
    {
      cache := map[];
    }

    /** `updateOnce` on the samples of the mapped device. */
    method UpdateOnce(stats: seq<Sample>) returns (rows: seq<Row>)
      modifies this
      ensures var p := Loop(old(cache), stats);
              cache == p.cache &&
              rows == p.rows + if AllRow(p).Some? then [AllRow(p).value] else []
    {
      hide Percentages;
      hide Plus;
      hide Used;
      rows := [];
      var curr, prev, based := ZERO, ZERO, false;
      var i := 0;
      ghost var start := Progress([], ZERO, ZERO, false, cache);
      while i < |stats| && i < MAX_CPUS && stats[i].name != ""
        invariant 0 <= i <= |stats| && i <= MAX_CPUS
        invariant forall k | 0 <= k < i :: stats[k].name != ""
        invariant Progress(rows, curr, prev, based, cache) == AdvanceAll(start, stats[..i])
      {
        OneMore(start, stats, i);
        hide AdvanceAll;
        var s := stats[i];
        if s.name in cache {
          var before := cache[s.name];
          var row := Percentages(s.name, s.totals, before);
          if row.Some? { rows := rows + [row.value]; }
          curr, prev, based := Plus(curr, s.totals), Plus(prev, before), true;
        }
        cache := cache[s.name := s.totals];
        i := i + 1;
      }
      UsedIs(stats, i);
      if based {
        var all := Percentages("all", curr, prev);
        if all.Some? { rows := rows + [all.value]; }
      }
    }
  }

  lemma OneMore(p: Progress, stats: seq<Sample>, i: nat)
    requires i < |stats|
    ensures AdvanceAll(p, stats[..i + 1]) == Advance(AdvanceAll(p, stats[..i]), stats[i])
  {
    hide Advance;
    assert stats[..i + 1][..i] == stats[..i];
  }

  lemma UsedIs(stats: seq<Sample>, n: nat)
    requires n <= |stats| && n <= MAX_CPUS && forall k | 0 <= k < n :: stats[k].name != ""
    requires n < |stats| && n < MAX_CPUS ==> stats[n].name == ""
    ensures Used(stats) == n
  {
  }

  // --------------------------------------------------------- shares of one row

  lemma ShareScales(x: int, d: int)
    requires d > 0
    ensures Share(x, 0, d) * d as real == 100.0 * x as real
  {
    var q := x as real / d as real;
    assert q * d as real == x as real;
  }

  lemma ShareBounds(curr: int, prev: int, d: int)
    requires 0 <= curr - prev <= d && d > 0
    ensures 0.0 <= Share(curr, prev, d) <= 100.0
  {
    var x, r := (curr - prev) as real, d as real;
    assert 0.0 <= x / r <= 1.0;
  }

  /** The parts of a whole make up one hundred percent, whatever the counters did. */
  lemma SharesSum(a: int, b: int, c: int, d: int)
    requires d > 0 && a + b + c == d
    ensures Share(a, 0, d) + Share(b, 0, d) + Share(c, 0, d) == 100.0
  {
    var r := d as real;
    var x, y, z := a as real / r, b as real / r, c as real / r;
    DivMul(a as real, r);
    DivMul(b as real, r);
    DivMul(c as real, r);
    assert a as real + b as real + c as real == (a + b + c) as real == r;
    PartsOfWhole(x, y, z, a as real, b as real, c as real, r);
  }

  lemma PartsOfWhole(x: real, y: real, z: real, a: real, b: real, c: real, r: real)
    requires r > 0.0 && x * r == a && y * r == b && z * r == c && a + b + c == r
    ensures x + y + z == 1.0
  {
    var xy := x + y;
    var sum := xy + z;
    AddMul(x, y, xy, r);
    assert xy * r == a + b;
    AddMul(xy, z, sum, r);
    assert sum * r == a + b + c;
    assert sum * r == r;
    Cancel(sum, r);
  }

  lemma AddMul(a: real, b: real, sum: real, r: real)
    requires sum == a + b
    ensures sum * r == a * r + b * r
  {
  }

  lemma DivMul(a: real, r: real)
    requires r != 0.0
    ensures a / r * r == a
  {
  }

  lemma Cancel(a: real, r: real)
    requires r > 0.0 && a * r == r
    ensures a == 1.0
  {
    if a < 1.0 { MulStrict(a, 1.0, r); }
    if a > 1.0 { MulStrict(1.0, a, r); }
  }

  lemma RowSums(name: string, curr: Totals, prev: Totals)
    requires Percentages(name, curr, prev).Some?
    ensures var row := Percentages(name, curr, prev).value;
            row.cpu + row.idle + row.iowait == 100.0
  {
    var d := TotalTime(curr) - TotalTime(prev);
    SharesSum(BusyTime(curr) - BusyTime(prev), curr.idle - prev.idle, curr.iowait - prev.iowait, d);
  }

  /** No counter went back. */
  predicate Grew(curr: Totals, prev: Totals) {
    && curr.user >= prev.user && curr.nice >= prev.nice && curr.system >= prev.system
    && curr.idle >= prev.idle && curr.iowait >= prev.iowait && curr.irq >= prev.irq
    && curr.softirq >= prev.softirq && curr.steal >= prev.steal
  }

  predicate InRange(row: Row) {
    && 0.0 <= row.cpu <= 100.0 && 0.0 <= row.usr <= 100.0 && 0.0 <= row.system <= 100.0
    && 0.0 <= row.nice <= 100.0 && 0.0 <= row.idle <= 100.0 && 0.0 <= row.iowait <= 100.0
    && 0.0 <= row.irq <= 100.0 && 0.0 <= row.softirq <= 100.0
  }

  lemma RowInRange(name: string, curr: Totals, prev: Totals)
    requires Grew(curr, prev) && Percentages(name, curr, prev).Some?
    ensures InRange(Percentages(name, curr, prev).value)
  {
    var d := TotalTime(curr) - TotalTime(prev);
    ShareBounds(BusyTime(curr), BusyTime(prev), d);
    ShareBounds(curr.user, prev.user, d);
    ShareBounds(curr.system, prev.system, d);
    ShareBounds(curr.nice, prev.nice, d);
    ShareBounds(curr.idle, prev.idle, d);
    ShareBounds(curr.iowait, prev.iowait, d);
    ShareBounds(curr.irq, prev.irq, d);
    ShareBounds(curr.softirq, prev.softirq, d);
  }

  // --------------------------------------------------------- the whole update

  /** Distinct names whose counters did not go back since the cached sample. */
  predicate Orderly(cache: map<string, Totals>, samples: seq<Sample>) {
    && (forall i, j | 0 <= i < j < |samples| :: samples[i].name != samples[j].name)
    && (forall s | s in samples && s.name in cache :: Grew(s.totals, cache[s.name]))
  }

  function BusyDelta(p: Progress): int { BusyTime(p.curr) - BusyTime(p.prev) }
  function TotalDelta(p: Progress): int { TotalTime(p.curr) - TotalTime(p.prev) }

  /** The ratio of `busy` to `total`, in percent, lies between `lo` and `hi`. */
  ghost predicate Between(busy: int, total: int, lo: real, hi: real) {
    lo * total as real <= 100.0 * busy as real <= hi * total as real
  }

  ghost predicate Bounded(rows: seq<Row>, lo: real, hi: real) {
    forall k | 0 <= k < |rows| :: lo <= rows[k].cpu <= hi
  }

  /** What holds after the loop over `samples`: every reported row adds up and is in range, the sums
      grew, and the cache holds each name's sample. */
  ghost predicate LoopInv(cache: map<string, Totals>, samples: seq<Sample>, p: Progress) {
    RowsSound(p) && CacheHolds(cache, samples, p.cache)
  }

  ghost predicate RowsSound(p: Progress) {
    && (forall row | row in p.rows :: row.cpu + row.idle + row.iowait == 100.0 && InRange(row))
    && Grew(p.curr, p.prev)
    && (TotalTime(p.curr) > TotalTime(p.prev) ==> p.rows != [])
  }

  predicate Named(samples: seq<Sample>, name: string) {
    exists i | 0 <= i < |samples| :: samples[i].name == name
  }

  /** Each sampled name has its sample, every other name what it had before. */
  ghost predicate CacheHolds(cache: map<string, Totals>, samples: seq<Sample>, now: map<string, Totals>) {
    && (forall name :: name in now <==> name in cache || Named(samples, name))
    && (forall s | s in samples :: now[s.name] == s.totals)
    && (forall name | name in cache && !Named(samples, name) :: now[name] == cache[name])
  }

  lemma {:induction false} LoopKeeps(cache: map<string, Totals>, samples: seq<Sample>)
    requires Orderly(cache, samples)
    ensures LoopInv(cache, samples, AdvanceAll(Progress([], ZERO, ZERO, false, cache), samples))
  {
    if samples != [] {
      var init, s := samples[..|samples| - 1], samples[|samples| - 1];
      assert samples == init + [s];
      assert forall x | x in init :: x in samples;
      assert forall i | 0 <= i < |init| :: init[i] == samples[i];
      LoopKeeps(cache, init);
      var p := AdvanceAll(Progress([], ZERO, ZERO, false, cache), init);
      assert forall i | 0 <= i < |init| :: init[i].name != s.name;
      assert s.name in p.cache <==> s.name in cache;
      AdvanceKeeps(cache, init, p, s);
    }
  }

  lemma AdvanceKeeps(cache: map<string, Totals>, init: seq<Sample>, p: Progress, s: Sample)
    requires LoopInv(cache, init, p) && !Named(init, s.name)
    requires s.name in cache ==> Grew(s.totals, cache[s.name])
    ensures LoopInv(cache, init + [s], Advance(p, s))
  {
    assert s.name in p.cache ==> s.name in cache && p.cache[s.name] == cache[s.name];
    assert Advance(p, s).cache == p.cache[s.name := s.totals];
    CacheAfter(cache, init, p.cache, s);
    hide CacheHolds;
    if s.name in p.cache {
      RowsAfter(p, s);
    } else {
      assert Advance(p, s) == p.(cache := p.cache[s.name := s.totals]);
    }
    hide Advance;
    hide Grew;
  }

  lemma CacheAfter(cache: map<string, Totals>, init: seq<Sample>, now: map<string, Totals>, s: Sample)
    requires CacheHolds(cache, init, now) && !Named(init, s.name)
    ensures CacheHolds(cache, init + [s], now[s.name := s.totals])
  {
    forall name ensures Named(init + [s], name) <==> Named(init, name) || name == s.name {
      NamedSnoc(init, s, name);
    }
    forall x | x in init + [s] ensures now[s.name := s.totals][x.name] == x.totals {
      if x in init { assert Named(init, x.name); }
    }
    hide Named;
  }

  lemma NamedSnoc(init: seq<Sample>, s: Sample, name: string)
    ensures Named(init + [s], name) <==> Named(init, name) || name == s.name
  {
    var all := init + [s];
    assert all[|init|] == s && forall i | 0 <= i < |init| :: all[i] == init[i];
  }

  lemma RowsAfter(p: Progress, s: Sample)
    requires s.name in p.cache && Grew(s.totals, p.cache[s.name]) && RowsSound(p)
    ensures RowsSound(Advance(p, s))
  {
    var row := Percentages(s.name, s.totals, p.cache[s.name]);
    if row.Some? {
      RowSums(s.name, s.totals, p.cache[s.name]);
      RowInRange(s.name, s.totals, p.cache[s.name]);
    }
    hide InRange;
  }

  /** The weighted mean stays between bounds of its terms. */
  lemma {:induction false} LoopBetween(cache: map<string, Totals>, samples: seq<Sample>, lo: real, hi: real)
    requires Orderly(cache, samples)
    requires Bounded(AdvanceAll(Progress([], ZERO, ZERO, false, cache), samples).rows, lo, hi)
    ensures var p := AdvanceAll(Progress([], ZERO, ZERO, false, cache), samples);
            Between(BusyDelta(p), TotalDelta(p), lo, hi)
  {
    if samples != [] {
      hide Between;
      hide Advance;
      hide Bounded;
      hide Grew;
      var init, s := samples[..|samples| - 1], samples[|samples| - 1];
      var p := AdvanceAll(Progress([], ZERO, ZERO, false, cache), init);
      assert AdvanceAll(Progress([], ZERO, ZERO, false, cache), samples) == Advance(p, s);
      OrderlyLast(cache, samples);
      RowsGrow(p, s, lo, hi);
      LoopBetween(cache, init, lo, hi);
      if s.name in p.cache {
        AdvanceBetween(p, s, lo, hi);
      } else {
        NewNameAddsNothing(p, s);
      }
    } else {
      assert lo * 0.0 == 0.0 && hi * 0.0 == 0.0;
    }
  }

  lemma NewNameAddsNothing(p: Progress, s: Sample)
    requires s.name !in p.cache
    ensures BusyDelta(Advance(p, s)) == BusyDelta(p) && TotalDelta(Advance(p, s)) == TotalDelta(p)
  {
  }

  /** The last sample of an orderly list meets the cached sample of its own name. */
  lemma OrderlyLast(cache: map<string, Totals>, samples: seq<Sample>)
    requires Orderly(cache, samples) && samples != []
    ensures var init, s := samples[..|samples| - 1], samples[|samples| - 1];
            var p := AdvanceAll(Progress([], ZERO, ZERO, false, cache), init);
            Orderly(cache, init) && (s.name in p.cache ==> Grew(s.totals, p.cache[s.name]))
  {
    hide Grew;
    hide InRange;
    var init, s := samples[..|samples| - 1], samples[|samples| - 1];
    assert forall x | x in init :: x in samples;
    assert forall i | 0 <= i < |init| :: init[i] == samples[i] && init[i].name != s.name;
    LoopKeeps(cache, init);
    assert s in samples;
  }

  lemma RowsGrow(p: Progress, s: Sample, lo: real, hi: real)
    requires Bounded(Advance(p, s).rows, lo, hi)
    ensures Bounded(p.rows, lo, hi)
  {
    var q := Advance(p, s);
    assert forall k | 0 <= k < |p.rows| :: q.rows[k] == p.rows[k];
  }

  lemma AdvanceBetween(p: Progress, s: Sample, lo: real, hi: real)
    requires s.name in p.cache && Grew(s.totals, p.cache[s.name])
    requires Between(BusyDelta(p), TotalDelta(p), lo, hi) && Bounded(Advance(p, s).rows, lo, hi)
    ensures Between(BusyDelta(Advance(p, s)), TotalDelta(Advance(p, s)), lo, hi)
  {
    hide Between;
    var prev, q := p.cache[s.name], Advance(p, s);
    var b, t := BusyTime(s.totals) - BusyTime(prev), TotalTime(s.totals) - TotalTime(prev);
    assert BusyDelta(q) == BusyDelta(p) + b && TotalDelta(q) == TotalDelta(p) + t;
    if t > 0 { assert q.rows[|p.rows|].cpu == Share(b, 0, t); }
    SumBetween(BusyDelta(p), TotalDelta(p), b, t, lo, hi);
  }

  /** The mediant of two ratios within bounds is within them; an unmoved counter adds nothing. */
  lemma SumBetween(busy: int, total: int, b: int, t: int, lo: real, hi: real)
    requires Between(busy, total, lo, hi) && t >= 0
    requires t == 0 ==> b == 0
    requires t > 0 ==> lo <= Share(b, 0, t) <= hi
    ensures Between(busy + b, total + t, lo, hi)
  {
    if t > 0 {
      ShareScales(b, t);
      MulMono(lo, Share(b, 0, t), t as real);
      MulMono(Share(b, 0, t), hi, t as real);
    }
    MulSplit(lo, total as real, t as real);
    MulSplit(hi, total as real, t as real);
  }

  lemma MulMono(a: real, b: real, c: real)
    requires a <= b && c >= 0.0
    ensures a * c <= b * c
  {
  }

  lemma MulSplit(a: real, b: real, c: real)
    ensures a * (b + c) == a * b + a * c
  {
  }

  lemma {:induction false} Extremes(rows: seq<Row>) returns (i: nat, j: nat)
    requires rows != []
    ensures i < |rows| && j < |rows| && Bounded(rows, rows[i].cpu, rows[j].cpu)
  {
    if |rows| == 1 {
      i, j := 0, 0;
    } else {
      var n := |rows| - 1;
      i, j := Extremes(rows[..n]);
      assert forall k | 0 <= k < n :: rows[..n][k] == rows[k];
      if rows[n].cpu < rows[i].cpu { i := n; }
      if rows[n].cpu > rows[j].cpu { j := n; }
    }
  }

  lemma QuotientBetween(lo: real, hi: real, busy: int, total: int)
    requires total > 0 && Between(busy, total, lo, hi)
    ensures lo <= Share(busy, 0, total) <= hi
  {
    var v, t := Share(busy, 0, total), total as real;
    ShareScales(busy, total);
    if v < lo { MulStrict(v, lo, t); }
    if v > hi { MulStrict(hi, v, t); }
  }

  lemma MulStrict(a: real, b: real, c: real)
    requires a < b && c > 0.0
    ensures a * c < b * c
  {
  }

  /** For distinct names and counters that never go back: every reported row has busy, idle and
      I/O-wait shares adding up to one hundred and all shares between zero and one hundred; the "all"
      row does too, and its busy share lies between two reported per-core ones; afterwards the cache
      holds the sample just read for each name and nothing else changed. */
  lemma UpdateIsSound(cache: map<string, Totals>, stats: seq<Sample>)
    requires Orderly(cache, stats[..Used(stats)])
    ensures var p := Loop(cache, stats);
            LoopInv(cache, stats[..Used(stats)], p) &&
            (AllRow(p).Some? ==>
               var all := AllRow(p).value;
               all.cpu + all.idle + all.iowait == 100.0 && InRange(all) &&
               exists i, j | 0 <= i < |p.rows| && 0 <= j < |p.rows| :: p.rows[i].cpu <= all.cpu <= p.rows[j].cpu)
  {
    hide LoopInv;
    hide Percentages;
    var samples := stats[..Used(stats)];
    LoopKeeps(cache, samples);
    var p := Loop(cache, stats);
    if AllRow(p).Some? {
      AllRowSound(cache, samples, p);
    }
  }

  lemma AllRowSound(cache: map<string, Totals>, samples: seq<Sample>, p: Progress)
    requires Orderly(cache, samples) && p == AdvanceAll(Progress([], ZERO, ZERO, false, cache), samples)
    requires LoopInv(cache, samples, p) && AllRow(p).Some?
    ensures var all := AllRow(p).value;
            all.cpu + all.idle + all.iowait == 100.0 && InRange(all) &&
            exists i, j | 0 <= i < |p.rows| && 0 <= j < |p.rows| :: p.rows[i].cpu <= all.cpu <= p.rows[j].cpu
  {
    RowSums("all", p.curr, p.prev);
    RowInRange("all", p.curr, p.prev);
    assert p.rows != [] && TotalDelta(p) > 0;
    assert AllRow(p).value.cpu == Share(BusyDelta(p), 0, TotalDelta(p));
    hide *;
    var i, j := Extremes(p.rows);
    LoopBetween(cache, samples, p.rows[i].cpu, p.rows[j].cpu);
    QuotientBetween(p.rows[i].cpu, p.rows[j].cpu, BusyDelta(p), TotalDelta(p));
  }

  // ---------------------------------------------------------- in the source's words

  /** How much all eight counters together moved. */
  function Moved(curr: Totals, prev: Totals): int {
    (curr.user - prev.user) + (curr.nice - prev.nice) + (curr.system - prev.system) + (curr.idle - prev.idle) +
    (curr.iowait - prev.iowait) + (curr.irq - prev.irq) + (curr.softirq - prev.softirq) + (curr.steal - prev.steal)
  }

  /** `share` is the percentage that `part` is of `whole`. */
  predicate IsPercent(share: real, part: int, whole: int) { share * whole as real == 100.0 * part as real }

  lemma ShareIsPercent(curr: int, prev: int, delta: int)
    requires delta > 0
    ensures IsPercent(Share(curr, prev, delta), curr - prev, delta)
  {
    ShareScales(curr - prev, delta);
  }

  /** A row is reported exactly when the counters together moved forward, under the given name, and each
      share is the percentage of its own counter: all but idle and I/O wait make up the busy share. */
  lemma RowMeans(name: string, curr: Totals, prev: Totals)
    ensures Percentages(name, curr, prev).Some? <==> Moved(curr, prev) > 0
    ensures Percentages(name, curr, prev).Some? ==>
              var row, whole := Percentages(name, curr, prev).value, Moved(curr, prev);
              row.name == name &&
              IsPercent(row.usr, curr.user - prev.user, whole) && IsPercent(row.nice, curr.nice - prev.nice, whole) &&
              IsPercent(row.system, curr.system - prev.system, whole) &&
              IsPercent(row.idle, curr.idle - prev.idle, whole) &&
              IsPercent(row.iowait, curr.iowait - prev.iowait, whole) &&
              IsPercent(row.irq, curr.irq - prev.irq, whole) &&
              IsPercent(row.softirq, curr.softirq - prev.softirq, whole) &&
              IsPercent(row.cpu, whole - (curr.idle - prev.idle) - (curr.iowait - prev.iowait), whole)
  {
    var whole := Moved(curr, prev);
    assert TotalTime(curr) - TotalTime(prev) == whole;
    if whole > 0 {
      ShareIsPercent(curr.user, prev.user, whole);
      ShareIsPercent(curr.nice, prev.nice, whole);
      ShareIsPercent(curr.system, prev.system, whole);
      ShareIsPercent(curr.idle, prev.idle, whole);
      ShareIsPercent(curr.iowait, prev.iowait, whole);
      ShareIsPercent(curr.irq, prev.irq, whole);
      ShareIsPercent(curr.softirq, prev.softirq, whole);
      ShareIsPercent(BusyTime(curr), BusyTime(prev), whole);
      hide IsPercent;
      hide Share;
    }
  }

  /** The sums behind the "all" row, counter by counter, over the CPUs that had an earlier sample. */
  function SumOf(counter: Totals -> nat, cache: map<string, Totals>, samples: seq<Sample>, earlier: bool): nat {
    if samples == [] then 0
    else
      var s := samples[|samples| - 1];
      SumOf(counter, cache, samples[..|samples| - 1], earlier) +
      if s.name in cache then (if earlier then counter(cache[s.name]) else counter(s.totals)) else 0
  }

  /** A counter that sums add up. */
  ghost predicate Additive(counter: Totals -> nat) {
    counter(ZERO) == 0 && forall a, b :: counter(Plus(a, b)) == counter(a) + counter(b)
  }

  lemma {:induction false} SumsAre(counter: Totals -> nat, cache: map<string, Totals>, samples: seq<Sample>)
    requires Additive(counter) && Orderly(cache, samples)
    ensures var p := AdvanceAll(Progress([], ZERO, ZERO, false, cache), samples);
            counter(p.curr) == SumOf(counter, cache, samples, false) &&
            counter(p.prev) == SumOf(counter, cache, samples, true)
  {
    if samples != [] {
      hide Percentages;
      hide Plus;
      var init, s := samples[..|samples| - 1], samples[|samples| - 1];
      assert forall x | x in init :: x in samples;
      assert forall i | 0 <= i < |init| :: init[i] == samples[i];
      SumsAre(counter, cache, init);
      LoopKeeps(cache, init);
      hide LoopInv;
      var p := AdvanceAll(Progress([], ZERO, ZERO, false, cache), init);
      SameSampleBefore(cache, init, p, s);
    }
  }

  /** A name that has not come yet has what the cache held. */
  lemma SameSampleBefore(cache: map<string, Totals>, init: seq<Sample>, p: Progress, s: Sample)
    requires LoopInv(cache, init, p) && forall i | 0 <= i < |init| :: init[i].name != s.name
    ensures (s.name in p.cache <==> s.name in cache) && (s.name in cache ==> p.cache[s.name] == cache[s.name])
  {
    assert !Named(init, s.name);
  }

  /** Each of the eight counters is one. */
  lemma CountersAreAdditive()
    ensures Additive((t: Totals) => t.user) && Additive((t: Totals) => t.nice) && Additive((t: Totals) => t.system)
    ensures Additive((t: Totals) => t.idle) && Additive((t: Totals) => t.iowait) && Additive((t: Totals) => t.irq)
    ensures Additive((t: Totals) => t.softirq) && Additive((t: Totals) => t.steal)
  {
  }
}
