/** The metric tables: saving, the three listings, and cleanup (apps/monitoring/database/server.go:30-115,
    apps/monitoring/database/cleanup.go:12-31, apps/monitoring/database/db.go:21-22).
    Timestamps are texts and compare as texts. */
module MetricStore {
  import opened Ordering

  datatype Metric = Metric(timestamp: string, reading: int)

  function Ts(m: Metric): string { m.timestamp }

  // --- Queries ------------------------------------------------------------------

  /** ORDER BY timestamp ASC */
  function AllMetrics(table: seq<Metric>): seq<Metric> { Sort(table, Ts) }

  function InsertDesc(x: Metric, xs: seq<Metric>): seq<Metric> {
    if xs == [] || !Less(Ts(x), Ts(xs[0])) then [x] + xs else [xs[0]] + InsertDesc(x, xs[1..])
  }

  /** ORDER BY timestamp DESC */
  function SortDesc(xs: seq<Metric>): seq<Metric> { if xs == [] then [] else InsertDesc(xs[0], SortDesc(xs[1..])) }

  /** LIMIT n; a negative limit is none. */
  function Limit(xs: seq<Metric>, n: int): seq<Metric> { if n < 0 || n > |xs| then xs else xs[..n] }

  function LastNMetrics(table: seq<Metric>, n: int): seq<Metric> { Sort(Limit(SortDesc(table), n), Ts) }

  /** WHERE timestamp BETWEEN start AND end */
  predicate Between(m: Metric, start: string, end: string) { AtMost(start, Ts(m)) && AtMost(Ts(m), end) }

  function Where(table: seq<Metric>, start: string, end: string): seq<Metric> {
    if table == [] then []
    else (if Between(table[0], start, end) then [table[0]] else []) + Where(table[1..], start, end)
  }

  function RangeMetrics(table: seq<Metric>, start: string, end: string): seq<Metric> {
    Sort(Where(table, start, end), Ts)
  }

  /** DELETE WHERE timestamp < cutoff leaves these rows. */
  function Kept(table: seq<Metric>, cutoff: string): seq<Metric> {
    if table == [] then [] else (if Less(Ts(table[0]), cutoff) then [] else [table[0]]) + Kept(table[1..], cutoff)
  }

  predicate HasKey(table: seq<Metric>, timestamp: string) { exists m :: m in table && Ts(m) == timestamp }

  /** The row as it is stored: an empty timestamp becomes the current one. */
  function Stamped(m: Metric, now: string): Metric { if m.timestamp == "" then m.(timestamp := now) else m }

  /** INSERT into a table whose timestamp is the primary key. */
  function Inserted(table: seq<Metric>, m: Metric): seq<Metric> { if HasKey(table, Ts(m)) then table else table + [m] }

  /** What a saved metric is stored as: its own row, at the current time if it has none. */
  ghost function Row(m: Metric, now: string): Metric {
    Metric(if m.timestamp != "" then m.timestamp else now, m.reading)
  }

  /** `after` has the rows of `before` that are not earlier than the cutoff. */
  ghost predicate SinceCutoff(after: seq<Metric>, before: seq<Metric>, cutoff: string) {
    forall m :: multiset(after)[m] == if Less(m.timestamp, cutoff) then 0 else multiset(before)[m]
  }

  // --- The database object ------------------------------------------------------

  class Db {
    var serverMetrics: seq<Metric>
    var containerMetrics: seq<Metric>

    ghost predicate Valid()
      reads this
    {
      DistinctKeys(serverMetrics, Ts)
    }

    constructor ()
      ensures Valid() && serverMetrics == [] && containerMetrics == []
    {
      serverMetrics, containerMetrics := [], [];
    }

    method SaveMetric(metric: Metric, now: string) returns (ok: bool)
      requires Valid()
      modifies this`serverMetrics
      ensures Valid()
      ensures ok <==> forall m :: m in old(serverMetrics) ==> m.timestamp != Row(metric, now).timestamp
      ensures ok ==> multiset(serverMetrics) == multiset(old(serverMetrics)) + multiset{Row(metric, now)}
      ensures !ok ==> serverMetrics == old(serverMetrics)
      ensures serverMetrics == Inserted(old(serverMetrics), Stamped(metric, now))
    {
      var m := metric;
      if m.timestamp == "" { m := m.(timestamp := now); }
      if HasKey(serverMetrics, Ts(m)) { return false; }
      InsertedDistinct(serverMetrics, m);
      serverMetrics := serverMetrics + [m];
      return true;
    }

    /** Both deletes, container rows first; an error of the first leaves the second undone. */
    method CleanupMetrics(cutoff: string, containerFails: bool, serverFails: bool) returns (ok: bool)
      requires Valid()
      modifies this
      ensures Valid() && ok == (!containerFails && !serverFails)
      ensures containerMetrics == if containerFails then old(containerMetrics) else Kept(old(containerMetrics), cutoff)
      ensures serverMetrics == if ok then Kept(old(serverMetrics), cutoff) else old(serverMetrics)
      ensures if containerFails then containerMetrics == old(containerMetrics)
              else SinceCutoff(containerMetrics, old(containerMetrics), cutoff)
      ensures if ok then SinceCutoff(serverMetrics, old(serverMetrics), cutoff) else serverMetrics == old(serverMetrics)
    {
      if containerFails { return false; }
      KeptSinceCutoff(containerMetrics, cutoff);
      KeptSinceCutoff(serverMetrics, cutoff);
      containerMetrics := Kept(containerMetrics, cutoff);
      if serverFails { return false; }
      KeptDistinct(serverMetrics, cutoff);
      serverMetrics := Kept(serverMetrics, cutoff);
      return true;
    }

    /** The table's rows, each once, by strictly increasing timestamp. */
    method GetAllMetrics() returns (metrics: seq<Metric>)
      requires Valid()
      ensures Ascending(metrics, Ts) && multiset(metrics) == multiset(serverMetrics)
    {
      SortSorts(serverMetrics, Ts);
      metrics := ScanRows(AllMetrics(serverMetrics));
    }

    /** The last n rows of the full listing, or all of it if it is shorter or n is negative. */
    method GetLastNMetrics(n: int) returns (metrics: seq<Metric>)
      requires Valid()
      ensures var all := AllMetrics(serverMetrics);
              metrics == all[|all| - LastCount(|all|, n)..]
      ensures Ascending(metrics, Ts) && |metrics| == if 0 <= n < |serverMetrics| then n else |serverMetrics|
      ensures forall m :: m in metrics ==> m in serverMetrics
      ensures forall m, x :: m in metrics && x in serverMetrics && x !in metrics ==> Less(x.timestamp, m.timestamp)
    {
      LastNIsSuffix(serverMetrics, n);
      SuffixIsLatest(serverMetrics, |serverMetrics| - LastCount(|serverMetrics|, n));
      metrics := ScanRows(LastNMetrics(serverMetrics, n));
    }

    /** A stretch of the full listing: all its rows from `start` to `end` and no others. */
    method GetMetricsInRange(start: string, end: string) returns (metrics: seq<Metric>)
      requires Valid()
      ensures var all := AllMetrics(serverMetrics);
              var lo := CountBefore(all, start);
              metrics == all[lo..Max(lo, CountUpTo(all, end))]
      ensures Ascending(metrics, Ts)
      ensures forall m :: m in metrics <==>
                m in serverMetrics && !Less(m.timestamp, start) && !Less(end, m.timestamp)
    {
      RangeIsSlice(serverMetrics, start, end);
      RangeElements(serverMetrics, start, end);
      SortSorts(serverMetrics, Ts);
      metrics := ScanRows(RangeMetrics(serverMetrics, start, end));
    }

    /** The row loop that the three queries share. */
    method ScanRows(rows: seq<Metric>) returns (metrics: seq<Metric>)
      ensures metrics == rows
    {
      metrics := [];
      for i := 0 to |rows|
        invariant metrics == rows[..i]
      {
        metrics := metrics + [rows[i]];
      }
    }
  }

  // --- Keys stay distinct -------------------------------------------------------

  lemma InsertedDistinct(table: seq<Metric>, m: Metric)
    requires DistinctKeys(table, Ts)
    ensures DistinctKeys(Inserted(table, m), Ts)
  {
  }

  lemma {:induction false} KeptElements(table: seq<Metric>, cutoff: string)
    ensures forall m :: m in Kept(table, cutoff) <==> m in table && !Less(Ts(m), cutoff)
  {
    if table == [] {
    } else {
      KeptElements(table[1..], cutoff);
      assert table == [table[0]] + table[1..];
    }
  }

  lemma {:induction false} KeptSinceCutoff(table: seq<Metric>, cutoff: string)
    ensures SinceCutoff(Kept(table, cutoff), table, cutoff)
  {
    if table == [] {
    } else {
      KeptSinceCutoff(table[1..], cutoff);
      assert table == [table[0]] + table[1..];
    }
  }

  lemma {:induction false} KeptDistinct(table: seq<Metric>, cutoff: string)
    requires DistinctKeys(table, Ts)
    ensures DistinctKeys(Kept(table, cutoff), Ts)
  {
    if table == [] {
    } else {
      KeptDistinct(table[1..], cutoff);
      KeptElements(table[1..], cutoff);
      HeadKeyUnique(table);
    }
  }

  lemma HeadKeyUnique(table: seq<Metric>)
    requires table != [] && DistinctKeys(table, Ts)
    ensures forall m :: m in table[1..] ==> Ts(m) != Ts(table[0])
  {
    forall k | 0 <= k < |table[1..]| ensures Ts(table[1..][k]) != Ts(table[0]) { assert table[1..][k] == table[k + 1]; }
  }

  lemma {:induction false} WhereElements(table: seq<Metric>, start: string, end: string)
    ensures forall m :: m in Where(table, start, end) <==> m in table && Between(m, start, end)
    ensures DistinctKeys(table, Ts) ==> DistinctKeys(Where(table, start, end), Ts)
  {
    if table == [] {
    } else {
      WhereElements(table[1..], start, end);
      assert table == [table[0]] + table[1..];
      if DistinctKeys(table, Ts) { HeadKeyUnique(table); }
    }
  }

  // --- Last N is a suffix -------------------------------------------------------

  ghost predicate Descending(xs: seq<Metric>) { forall i, j :: 0 <= i < j < |xs| ==> Less(Ts(xs[j]), Ts(xs[i])) }

  lemma {:induction false} InsertDescElements(x: Metric, xs: seq<Metric>)
    ensures multiset(InsertDesc(x, xs)) == multiset([x]) + multiset(xs)
  {
    if xs == [] || !Less(Ts(x), Ts(xs[0])) {
    } else {
      InsertDescElements(x, xs[1..]);
      assert xs == [xs[0]] + xs[1..];
    }
  }

  lemma {:induction false} InsertDescends(x: Metric, xs: seq<Metric>)
    requires Descending(xs) && forall y :: y in xs ==> Ts(y) != Ts(x)
    ensures Descending(InsertDesc(x, xs))
  {
    var ys := InsertDesc(x, xs);
    if xs == [] {
    } else if !Less(Ts(x), Ts(xs[0])) {
      forall i, j | 0 <= i < j < |ys| ensures Less(Ts(ys[j]), Ts(ys[i])) {
        if i == 0 {
          LessTotal(Ts(x), Ts(xs[0]));
          if j > 1 { LessTransitive(Ts(xs[j - 1]), Ts(xs[0]), Ts(x)); }
        }
      }
    } else {
      InsertDescends(x, xs[1..]);
      InsertDescElements(x, xs[1..]);
      forall y | y in InsertDesc(x, xs[1..]) ensures Less(Ts(y), Ts(xs[0])) {
        assert y in multiset(InsertDesc(x, xs[1..]));
        if y != x {
          assert y in multiset(xs[1..]);
          var k :| 0 <= k < |xs[1..]| && xs[1..][k] == y;
          assert xs[k + 1] == y;
        }
      }
    }
  }

  lemma {:induction false} SortDescSorts(xs: seq<Metric>)
    ensures multiset(SortDesc(xs)) == multiset(xs)
    ensures DistinctKeys(xs, Ts) ==> Descending(SortDesc(xs))
  {
    if xs == [] {
    } else {
      SortDescSorts(xs[1..]);
      InsertDescElements(xs[0], SortDesc(xs[1..]));
      assert xs == [xs[0]] + xs[1..];
      if DistinctKeys(xs, Ts) {
        HeadKeyUnique(xs);
        SameElements(SortDesc(xs[1..]), xs[1..]);
        InsertDescends(xs[0], SortDesc(xs[1..]));
      }
    }
  }

  function Reversed(xs: seq<Metric>): seq<Metric> { seq(|xs|, i requires 0 <= i < |xs| => xs[|xs| - 1 - i]) }

  lemma ReversedElements(xs: seq<Metric>)
    ensures forall x :: x in Reversed(xs) <==> x in xs
  {
    forall x | x in xs ensures x in Reversed(xs) {
      var k :| 0 <= k < |xs| && xs[k] == x;
      assert Reversed(xs)[|xs| - 1 - k] == x;
    }
  }

  /** The descending listing is the ascending one backwards. */
  lemma DescendingIsReversed(table: seq<Metric>)
    requires DistinctKeys(table, Ts)
    ensures Reversed(SortDesc(table)) == AllMetrics(table) && |SortDesc(table)| == |AllMetrics(table)| == |table|
  {
    SortDescSorts(table);
    SortSorts(table, Ts);
    SameElements(SortDesc(table), table);
    SameElements(AllMetrics(table), table);
    ReversedElements(SortDesc(table));
    AscendingUnique(Reversed(SortDesc(table)), AllMetrics(table), Ts);
  }

  /** Sorting a part of a strictly increasing listing, in whatever order it is given, gives the part back. */
  lemma SortOfPart(xs: seq<Metric>, part: seq<Metric>)
    requires Ascending(part, Ts) && DistinctKeys(xs, Ts) && forall x :: x in xs <==> x in part
    ensures Sort(xs, Ts) == part
  {
    SortSorts(xs, Ts);
    SameElements(Sort(xs, Ts), xs);
    AscendingUnique(Sort(xs, Ts), part, Ts);
  }

  function LastCount(size: nat, n: int): nat { if n < 0 || n > size then size else n }

  /** The first `m` rows of the descending order are the last `m` of the ascending one. */
  lemma FrontOfReversed(desc: seq<Metric>, m: nat)
    requires m <= |desc|
    ensures forall x :: x in desc[..m] <==> x in Reversed(desc)[|desc| - m..]
  {
    var part := Reversed(desc)[|desc| - m..];
    forall k | 0 <= k < m ensures desc[..m][k] == part[m - 1 - k] {}
    forall x ensures x in desc[..m] <==> x in part {
      if x in desc[..m] { var k :| 0 <= k < m && desc[..m][k] == x; assert part[m - 1 - k] == x; }
      if x in part { var k :| 0 <= k < m && part[k] == x; assert desc[..m][m - 1 - k] == x; }
    }
  }

  lemma DescendingDistinct(xs: seq<Metric>)
    requires Descending(xs)
    ensures DistinctKeys(xs, Ts)
  {
    forall i, j | 0 <= i < j < |xs| ensures Ts(xs[i]) != Ts(xs[j]) { LessIrreflexive(Ts(xs[i])); }
  }

  /** Sorting descending, cutting to n rows and sorting ascending again gives exactly the last n rows of the full
      listing. */
  lemma LastNIsSuffix(table: seq<Metric>, n: int)
    requires DistinctKeys(table, Ts)
    ensures var all := AllMetrics(table);
            LastNMetrics(table, n) == all[|all| - LastCount(|all|, n)..]
  {
    var all, desc := AllMetrics(table), SortDesc(table);
    var m := LastCount(|all|, n);
    DescendingIsReversed(table);
    SortSorts(table, Ts);
    SortDescSorts(table);
    assert Limit(desc, n) == desc[..m];
    FrontOfReversed(desc, m);
    DescendingDistinct(desc[..m]);
    SortOfPart(desc[..m], all[|all| - m..]);
  }

  /** Rows of a suffix of the listing are later than all others. */
  lemma SuffixIsLatest(table: seq<Metric>, i: nat)
    requires DistinctKeys(table, Ts) && i <= |table|
    ensures |AllMetrics(table)| == |table|
    ensures var part := AllMetrics(table)[i..];
            && Ascending(part, Ts) && (forall m :: m in part ==> m in table)
            && forall m, x :: m in part && x in table && x !in part ==> Less(x.timestamp, m.timestamp)
  {
    var all := AllMetrics(table);
    SortSorts(table, Ts);
    SameElements(all, table);
    forall m, x | m in all[i..] && x in table && x !in all[i..] ensures Less(x.timestamp, m.timestamp) {
      var k :| 0 <= k < |all[i..]| && all[i..][k] == m;
      var j :| 0 <= j < |all| && all[j] == x;
      assert forall l :: i <= l < |all| ==> all[l] == all[i..][l - i];
      assert j < i && Less(Ts(all[j]), Ts(all[i + k]));
    }
  }

  // --- A range is a slice, cleanup cuts off a prefix ----------------------------

  /** Number of leading rows before `t`. */
  function CountBefore(xs: seq<Metric>, t: string): (n: nat)
    ensures n <= |xs|
  {
    if xs != [] && Less(Ts(xs[0]), t) then 1 + CountBefore(xs[1..], t) else 0
  }

  lemma {:induction false} CountBeforeSplits(xs: seq<Metric>, t: string)
    requires Ascending(xs, Ts)
    ensures forall i :: 0 <= i < |xs| ==> (Less(Ts(xs[i]), t) <==> i < CountBefore(xs, t))
  {
    if xs == [] {
    } else {
      if Less(Ts(xs[0]), t) {
        CountBeforeSplits(xs[1..], t);
        forall i | 0 <= i < |xs| ensures Less(Ts(xs[i]), t) <==> i < CountBefore(xs, t) {
          if i > 0 { assert xs[1..][i - 1] == xs[i]; }
        }
      } else {
        forall i | 0 <= i < |xs| ensures !Less(Ts(xs[i]), t) {
          if i > 0 && Less(Ts(xs[i]), t) { LessTransitive(Ts(xs[0]), Ts(xs[i]), t); }
        }
      }
    }
  }

  /** Number of leading rows up to and including `t`. */
  function CountUpTo(xs: seq<Metric>, t: string): (n: nat)
    ensures n <= |xs|
  {
    if xs != [] && AtMost(Ts(xs[0]), t) then 1 + CountUpTo(xs[1..], t) else 0
  }

  lemma {:induction false} CountUpToSplits(xs: seq<Metric>, t: string)
    requires Ascending(xs, Ts)
    ensures forall i :: 0 <= i < |xs| ==> (AtMost(Ts(xs[i]), t) <==> i < CountUpTo(xs, t))
  {
    if xs == [] {
    } else {
      if AtMost(Ts(xs[0]), t) {
        CountUpToSplits(xs[1..], t);
        forall i | 0 <= i < |xs| ensures AtMost(Ts(xs[i]), t) <==> i < CountUpTo(xs, t) {
          if i > 0 { assert xs[1..][i - 1] == xs[i]; }
        }
      } else {
        forall i | 0 <= i < |xs| ensures !AtMost(Ts(xs[i]), t) {
          if i > 0 { LessTransitive(t, Ts(xs[0]), Ts(xs[i])); }
        }
      }
    }
  }

  function Max(a: nat, b: nat): nat { if a < b then b else a }

  lemma SliceElements(all: seq<Metric>, start: string, end: string)
    requires Ascending(all, Ts)
    ensures var lo := CountBefore(all, start);
            forall x :: x in all[lo..Max(lo, CountUpTo(all, end))] <==> x in all && Between(x, start, end)
  {
    var lo := CountBefore(all, start);
    var part := all[lo..Max(lo, CountUpTo(all, end))];
    CountBeforeSplits(all, start);
    CountUpToSplits(all, end);
    forall k | 0 <= k < |part| ensures part[k] in all && Between(part[k], start, end) { assert all[lo + k] == part[k]; }
    forall x | x in all && Between(x, start, end) ensures x in part {
      var k :| 0 <= k < |all| && all[k] == x;
      assert part[k - lo] == x;
    }
  }

  /** A range query is the contiguous slice of the full listing from the first row not before `start`
      to the last row not after `end`. */
  lemma RangeIsSlice(table: seq<Metric>, start: string, end: string)
    requires DistinctKeys(table, Ts)
    ensures var all := AllMetrics(table);
            var lo := CountBefore(all, start);
            RangeMetrics(table, start, end) == all[lo..Max(lo, CountUpTo(all, end))]
  {
    var all := AllMetrics(table);
    var lo := CountBefore(all, start);
    SortSorts(table, Ts);
    SameElements(all, table);
    WhereElements(table, start, end);
    SliceElements(all, start, end);
    SortOfPart(Where(table, start, end), all[lo..Max(lo, CountUpTo(all, end))]);
  }

  lemma RangeElements(table: seq<Metric>, start: string, end: string)
    ensures forall m :: m in RangeMetrics(table, start, end) <==> m in table && Between(m, start, end)
  {
    WhereElements(table, start, end);
    SortSorts(Where(table, start, end), Ts);
    SameElements(RangeMetrics(table, start, end), Where(table, start, end));
  }

  lemma SuffixElements(all: seq<Metric>, cutoff: string)
    requires Ascending(all, Ts)
    ensures forall x :: x in all[CountBefore(all, cutoff)..] <==> x in all && !Less(Ts(x), cutoff)
  {
    var lo := CountBefore(all, cutoff);
    CountBeforeSplits(all, cutoff);
    var part := all[lo..];
    forall k | 0 <= k < |part| ensures part[k] in all && !Less(Ts(part[k]), cutoff) { assert all[lo + k] == part[k]; }
    forall x | x in all && !Less(Ts(x), cutoff) ensures x in part {
      var k :| 0 <= k < |all| && all[k] == x;
      assert part[k - lo] == x;
    }
  }

  /** Cleanup removes from the full listing exactly the rows before the cutoff, and they are a prefix. */
  lemma CleanupRemovesPrefix(table: seq<Metric>, cutoff: string)
    requires DistinctKeys(table, Ts)
    ensures AllMetrics(Kept(table, cutoff)) == AllMetrics(table)[CountBefore(AllMetrics(table), cutoff)..]
  {
    var all := AllMetrics(table);
    SortSorts(table, Ts);
    SameElements(all, table);
    KeptElements(table, cutoff);
    KeptDistinct(table, cutoff);
    SuffixElements(all, cutoff);
    SortOfPart(Kept(table, cutoff), all[CountBefore(all, cutoff)..]);
  }

  // --- After any sequence of operations -----------------------------------------

  datatype Op = Save(metric: Metric, now: string) | Cleanup(cutoff: string)

  function Perform(table: seq<Metric>, op: Op): seq<Metric> {
    match op
    case Save(m, now) => Inserted(table, Stamped(m, now))
    case Cleanup(cutoff) => Kept(table, cutoff)
  }

  function PerformAll(ops: seq<Op>): seq<Metric> {
    if ops == [] then [] else Perform(PerformAll(ops[..|ops| - 1]), ops[|ops| - 1])
  }

  lemma {:induction false} AlwaysDistinct(ops: seq<Op>)
    ensures DistinctKeys(PerformAll(ops), Ts)
  {
    if ops == [] {
    } else {
      var table := PerformAll(ops[..|ops| - 1]);
      AlwaysDistinct(ops[..|ops| - 1]);
      match ops[|ops| - 1]
      case Save(m, now) => InsertedDistinct(table, Stamped(m, now));
      case Cleanup(cutoff) => KeptDistinct(table, cutoff);
    }
  }

  /** After any saves and cleanups, refused saves included: the full listing is strictly increasing, the last n are
      its suffix, a range is its slice, and a further cleanup removes a prefix of it. */
  lemma ListingsAgree(ops: seq<Op>, n: int, start: string, end: string, cutoff: string)
    ensures var table := PerformAll(ops);
            var all := AllMetrics(table);
            var lo := CountBefore(all, start);
            && Ascending(all, Ts) && multiset(all) == multiset(table)
            && LastNMetrics(table, n) == all[|all| - LastCount(|all|, n)..]
            && RangeMetrics(table, start, end) == all[lo..Max(lo, CountUpTo(all, end))]
            && AllMetrics(PerformAll(ops + [Cleanup(cutoff)])) == all[CountBefore(all, cutoff)..]
  {
    var table := PerformAll(ops);
    AlwaysDistinct(ops);
    SortSorts(table, Ts);
    LastNIsSuffix(table, n);
    RangeIsSlice(table, start, end);
    CleanupRemovesPrefix(table, cutoff);
    assert (ops + [Cleanup(cutoff)])[..|ops|] == ops;
  }

  // --- The rows after any sequence of operations --------------------------------

  /** The key under which a save stores its row. */
  ghost function KeyOf(op: Op): string
    requires op.Save?
  {
    Row(op.metric, op.now).timestamp
  }

  /** Save `i` is not refused: every earlier save with its key that was not refused was cleaned up before it. */
  ghost predicate Accepted(ops: seq<Op>, i: nat)
    requires i < |ops| && ops[i].Save?
    decreases i
  {
    forall j: nat :: j < i && ops[j].Save? && KeyOf(ops[j]) == KeyOf(ops[i]) && Accepted(ops, j) ==>
      CleanedUp(ops, j, i)
  }

  /** A cleanup between save `i` and operation `n` removes the saved row. */
  ghost predicate CleanedUp(ops: seq<Op>, i: nat, n: nat)
    requires i < n <= |ops| && ops[i].Save?
  {
    exists c :: i < c < n && ops[c].Cleanup? && Less(KeyOf(ops[i]), ops[c].cutoff)
  }

  /** The row was saved by operation `i` and is still there after `n` operations. */
  ghost predicate LivesFrom(ops: seq<Op>, n: nat, row: Metric, i: nat)
    requires n <= |ops|
  {
    i < n && ops[i].Save? && Row(ops[i].metric, ops[i].now) == row && Accepted(ops, i) && !CleanedUp(ops, i, n)
  }

  lemma CleanedUpNext(ops: seq<Op>, i: nat, n: nat)
    requires i < n < |ops| && ops[i].Save?
    ensures CleanedUp(ops, i, n + 1)
            <==> CleanedUp(ops, i, n)
                 || (ops[n].Cleanup? && Less(KeyOf(ops[i]), ops[n].cutoff))
  {
    if c :| i < c < n + 1 && ops[c].Cleanup? && Less(KeyOf(ops[i]), ops[c].cutoff) {
      if c < n { assert CleanedUp(ops, i, n); }
    }
  }

  ghost predicate Lives(ops: seq<Op>, n: nat, row: Metric)
    requires n <= |ops|
  {
    exists i: nat :: LivesFrom(ops, n, row, i)
  }

  lemma KeyLives(ops: seq<Op>, n: nat, key: string)
    requires n <= |ops| && forall row :: row in PerformAll(ops[..n]) <==> Lives(ops, n, row)
    ensures HasKey(PerformAll(ops[..n]), key)
            <==> exists j: nat :: j < n && ops[j].Save? && KeyOf(ops[j]) == key
                                  && Accepted(ops, j) && !CleanedUp(ops, j, n)
  {
    if HasKey(PerformAll(ops[..n]), key) {
      var m :| m in PerformAll(ops[..n]) && Ts(m) == key;
      assert Lives(ops, n, m);
      var i: nat :| LivesFrom(ops, n, m, i);
    }
    if j: nat :| j < n && ops[j].Save? && KeyOf(ops[j]) == key
                 && Accepted(ops, j) && !CleanedUp(ops, j, n)
    {
      var row := Row(ops[j].metric, ops[j].now);
      assert LivesFrom(ops, n, row, j);
      assert row in PerformAll(ops[..n]) && Ts(row) == key;
    }
  }

  lemma LivesThroughSave(ops: seq<Op>, n: nat, row: Metric)
    requires n < |ops| && ops[n].Save?
    requires forall r :: r in PerformAll(ops[..n]) <==> Lives(ops, n, r)
    ensures row in Perform(PerformAll(ops[..n]), ops[n]) <==> Lives(ops, n + 1, row)
  {
    var table, saved := PerformAll(ops[..n]), Row(ops[n].metric, ops[n].now);
    KeyLives(ops, n, saved.timestamp);
    assert Accepted(ops, n) <==> !HasKey(table, saved.timestamp);
    assert Perform(table, ops[n]) == Inserted(table, saved);
    forall i: nat ensures LivesFrom(ops, n + 1, row, i)
                          <==> LivesFrom(ops, n, row, i) || (i == n && row == saved && Accepted(ops, n))
    {
      if i < n && ops[i].Save? { CleanedUpNext(ops, i, n); }
    }
    assert row in Inserted(table, saved) <==> row in table || (row == saved && !HasKey(table, saved.timestamp));
    if Lives(ops, n + 1, row) {
      var i: nat :| LivesFrom(ops, n + 1, row, i);
      assert LivesFrom(ops, n, row, i) ==> row in table;
    }
    if row in table {
      var i: nat :| LivesFrom(ops, n, row, i);
      assert LivesFrom(ops, n + 1, row, i);
    }
    if row == saved && Accepted(ops, n) { assert LivesFrom(ops, n + 1, row, n); }
  }

  lemma LivesThroughCleanup(ops: seq<Op>, n: nat, row: Metric)
    requires n < |ops| && ops[n].Cleanup?
    ensures Lives(ops, n + 1, row) <==> Lives(ops, n, row) && !Less(row.timestamp, ops[n].cutoff)
  {
    forall i: nat ensures LivesFrom(ops, n + 1, row, i)
                          <==> LivesFrom(ops, n, row, i) && !Less(row.timestamp, ops[n].cutoff)
    {
      if i < n && ops[i].Save? { CleanedUpNext(ops, i, n); }
    }
    if Lives(ops, n, row) && !Less(row.timestamp, ops[n].cutoff) {
      var i: nat :| LivesFrom(ops, n, row, i);
      assert LivesFrom(ops, n + 1, row, i);
    }
    if Lives(ops, n + 1, row) {
      var i: nat :| LivesFrom(ops, n + 1, row, i);
      assert LivesFrom(ops, n, row, i);
    }
  }

  lemma {:induction false} HistoryUpTo(ops: seq<Op>, n: nat)
    requires n <= |ops|
    ensures forall row :: row in PerformAll(ops[..n]) <==> Lives(ops, n, row)
  {
    if n == 0 {
    } else {
      HistoryUpTo(ops, n - 1);
      assert ops[..n][..n - 1] == ops[..n - 1];
      forall row ensures row in PerformAll(ops[..n]) <==> Lives(ops, n, row) {
        if ops[n - 1].Save? {
          LivesThroughSave(ops, n - 1, row);
        } else {
          LivesThroughCleanup(ops, n - 1, row);
          KeptElements(PerformAll(ops[..n - 1]), ops[n - 1].cutoff);
        }
      }
    }
  }

  /** After any saves and cleanups the table has a row exactly if some save gave it, was not refused, and no later
      cleanup had a cutoff behind it; a save is refused exactly if an earlier row with its key is still there. */
  lemma RowHistory(ops: seq<Op>, row: Metric)
    ensures row in PerformAll(ops)
            <==> exists i: nat :: i < |ops| && ops[i].Save? && Row(ops[i].metric, ops[i].now) == row && Accepted(ops, i)
                                  && !CleanedUp(ops, i, |ops|)
  {
    HistoryUpTo(ops, |ops|);
    assert ops[..|ops|] == ops;
    if Lives(ops, |ops|, row) { var i: nat :| LivesFrom(ops, |ops|, row, i); }
    if i: nat :| i < |ops| && ops[i].Save? && Row(ops[i].metric, ops[i].now) == row && Accepted(ops, i)
                 && !CleanedUp(ops, i, |ops|)
    {
      assert LivesFrom(ops, |ops|, row, i);
    }
  }
}
