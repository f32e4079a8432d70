/** The store of src/db.rs: the `pipelines` table, the `daily_stats`
    counter table keyed by (day, project id, status), the singleton
    `poll_state` watermark, and the full rebuild of `daily_stats` from
    `pipelines`. Tables are maps; each SQL statement is a step that
    succeeds or fails. */
module Db {
  import opened Wrappers
  import opened Models
  import opened Ids

  const SecondsPerDay: int := 86400

  /** The calendar day of a Unix timestamp (`date(ts, 'unixepoch')`),
      as a day number; Dafny's `/` floors for a positive divisor, as
      calendar days do for instants before 1970. */
  function Day(ts: int): int {
    ts / SecondsPerDay
  }

  /** Primary key of a `daily_stats` row. */
  datatype BucketKey = BucketKey(day: int, projectId: int, status: string)

  /** The other columns of a `daily_stats` row. */
  datatype Counters = Counters(projectName: string, count: int, totalDuration: int, countWithDuration: int)

  /** The three counters of a bucket, without its name. */
  datatype Tally = Tally(count: int, totalDuration: int, countWithDuration: int)

  type Pipelines = map<int, Pipeline>
  type Stats = map<BucketKey, Counters>

  /** The bucket a pipeline is counted in. */
  function KeyOf(p: Pipeline): BucketKey {
    BucketKey(Day(p.createdAt), p.projectId, p.status)
  }

  function DurationOr0(d: Option<int>): int {
    d.GetOr(0)
  }

  /** What one pipeline with duration `d` adds to its bucket. */
  function Contribution(d: Option<int>): (t: Tally)
    ensures t.count == 1
    ensures t.countWithDuration == (if d.Some? then 1 else 0)
    ensures t.totalDuration == (if d.Some? then d.value else 0)
  {
    Tally(1, DurationOr0(d), if d.Some? then 1 else 0)
  }

  /** What removing one pipeline with duration `d` takes from its bucket. */
  function Removal(d: Option<int>): (t: Tally)
    ensures t.count == -1
    ensures t.countWithDuration == (if d.Some? then -1 else 0)
    ensures t.totalDuration == (if d.Some? then -d.value else 0)
  {
    Tally(-1, -DurationOr0(d), if d.Some? then -1 else 0)
  }

  /** The counters of bucket `k`; a bucket with no row reads as zero. */
  function TallyAt<K(!new)>(stats: map<K, Counters>, k: K): Tally {
    if k in stats then Tally(stats[k].count, stats[k].totalDuration, stats[k].countWithDuration)
    else Tally(0, 0, 0)
  }

  /** Two counter tables that agree on every bucket's counters (names aside). */
  ghost predicate SameTallies<K(!new)>(a: map<K, Counters>, b: map<K, Counters>) {
    forall k :: TallyAt(a, k) == TallyAt(b, k)
  }

  /** `INSERT INTO daily_stats .. VALUES (.., 1, dur, has_dur) ON CONFLICT
      DO UPDATE SET count = count + 1, ..`: bucket `k` is created if absent,
      gains one pipeline of duration `d`, and is renamed `name`. */
  function Bump<K(!new)>(stats: map<K, Counters>, k: K, name: string, d: Option<int>): (r: map<K, Counters>)
    ensures r.Keys == stats.Keys + {k}
    ensures k in r && r[k].projectName == name
    ensures var t := TallyAt(stats, k);
      TallyAt(r, k) == Tally(t.count + 1, t.totalDuration + DurationOr0(d), t.countWithDuration + if d.Some? then 1 else 0)
  {
    var t := TallyAt(stats, k);
    var c := Counters(name, t.count + 1, t.totalDuration + DurationOr0(d), t.countWithDuration + if d.Some? then 1 else 0);
    UpdateKeys(stats, k, c);
    stats[k := c]
  }

  /** Updating a map at a key adds exactly that key. */
  lemma UpdateKeys<K, V>(m: map<K, V>, k: K, v: V)
    ensures m[k := v].Keys == m.Keys + {k}
  {
  }

  /** Bump touches bucket `k` only. */
  lemma BumpAt<K(!new)>(stats: map<K, Counters>, k: K, name: string, d: Option<int>, j: K)
    ensures j == k ==> var t := TallyAt(stats, k);
      TallyAt(Bump(stats, k, name, d), j) ==
      Tally(t.count + 1, t.totalDuration + DurationOr0(d), t.countWithDuration + if d.Some? then 1 else 0)
    ensures j != k ==> TallyAt(Bump(stats, k, name, d), j) == TallyAt(stats, j)
    ensures j != k && j in stats ==> Bump(stats, k, name, d)[j] == stats[j]
  {
  }

  /** `UPDATE daily_stats SET .. = .. + delta WHERE <key is k>`: changes
      bucket `k` by `delta` if that row exists, and nothing otherwise. */
  function Adjust<K(!new)>(stats: map<K, Counters>, k: K, delta: Tally): (r: map<K, Counters>)
    ensures r.Keys == stats.Keys
    ensures k in stats ==> r[k].projectName == stats[k].projectName
    ensures k in stats ==> var t := TallyAt(stats, k);
      TallyAt(r, k) == Tally(t.count + delta.count, t.totalDuration + delta.totalDuration,
                             t.countWithDuration + delta.countWithDuration)
    ensures k !in stats ==> r == stats
  {
    if k in stats then
      var c := stats[k];
      stats[k := Counters(c.projectName, c.count + delta.count, c.totalDuration + delta.totalDuration,
                          c.countWithDuration + delta.countWithDuration)]
    else stats
  }

  /** Adjust touches bucket `k` only, and only when it exists. */
  lemma AdjustAt<K(!new)>(stats: map<K, Counters>, k: K, delta: Tally, j: K)
    ensures j == k && k in stats ==> var t := TallyAt(stats, k);
      TallyAt(Adjust(stats, k, delta), j) ==
      Tally(t.count + delta.count, t.totalDuration + delta.totalDuration, t.countWithDuration + delta.countWithDuration)
    ensures !(j == k && k in stats) ==> TallyAt(Adjust(stats, k, delta), j) == TallyAt(stats, j)
    ensures j != k && j in stats ==> Adjust(stats, k, delta)[j] == stats[j]
  {
  }

  /** The GROUP BY of `backfill_daily_stats` over the rows `ids`: every
      row counted once in its bucket, taken in id order (the order SQLite
      scans a table with an integer primary key). */
  function AggregateOver(pipes: Pipelines, ids: set<int>): Stats
    requires ids <= pipes.Keys
    decreases ids
  {
    if ids == {} then map[]
    else
      var i := MinId(ids);
      var p := pipes[i];
      Bump(AggregateOver(pipes, ids - {i}), KeyOf(p), p.projectName, p.duration)
  }

  function Aggregate(pipes: Pipelines): Stats {
    AggregateOver(pipes, pipes.Keys)
  }

  /** The rows among `ids` that fall in bucket `k`, and those of them with a duration. */
  function RowsIn(pipes: Pipelines, ids: set<int>, k: BucketKey): set<int> {
    set i | i in ids && i in pipes && KeyOf(pipes[i]) == k
  }

  function TimedRowsIn(pipes: Pipelines, ids: set<int>, k: BucketKey): set<int> {
    set i | i in ids && i in pipes && KeyOf(pipes[i]) == k && pipes[i].duration.Some?
  }

  /** `backfill_daily_stats` as a whole: every aggregated bucket overwrites
      the stored row (`ON CONFLICT .. DO UPDATE SET count = excluded.count, ..`);
      buckets the aggregation does not produce are kept as they were. */
  function Rebuild(stats: Stats, pipes: Pipelines): (r: Stats)
    ensures forall k :: k in r <==> k in stats || k in Aggregate(pipes)
    ensures forall k :: k in Aggregate(pipes) ==> r[k] == Aggregate(pipes)[k]
    ensures forall k :: k in stats && k !in Aggregate(pipes) ==> r[k] == stats[k]
  {
    stats + Aggregate(pipes)
  }

  /** A map union that overwrites with the same map again changes nothing. */
  lemma UnionTwice<K(!new), V(!new)>(a: map<K, V>, b: map<K, V>)
    ensures (a + b) + b == a + b
  {
    var once := a + b;
    var twice := once + b;
    assert twice.Keys == once.Keys;
    forall k | k in once ensures twice[k] == once[k] {
      if k in b {
        assert twice[k] == b[k];
      }
    }
  }

  /** Rebuilding twice is rebuilding once. */
  lemma RebuildIdempotent(stats: Stats, pipes: Pipelines)
    ensures Rebuild(Rebuild(stats, pipes), pipes) == Rebuild(stats, pipes)
  {
    UnionTwice(stats, Aggregate(pipes));
  }

  /** Bucket counts are exact: each bucket's `count` is the number of its
      rows, and a bucket exists exactly when it has a row. */
  lemma {:induction false} AggregateOverCounts(pipes: Pipelines, ids: set<int>, k: BucketKey)
    requires ids <= pipes.Keys
    ensures TallyAt(AggregateOver(pipes, ids), k).count == |RowsIn(pipes, ids, k)|
    ensures k in AggregateOver(pipes, ids) <==> RowsIn(pipes, ids, k) != {}
    decreases ids
  {
    if ids == {} {
      assert RowsIn(pipes, ids, k) == {};
    } else {
      var i := MinId(ids);
      var rest := ids - {i};
      AggregateOverCounts(pipes, rest, k);
      RowsInSplit(pipes, ids, i, k);
      BumpAt(AggregateOver(pipes, rest), KeyOf(pipes[i]), pipes[i].projectName, pipes[i].duration, k);
    }
  }

  lemma RowsInSplit(pipes: Pipelines, ids: set<int>, i: int, k: BucketKey)
    requires ids <= pipes.Keys && i in ids
    ensures RowsIn(pipes, ids, k) == RowsIn(pipes, ids - {i}, k) + (if KeyOf(pipes[i]) == k then {i} else {})
    ensures TimedRowsIn(pipes, ids, k) ==
      TimedRowsIn(pipes, ids - {i}, k) + (if KeyOf(pipes[i]) == k && pipes[i].duration.Some? then {i} else {})
  {
  }

  /** Each bucket's `count_with_duration` is the number of its rows with a duration. */
  lemma {:induction false} AggregateOverTimedCounts(pipes: Pipelines, ids: set<int>, k: BucketKey)
    requires ids <= pipes.Keys
    ensures TallyAt(AggregateOver(pipes, ids), k).countWithDuration == |TimedRowsIn(pipes, ids, k)|
    decreases ids
  {
    if ids == {} {
      assert TimedRowsIn(pipes, ids, k) == {};
    } else {
      var i := MinId(ids);
      AggregateOverTimedCounts(pipes, ids - {i}, k);
      RowsInSplit(pipes, ids, i, k);
      BumpAt(AggregateOver(pipes, ids - {i}), KeyOf(pipes[i]), pipes[i].projectName, pipes[i].duration, k);
    }
  }

  /** After a rebuild, every bucket that has pipelines holds their exact count
      and count with duration. */
  lemma RebuildCounts(stats: Stats, pipes: Pipelines, k: BucketKey)
    requires RowsIn(pipes, pipes.Keys, k) != {}
    ensures k in Rebuild(stats, pipes)
    ensures Rebuild(stats, pipes)[k].count == |RowsIn(pipes, pipes.Keys, k)|
    ensures Rebuild(stats, pipes)[k].countWithDuration == |TimedRowsIn(pipes, pipes.Keys, k)|
  {
    AggregateOverCounts(pipes, pipes.Keys, k);
    AggregateOverTimedCounts(pipes, pipes.Keys, k);
  }

  /** A bucket without pipelines is left exactly as stored (the rebuild never deletes). */
  lemma RebuildKeepsEmptyBuckets(stats: Stats, pipes: Pipelines, k: BucketKey)
    requires RowsIn(pipes, pipes.Keys, k) == {}
    ensures k in Rebuild(stats, pipes) <==> k in stats
    ensures k in stats ==> Rebuild(stats, pipes)[k] == stats[k]
  {
    AggregateOverCounts(pipes, pipes.Keys, k);
  }

  /** The aggregation depends only on the rows it reads. */
  lemma {:induction false} AggregateOverFrame(a: Pipelines, b: Pipelines, ids: set<int>)
    requires ids <= a.Keys && ids <= b.Keys
    requires forall i :: i in ids ==> a[i] == b[i]
    ensures AggregateOver(a, ids) == AggregateOver(b, ids)
    decreases ids
  {
    if ids != {} {
      AggregateOverFrame(a, b, ids - {MinId(ids)});
    }
  }

  lemma BumpCongruent<K(!new)>(a: map<K, Counters>, b: map<K, Counters>, k: K, n1: string, n2: string, d: Option<int>)
    requires SameTallies(a, b)
    ensures SameTallies(Bump(a, k, n1, d), Bump(b, k, n2, d))
  {
    forall j ensures TallyAt(Bump(a, k, n1, d), j) == TallyAt(Bump(b, k, n2, d), j) {
      BumpAt(a, k, n1, d, j);
      BumpAt(b, k, n2, d, j);
      assert TallyAt(a, j) == TallyAt(b, j);
    }
  }

  lemma BumpCommute<K(!new)>(s: map<K, Counters>, k1: K, n1: string, d1: Option<int>, k2: K, n2: string, d2: Option<int>)
    ensures SameTallies(Bump(Bump(s, k1, n1, d1), k2, n2, d2), Bump(Bump(s, k2, n2, d2), k1, n1, d1))
  {
    var a := Bump(s, k1, n1, d1);
    var b := Bump(s, k2, n2, d2);
    var c1 := Contribution(d1);
    var c2 := Contribution(d2);
    forall k ensures TallyAt(Bump(a, k2, n2, d2), k) == TallyAt(Bump(b, k1, n1, d1), k) {
      BumpAt(s, k1, n1, d1, k);
      BumpAt(s, k2, n2, d2, k);
      BumpAt(a, k2, n2, d2, k);
      BumpAt(b, k1, n1, d1, k);
      var x := TallyAt(Bump(a, k2, n2, d2), k);
      var y := TallyAt(Bump(b, k1, n1, d1), k);
      assert x == Tally(x.count, x.totalDuration, x.countWithDuration);
      assert y == Tally(y.count, y.totalDuration, y.countWithDuration);
    }
  }

  lemma SameTalliesTrans<K(!new)>(a: map<K, Counters>, b: map<K, Counters>, c: map<K, Counters>)
    requires SameTallies(a, b) && SameTallies(b, c)
    ensures SameTallies(a, c)
  {
    forall k ensures TallyAt(a, k) == TallyAt(c, k) {
      assert TallyAt(a, k) == TallyAt(b, k);
      assert TallyAt(b, k) == TallyAt(c, k);
    }
  }

  /** The row taken last by the aggregation may be any row: counting them in
      another order gives the same counters. */
  lemma {:induction false} AggregateOverRemove(pipes: Pipelines, ids: set<int>, x: int)
    requires ids <= pipes.Keys && x in ids
    ensures SameTallies(AggregateOver(pipes, ids),
                        Bump(AggregateOver(pipes, ids - {x}), KeyOf(pipes[x]), pipes[x].projectName, pipes[x].duration))
    decreases ids
  {
    var i := MinId(ids);
    var px := pipes[x];
    if x == i {
      forall k ensures TallyAt(AggregateOver(pipes, ids), k) ==
                       TallyAt(Bump(AggregateOver(pipes, ids - {x}), KeyOf(px), px.projectName, px.duration), k) { }
    } else {
      var pi := pipes[i];
      var both := ids - {i} - {x};
      assert i in ids - {x};
      assert ids - {x} - {i} == both;
      assert IsLeast(i, ids - {x});
      assert MinId(ids - {x}) == i;
      var inner := AggregateOver(pipes, both);
      var withX := Bump(inner, KeyOf(px), px.projectName, px.duration);
      var withI := Bump(inner, KeyOf(pi), pi.projectName, pi.duration);
      assert AggregateOver(pipes, ids) == Bump(AggregateOver(pipes, ids - {i}), KeyOf(pi), pi.projectName, pi.duration);
      assert AggregateOver(pipes, ids - {x}) == withI;
      AggregateOverRemove(pipes, ids - {i}, x);
      BumpCongruent(AggregateOver(pipes, ids - {i}), withX, KeyOf(pi), pi.projectName, pi.projectName, pi.duration);
      BumpCommute(inner, KeyOf(px), px.projectName, px.duration, KeyOf(pi), pi.projectName, pi.duration);
      SameTalliesTrans(AggregateOver(pipes, ids), Bump(withX, KeyOf(pi), pi.projectName, pi.duration),
                       Bump(withI, KeyOf(px), px.projectName, px.duration));
    }
  }

  /** Bump the buckets of the rows `order`, one after another. */
  function BumpAll(stats: Stats, pipes: Pipelines, order: seq<int>): Stats
    requires forall j :: 0 <= j < |order| ==> order[j] in pipes
  {
    if order == [] then stats
    else
      var p := pipes[order[|order| - 1]];
      Bump(BumpAll(stats, pipes, order[..|order| - 1]), KeyOf(p), p.projectName, p.duration)
  }

  /** A listing of exactly the rows `ids`, each once. */
  ghost predicate Lists(order: seq<int>, ids: set<int>) {
    (forall j :: 0 <= j < |order| ==> order[j] in ids) &&
    (forall i :: i in ids ==> i in order) &&
    (forall j, l :: 0 <= j < l < |order| ==> order[j] != order[l])
  }

  /** Counting the rows in any order gives the aggregation's counters. */
  lemma {:induction false} AggregateAnyOrder(pipes: Pipelines, ids: set<int>, order: seq<int>)
    requires ids <= pipes.Keys && Lists(order, ids)
    ensures SameTallies(AggregateOver(pipes, ids), BumpAll(map[], pipes, order))
    decreases |order|
  {
    if order == [] {
      assert forall i :: i !in ids;
    } else {
      var x := order[|order| - 1];
      var front := order[..|order| - 1];
      assert Lists(front, ids - {x}) by {
        forall i | i in ids - {x} ensures i in front {
          assert i in order;
          var j :| 0 <= j < |order| && order[j] == i;
          assert j != |order| - 1;
          assert front[j] == i;
        }
      }
      AggregateAnyOrder(pipes, ids - {x}, front);
      AggregateOverRemove(pipes, ids, x);
      BumpCongruent(AggregateOver(pipes, ids - {x}), BumpAll(map[], pipes, front),
                    KeyOf(pipes[x]), pipes[x].projectName, pipes[x].projectName, pipes[x].duration);
    }
  }

  /** The summed duration of the rows of bucket `k`, in the listing `order`. */
  function DurationSum(pipes: Pipelines, order: seq<int>, k: BucketKey): int
    requires forall j :: 0 <= j < |order| ==> order[j] in pipes
  {
    if order == [] then 0
    else
      var p := pipes[order[|order| - 1]];
      DurationSum(pipes, order[..|order| - 1], k) + (if KeyOf(p) == k then DurationOr0(p.duration) else 0)
  }

  lemma {:induction false} BumpAllTotal(pipes: Pipelines, order: seq<int>, k: BucketKey)
    requires forall j :: 0 <= j < |order| ==> order[j] in pipes
    ensures TallyAt(BumpAll(map[], pipes, order), k).totalDuration == DurationSum(pipes, order, k)
  {
    if order != [] {
      var p := pipes[order[|order| - 1]];
      BumpAllTotal(pipes, order[..|order| - 1], k);
      BumpAt(BumpAll(map[], pipes, order[..|order| - 1]), KeyOf(p), p.projectName, p.duration, k);
    }
  }

  /** After a rebuild, a bucket's `total_duration` is the sum of the
      durations of its rows, a row without duration adding 0
      (`COALESCE(SUM(duration), 0)`), whichever way the rows are listed. */
  lemma RebuildTotalDuration(stats: Stats, pipes: Pipelines, order: seq<int>, k: BucketKey)
    requires Lists(order, pipes.Keys)
    requires RowsIn(pipes, pipes.Keys, k) != {}
    ensures k in Rebuild(stats, pipes)
    ensures Rebuild(stats, pipes)[k].totalDuration == DurationSum(pipes, order, k)
  {
    AggregateOverCounts(pipes, pipes.Keys, k);
    AggregateAnyOrder(pipes, pipes.Keys, order);
    assert TallyAt(Aggregate(pipes), k) == TallyAt(BumpAll(map[], pipes, order), k);
    BumpAllTotal(pipes, order, k);
  }

  // ----- the statement of backfill_daily_stats as written -----

  /** A group of the SELECT as written, which groups by the project name
      as well as by the bucket's columns. */
  datatype GroupKey = GroupKey(bucket: BucketKey, name: string)

  /** The rows of one group. */
  function GroupRows(pipes: Pipelines, g: GroupKey): (ids: set<int>)
    ensures ids <= pipes.Keys
  {
    set i | i in pipes && KeyOf(pipes[i]) == g.bucket && pipes[i].projectName == g.name
  }

  /** The row a group selects: its name and the counters of its rows alone. */
  function GroupCounters(pipes: Pipelines, g: GroupKey): (c: Counters)
    ensures c.projectName == g.name
    ensures c.count == |GroupRows(pipes, g)|
    ensures c.countWithDuration == |TimedRowsIn(pipes, GroupRows(pipes, g), g.bucket)|
  {
    var ids := GroupRows(pipes, g);
    AggregateOverCounts(pipes, ids, g.bucket);
    AggregateOverTimedCounts(pipes, ids, g.bucket);
    assert RowsIn(pipes, ids, g.bucket) == ids;
    var t := TallyAt(AggregateOver(pipes, ids), g.bucket);
    Counters(g.name, t.count, t.totalDuration, t.countWithDuration)
  }

  /** A group's `total_duration` is the summed duration of its own rows,
      whichever way they are listed. */
  lemma GroupCountersTotal(pipes: Pipelines, g: GroupKey, order: seq<int>)
    requires Lists(order, GroupRows(pipes, g))
    ensures GroupCounters(pipes, g).totalDuration == DurationSum(pipes, order, g.bucket)
  {
    var ids := GroupRows(pipes, g);
    AggregateAnyOrder(pipes, ids, order);
    assert TallyAt(AggregateOver(pipes, ids), g.bucket) == TallyAt(BumpAll(map[], pipes, order), g.bucket);
    BumpAllTotal(pipes, order, g.bucket);
  }

  /** The buckets of the listed groups. */
  function Buckets(groups: seq<GroupKey>): (b: set<BucketKey>)
    ensures forall j :: 0 <= j < |groups| ==> groups[j].bucket in b
    ensures forall k :: k in b ==> exists j :: 0 <= j < |groups| && groups[j].bucket == k
    decreases |groups|
  {
    if groups == [] then {}
    else
      var n := |groups| - 1;
      assert forall j :: 0 <= j < n ==> groups[..n][j] == groups[j];
      Buckets(groups[..n]) + {groups[n].bucket}
  }

  /** `groups[i]` is the last of the listed groups with bucket `k`. */
  predicate LastGroupFor(groups: seq<GroupKey>, k: BucketKey, i: int) {
    0 <= i < |groups| && groups[i].bucket == k &&
    forall j :: i < j < |groups| ==> groups[j].bucket != k
  }

  /** The upserts of the listed groups, one after another: each writes the
      row `row(g)` selected for its group `g` over the row of its bucket. */
  function WriteGroups(stats: Stats, row: GroupKey -> Counters, groups: seq<GroupKey>): (r: Stats)
    ensures groups != [] ==> groups[|groups| - 1].bucket in r && r[groups[|groups| - 1].bucket] == row(groups[|groups| - 1])
    decreases |groups|
  {
    if groups == [] then stats
    else
      var n := |groups| - 1;
      var before := WriteGroups(stats, row, groups[..n]);
      before[groups[n].bucket := row(groups[n])]
  }

  /** The table ends with the stored buckets and those the groups name. */
  lemma {:induction false} WriteGroupsKeys(stats: Stats, row: GroupKey -> Counters, groups: seq<GroupKey>)
    ensures WriteGroups(stats, row, groups).Keys == stats.Keys + Buckets(groups)
    decreases |groups|
  {
    if groups != [] {
      var n := |groups| - 1;
      WriteGroupsKeys(stats, row, groups[..n]);
      UpdateKeys(WriteGroups(stats, row, groups[..n]), groups[n].bucket, row(groups[n]));
    }
  }

  /** A bucket ends with the row of the last group that names it. */
  lemma {:induction false} WriteGroupsAt(stats: Stats, row: GroupKey -> Counters, groups: seq<GroupKey>, k: BucketKey, i: int)
    requires LastGroupFor(groups, k, i)
    ensures k in WriteGroups(stats, row, groups)
    ensures WriteGroups(stats, row, groups)[k] == row(groups[i])
    decreases |groups|
  {
    var n := |groups| - 1;
    if i < n {
      var front := groups[..n];
      assert groups[n].bucket != k;
      assert LastGroupFor(front, k, i) by {
        assert forall j :: i < j < n ==> front[j] == groups[j];
      }
      WriteGroupsAt(stats, row, front, k, i);
    }
  }

  /** A stored bucket that no group names is left as it was. */
  lemma {:induction false} WriteGroupsElsewhere(stats: Stats, row: GroupKey -> Counters, groups: seq<GroupKey>, k: BucketKey)
    requires k in stats && k !in Buckets(groups)
    ensures k in WriteGroups(stats, row, groups) && WriteGroups(stats, row, groups)[k] == stats[k]
    decreases |groups|
  {
    if groups != [] {
      var n := |groups| - 1;
      assert groups[n].bucket in Buckets(groups);
      assert k !in Buckets(groups[..n]);
      WriteGroupsElsewhere(stats, row, groups[..n], k);
    }
  }

  lemma WriteGroupsMeaning(stats: Stats, row: GroupKey -> Counters, groups: seq<GroupKey>)
    ensures forall k, i :: LastGroupFor(groups, k, i) ==>
      k in WriteGroups(stats, row, groups) && WriteGroups(stats, row, groups)[k] == row(groups[i])
    ensures forall k :: k in stats && k !in Buckets(groups) ==>
      k in WriteGroups(stats, row, groups) && WriteGroups(stats, row, groups)[k] == stats[k]
  {
    forall k, i | LastGroupFor(groups, k, i)
      ensures k in WriteGroups(stats, row, groups) && WriteGroups(stats, row, groups)[k] == row(groups[i]) {
      WriteGroupsAt(stats, row, groups, k, i);
    }
    forall k | k in stats && k !in Buckets(groups)
      ensures k in WriteGroups(stats, row, groups) && WriteGroups(stats, row, groups)[k] == stats[k] {
      WriteGroupsElsewhere(stats, row, groups, k);
    }
  }

  /** The groups the engine emits: every group with a row, each once, and no other. */
  ghost predicate GroupsOf(pipes: Pipelines, groups: seq<GroupKey>) {
    (forall j :: 0 <= j < |groups| ==> GroupRows(pipes, groups[j]) != {}) &&
    (forall i :: i in pipes ==> GroupKey(KeyOf(pipes[i]), pipes[i].projectName) in groups) &&
    (forall j, l :: 0 <= j < l < |groups| ==> groups[j] != groups[l])
  }

  /** A group's bucket has rows. */
  lemma BucketHasRows(pipes: Pipelines, groups: seq<GroupKey>, k: BucketKey)
    requires GroupsOf(pipes, groups) && k in Buckets(groups)
    ensures RowsIn(pipes, pipes.Keys, k) != {}
  {
    var j :| 0 <= j < |groups| && groups[j].bucket == k;
    HasElement(GroupRows(pipes, groups[j]));
    var i :| i in GroupRows(pipes, groups[j]);
    assert i in RowsIn(pipes, pipes.Keys, k);
  }

  /** A bucket with rows is the bucket of an emitted group. */
  lemma RowsHaveBucket(pipes: Pipelines, groups: seq<GroupKey>, k: BucketKey)
    requires GroupsOf(pipes, groups) && RowsIn(pipes, pipes.Keys, k) != {}
    ensures exists j :: 0 <= j < |groups| && groups[j].bucket == k
  {
    HasElement(RowsIn(pipes, pipes.Keys, k));
    var i :| i in RowsIn(pipes, pipes.Keys, k);
    var g := GroupKey(KeyOf(pipes[i]), pipes[i].projectName);
    assert g in groups;
    var j :| 0 <= j < |groups| && groups[j] == g;
  }

  /** The emitted groups name exactly the buckets that have rows. */
  lemma BucketsOfGroups(pipes: Pipelines, groups: seq<GroupKey>)
    requires GroupsOf(pipes, groups)
    ensures forall k :: k in Buckets(groups) <==> RowsIn(pipes, pipes.Keys, k) != {}
  {
    forall k ensures k in Buckets(groups) <==> RowsIn(pipes, pipes.Keys, k) != {} {
      if k in Buckets(groups) {
        BucketHasRows(pipes, groups, k);
      }
      if RowsIn(pipes, pipes.Keys, k) != {} {
        RowsHaveBucket(pipes, groups, k);
      }
    }
  }

  /** A bucket named by some listed group has a last such group. */
  lemma {:induction false} LastGroupExists(groups: seq<GroupKey>, k: BucketKey, j: int)
    requires 0 <= j < |groups| && groups[j].bucket == k
    ensures exists i :: LastGroupFor(groups, k, i)
    decreases |groups|
  {
    var n := |groups| - 1;
    if groups[n].bucket == k {
      assert LastGroupFor(groups, k, n);
    } else {
      assert groups[..n][j] == groups[j];
      LastGroupExists(groups[..n], k, j);
      var i :| LastGroupFor(groups[..n], k, i);
      assert LastGroupFor(groups, k, i);
    }
  }

  /** `backfill_daily_stats` as written: the engine emits the groups of the
      SELECT, which groups by the project name as well as by the bucket's
      columns, in some order `groups`; each overwrites the row of its bucket
      (`ON CONFLICT .. DO UPDATE SET count = excluded.count`). A bucket with
      rows ends with the counters of its last group alone; a stored bucket
      without rows is kept as it was. */
  function RebuildAsWritten(stats: Stats, pipes: Pipelines, groups: seq<GroupKey>): (r: Stats)
    requires GroupsOf(pipes, groups)
    ensures forall k :: k in r <==> k in stats || RowsIn(pipes, pipes.Keys, k) != {}
    ensures forall k :: RowsIn(pipes, pipes.Keys, k) != {} ==> exists i :: LastGroupFor(groups, k, i)
    ensures forall k, i :: LastGroupFor(groups, k, i) ==> k in r && r[k] == GroupCounters(pipes, groups[i])
    ensures forall k :: k in stats && RowsIn(pipes, pipes.Keys, k) == {} ==> r[k] == stats[k]
  {
    BucketsOfGroups(pipes, groups);
    LastGroupsExist(pipes, groups);
    var row := g => GroupCounters(pipes, g);
    WriteGroupsMeaning(stats, row, groups);
    WriteGroupsKeys(stats, row, groups);
    WriteGroups(stats, row, groups)
  }

  lemma LastGroupsExist(pipes: Pipelines, groups: seq<GroupKey>)
    requires GroupsOf(pipes, groups)
    ensures forall k :: RowsIn(pipes, pipes.Keys, k) != {} ==> exists i :: LastGroupFor(groups, k, i)
  {
    forall k | RowsIn(pipes, pipes.Keys, k) != {} ensures exists i :: LastGroupFor(groups, k, i) {
      RowsHaveBucket(pipes, groups, k);
      var j :| 0 <= j < |groups| && groups[j].bucket == k;
      LastGroupExists(groups, k, j);
    }
  }

  /** A bucket's counters depend only on the rows of that bucket. */
  lemma {:induction false} AggregateOverBucket(pipes: Pipelines, ids: set<int>, k: BucketKey)
    requires ids <= pipes.Keys
    ensures RowsIn(pipes, ids, k) <= pipes.Keys
    ensures TallyAt(AggregateOver(pipes, ids), k) == TallyAt(AggregateOver(pipes, RowsIn(pipes, ids, k)), k)
    decreases ids
  {
    if ids == {} {
      assert RowsIn(pipes, ids, k) == {};
    } else {
      var i := MinId(ids);
      var rest := ids - {i};
      var p := pipes[i];
      AggregateOverBucket(pipes, rest, k);
      RowsInSplit(pipes, ids, i, k);
      BumpAt(AggregateOver(pipes, rest), KeyOf(p), p.projectName, p.duration, k);
      if KeyOf(p) == k {
        var rows := RowsIn(pipes, ids, k);
        assert rows - {i} == RowsIn(pipes, rest, k);
        AggregateOverRemove(pipes, rows, i);
        var t := TallyAt(AggregateOver(pipes, rest), k);
        var bumped := Tally(t.count + 1, t.totalDuration + DurationOr0(p.duration),
                            t.countWithDuration + if p.duration.Some? then 1 else 0);
        assert TallyAt(AggregateOver(pipes, ids), k) == bumped;
        assert TallyAt(AggregateOver(pipes, RowsIn(pipes, rest, k)), k) == t;
        assert TallyAt(AggregateOver(pipes, rows), k) ==
               TallyAt(Bump(AggregateOver(pipes, rows - {i}), k, p.projectName, p.duration), k);
        assert TallyAt(AggregateOver(pipes, rows), k) == bumped;
      } else {
        assert RowsIn(pipes, ids, k) == RowsIn(pipes, rest, k);
      }
    }
  }

  /** When all rows of bucket `k` carry the name `n`, the aggregation names the bucket `n`. */
  lemma {:induction false} AggregateOverNamed(pipes: Pipelines, ids: set<int>, k: BucketKey, n: string)
    requires ids <= pipes.Keys
    requires forall i :: i in RowsIn(pipes, ids, k) ==> pipes[i].projectName == n
    ensures k in AggregateOver(pipes, ids) ==> AggregateOver(pipes, ids)[k].projectName == n
    decreases ids
  {
    if ids != {} {
      var i := MinId(ids);
      var p := pipes[i];
      RowsInSplit(pipes, ids, i, k);
      AggregateOverNamed(pipes, ids - {i}, k, n);
      BumpAt(AggregateOver(pipes, ids - {i}), KeyOf(p), p.projectName, p.duration, k);
    }
  }

  /** Every bucket's rows carry a single project name (no rename in between). */
  ghost predicate OneNamePerBucket(pipes: Pipelines) {
    forall i, j :: i in pipes && j in pipes && KeyOf(pipes[i]) == KeyOf(pipes[j]) ==>
      pipes[i].projectName == pipes[j].projectName
  }

  lemma AgreeAt(stats: Stats, pipes: Pipelines, groups: seq<GroupKey>, k: BucketKey)
    requires GroupsOf(pipes, groups) && OneNamePerBucket(pipes)
    ensures k in RebuildAsWritten(stats, pipes, groups) <==> k in Rebuild(stats, pipes)
    ensures k in Rebuild(stats, pipes) ==> RebuildAsWritten(stats, pipes, groups)[k] == Rebuild(stats, pipes)[k]
  {
    AggregateOverCounts(pipes, pipes.Keys, k);
    var rows := RowsIn(pipes, pipes.Keys, k);
    if rows != {} {
      LastGroupsExist(pipes, groups);
      var i :| LastGroupFor(groups, k, i);
      var g := groups[i];
      HasElement(GroupRows(pipes, g));
      var x :| x in GroupRows(pipes, g);
      forall y | y in rows ensures y in GroupRows(pipes, g) {
        assert KeyOf(pipes[y]) == KeyOf(pipes[x]);
      }
      assert GroupRows(pipes, g) == rows;
      AggregateOverBucket(pipes, pipes.Keys, k);
      AggregateOverNamed(pipes, pipes.Keys, k, g.name);
      var q := Aggregate(pipes)[k];
      assert TallyAt(Aggregate(pipes), k) == Tally(q.count, q.totalDuration, q.countWithDuration);
    }
  }

  /** When no bucket mixes two project names, the statement as written and
      the rebuild that groups by the bucket produce the same table. */
  lemma RebuildAsWrittenAgrees(stats: Stats, pipes: Pipelines, groups: seq<GroupKey>)
    requires GroupsOf(pipes, groups) && OneNamePerBucket(pipes)
    ensures RebuildAsWritten(stats, pipes, groups) == Rebuild(stats, pipes)
  {
    var r := RebuildAsWritten(stats, pipes, groups);
    var q := Rebuild(stats, pipes);
    forall k ensures (k in r <==> k in q) && (k in q ==> r[k] == q[k]) {
      AgreeAt(stats, pipes, groups, k);
    }
    MapsEqual(r, q);
  }

  /** Maps with the same keys and the same value at each key are equal. */
  lemma MapsEqual<K, V>(a: map<K, V>, b: map<K, V>)
    requires forall k :: k in a <==> k in b
    requires forall k :: k in b ==> a[k] == b[k]
    ensures a == b
  {
  }

  /** The discrepancy on one input: two pipelines of one project, day and
      status, stored under the project's names before and after a rename.
      Whichever of their two groups comes last, the bucket as written counts
      one pipeline; the rebuild that groups by the bucket counts both. */
  lemma RenamedProjectUndercounted(p: Pipeline, groups: seq<GroupKey>)
    requires groups == [GroupKey(KeyOf(p), "old"), GroupKey(KeyOf(p), "new")] ||
             groups == [GroupKey(KeyOf(p), "new"), GroupKey(KeyOf(p), "old")]
    ensures var pipes := map[1 := p.(id := 1, projectName := "old"), 2 := p.(id := 2, projectName := "new")];
            GroupsOf(pipes, groups) &&
            var asWritten := RebuildAsWritten(map[], pipes, groups);
            var rebuilt := Rebuild(map[], pipes);
            KeyOf(p) in asWritten && asWritten[KeyOf(p)].count == 1 &&
            KeyOf(p) in rebuilt && rebuilt[KeyOf(p)].count == 2
  {
    var pipes := map[1 := p.(id := 1, projectName := "old"), 2 := p.(id := 2, projectName := "new")];
    var k := KeyOf(p);
    assert "old" != "new" by { assert "old"[0] != "new"[0]; }
    assert GroupRows(pipes, GroupKey(k, "old")) == {1};
    assert GroupRows(pipes, GroupKey(k, "new")) == {2};
    assert groups[0] in groups && groups[1] in groups;
    assert GroupsOf(pipes, groups);
    assert LastGroupFor(groups, k, 1);
    assert RowsIn(pipes, pipes.Keys, k) == {1, 2};
    RebuildCounts(map[], pipes, k);
  }

  /** Every row of the table is stored under its own id. */
  ghost predicate Keyed(pipes: Pipelines) {
    forall id :: id in pipes ==> pipes[id].id == id
  }

  /** The database: the two tables and the singleton watermark row of
      `poll_state` (an `Option`, so there is never more than one). */
  class Store {
    var pipelines: Pipelines
    var dailyStats: Stats
    var lastPoll: Option<int>

    ghost predicate Valid()
      reads this
    {
      Keyed(pipelines)
    }

    constructor ()
      ensures Valid()
      ensures pipelines == map[] && dailyStats == map[] && lastPoll == None
    {
      pipelines := map[];
      dailyStats := map[];
      lastPoll := None;
    }

    /** `get_last_poll`: the stored watermark, or an error when the read fails. */
    method GetLastPoll(readOk: bool) returns (r: Result<Option<int>, string>)
      ensures r.Ok? <==> readOk
      ensures r.Ok? ==> r.value == lastPoll
    {
      if readOk {
        r := Ok(lastPoll);
      } else {
        r := Err("failed to read poll_state");
      }
    }

    /** `set_last_poll`: the upsert of row 1 overwrites the watermark. */
    method SetLastPoll(ts: int, writeOk: bool) returns (r: Result<(), string>)
      modifies this`lastPoll
      ensures r.Ok? <==> writeOk
      ensures lastPoll == if writeOk then Some(ts) else old(lastPoll)
    {
      if writeOk {
        lastPoll := Some(ts);
        r := Ok(());
      } else {
        r := Err("failed to write poll_state");
      }
    }

    /** The watermark step of `init_db`: the current time is written only when
        no watermark is stored; a failed read or write is returned as an error. */
    method InitDb(now: int, readOk: bool, writeOk: bool) returns (r: Result<(), string>)
      modifies this`lastPoll
      ensures lastPoll == if readOk && old(lastPoll).None? && writeOk then Some(now) else old(lastPoll)
      ensures r.Ok? <==> readOk && (old(lastPoll).Some? || writeOk)
    {
      var stored := GetLastPoll(readOk);
      if stored.Err? {
        return Err(stored.error);
      }
      if stored.value.None? {
        var written := SetLastPoll(now, writeOk);
        if written.Err? {
          return Err(written.error);
        }
      }
      r := Ok(());
    }

    /** `backfill_daily_stats`: one transaction holding the aggregating
        upsert as written, fed the groups in the order `groups` in which the
        engine emits them. Only when begin, statement and commit all succeed
        does `daily_stats` change, and then to what the statement writes;
        when no bucket mixes two project names that is the rebuild by key. */
    method BackfillDailyStats(groups: seq<GroupKey>, beginOk: bool, execOk: bool, commitOk: bool)
      returns (r: Result<(), string>)
      requires GroupsOf(pipelines, groups)
      modifies this`dailyStats
      ensures r.Ok? <==> beginOk && execOk && commitOk
      ensures dailyStats == if r.Ok? then RebuildAsWritten(old(dailyStats), pipelines, groups) else old(dailyStats)
      ensures r.Ok? && OneNamePerBucket(pipelines) ==> dailyStats == Rebuild(old(dailyStats), pipelines)
    {
      if !beginOk {
        return Err("failed to begin transaction");
      }
      var tx := RebuildAsWritten(dailyStats, pipelines, groups);
      if OneNamePerBucket(pipelines) {
        RebuildAsWrittenAgrees(dailyStats, pipelines, groups);
      }
      if !execOk {
        return Err("aggregation statement failed");
      }
      if !commitOk {
        return Err("commit failed");
      }
      dailyStats := tx;
      r := Ok(());
    }
  }
}
