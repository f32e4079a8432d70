/** The ingestion side of src/monitor.rs: `insert_pipeline` (the upsert
    of one pipeline with the incremental maintenance of `daily_stats`,
    inside one transaction), the per-group watermark step of the polling
    loop, one batch of the user-name backfill, and the initial backfill.
    Every database statement and every remote call is an outcome passed
    in, so that each failure path is explicit. */
module Monitor {
  import opened Wrappers
  import opened Text
  import opened Models
  import opened Db
  import opened GitlabTypes
  import opened GitlabOps
  import GitlabGraphql

  // ----- insert_pipeline: the pure effect on the two tables -----

  /** The `ON CONFLICT(id) DO UPDATE` of the `pipelines` upsert: the row
      already stored under the id is `stored`, the new record `incoming`. */
  function MergeRow(stored: Pipeline, incoming: Pipeline): (r: Pipeline)
    // columns the update does not name keep their first values
    ensures r.id == stored.id && r.projectId == stored.projectId
    ensures r.projectName == stored.projectName && r.projectFullPath == stored.projectFullPath
    ensures r.refName == stored.refName && r.createdAt == stored.createdAt
    // always replaced
    ensures r.sha == incoming.sha && r.userName == incoming.userName
    // the stored status survives only an unfinished report of a finished pipeline
    ensures r.status == (if incoming.finishedAt.None? && stored.finishedAt.Some? then stored.status else incoming.status)
    // present incoming values win, absent ones never erase
    ensures incoming.finishedAt.Some? ==> r.finishedAt == incoming.finishedAt
    ensures incoming.finishedAt.None? ==> r.finishedAt == stored.finishedAt
    ensures incoming.duration.Some? ==> r.duration == incoming.duration
    ensures incoming.duration.None? ==> r.duration == stored.duration
    ensures incoming.webUrl.Some? ==> r.webUrl == incoming.webUrl
    ensures incoming.webUrl.None? ==> r.webUrl == stored.webUrl
  {
    stored.(
      status := if incoming.finishedAt.None? && stored.finishedAt.Some? then stored.status else incoming.status,
      finishedAt := if incoming.finishedAt.Some? then incoming.finishedAt else stored.finishedAt,
      sha := incoming.sha,
      duration := if incoming.duration.Some? then incoming.duration else stored.duration,
      webUrl := if incoming.webUrl.Some? then incoming.webUrl else stored.webUrl,
      userName := incoming.userName)
  }

  /** Once present, `finished_at`, `duration` and `web_url` stay present. */
  lemma MergeNeverErases(stored: Pipeline, incoming: Pipeline)
    ensures stored.finishedAt.Some? ==> MergeRow(stored, incoming).finishedAt.Some?
    ensures stored.duration.Some? ==> MergeRow(stored, incoming).duration.Some?
    ensures stored.webUrl.Some? ==> MergeRow(stored, incoming).webUrl.Some?
  {
  }

  /** Delivering the same record twice stores what delivering it once does. */
  lemma MergeIdempotent(stored: Pipeline, incoming: Pipeline)
    ensures MergeRow(MergeRow(stored, incoming), incoming) == MergeRow(stored, incoming)
  {
  }

  /** The stored row under an id, as the `SELECT .. WHERE id = ?` returns it. */
  function Existing(pipes: Pipelines, id: int): (r: Option<Pipeline>)
    ensures r.Some? <==> id in pipes
    ensures r.Some? ==> r.value == pipes[id]
  {
    if id in pipes then Some(pipes[id]) else None
  }

  /** The `pipelines` table after the upsert of `p`. */
  function Upsert(pipes: Pipelines, p: Pipeline): (r: Pipelines)
    ensures r.Keys == pipes.Keys + {p.id}
    ensures p.id !in pipes ==> r[p.id] == p
    ensures p.id in pipes ==> r[p.id] == MergeRow(pipes[p.id], p)
  {
    if p.id in pipes then pipes[p.id := MergeRow(pipes[p.id], p)] else pipes[p.id := p]
  }

  /** Rows under other ids are untouched by the upsert. */
  lemma UpsertFrame(pipes: Pipelines, p: Pipeline, i: int)
    requires i in pipes && i != p.id
    ensures Upsert(pipes, p)[i] == pipes[i]
  {
  }

  /** The bucket the old row is counted in when the status changes:
      its own day and status, with the incoming project id. */
  function OldKey(stored: Pipeline, p: Pipeline): BucketKey {
    BucketKey(Day(stored.createdAt), p.projectId, stored.status)
  }

  /** The counter update of the same-status branch, from the stored and
      the incoming duration (`None` when the branch executes no statement). */
  function DurationUpdate(od: Option<int>, nd: Option<int>): Option<Tally> {
    match (od, nd)
    case (Some(o), Some(n)) => if n - o != 0 then Some(Tally(0, n - o, 0)) else None
    case (None, Some(n)) => Some(Tally(0, n, 1))
    case (Some(o), None) => Some(Tally(0, -o, -1))
    case (None, None) => None
  }

  /** What replacing a row of duration `od` by one of duration `nd` changes
      in a bucket's counters: the new contribution minus the old one. */
  function Change(od: Option<int>, nd: Option<int>): (r: Tally)
    ensures r.count == Contribution(nd).count + Removal(od).count
    ensures r.totalDuration == Contribution(nd).totalDuration + Removal(od).totalDuration
    ensures r.countWithDuration == Contribution(nd).countWithDuration + Removal(od).countWithDuration
  {
    Tally(0, DurationOr0(nd) - DurationOr0(od), (if nd.Some? then 1 else 0) - (if od.Some? then 1 else 0))
  }

  /** The four cases of the same-status branch amount to one rule: no
      statement when the duration is unchanged (the change is then zero),
      and otherwise exactly the change. */
  lemma DurationUpdateIsChange(od: Option<int>, nd: Option<int>)
    ensures DurationUpdate(od, nd).None? <==> od == nd
    ensures DurationUpdate(od, nd).Some? ==> DurationUpdate(od, nd).value == Change(od, nd)
    ensures DurationUpdate(od, nd).None? ==> Change(od, nd) == Tally(0, 0, 0)
  {
    DurationUpdateNone(od, nd);
    DurationUpdateSome(od, nd);
    if od == nd {
      ChangeSelf(od);
    }
  }

  lemma DurationUpdateNone(od: Option<int>, nd: Option<int>)
    ensures DurationUpdate(od, nd).None? <==> od == nd
  {
  }

  lemma DurationUpdateSome(od: Option<int>, nd: Option<int>)
    ensures DurationUpdate(od, nd).Some? ==> DurationUpdate(od, nd).value == Change(od, nd)
  {
  }

  /** Replacing a duration by itself changes nothing. */
  lemma ChangeSelf(d: Option<int>)
    ensures Change(d, d) == Tally(0, 0, 0)
  {
  }

  /** The `daily_stats` statements of `insert_pipeline`, applied to `stats`,
      where `existing` is the row read before the upsert. */
  function StatsAfterInsert(stats: Stats, existing: Option<Pipeline>, p: Pipeline): Stats {
    match existing
    case None => Bump(stats, KeyOf(p), p.projectFullPath, p.duration)
    case Some(o) =>
      if o.status == p.status then
        match DurationUpdate(o.duration, p.duration)
        case None => stats
        case Some(delta) => Adjust(stats, KeyOf(p), delta)
      else
        var removed := Adjust(stats, OldKey(o, p), Removal(o.duration));
        Bump(removed, KeyOf(p), p.projectFullPath, p.duration)
  }

  /** How many `daily_stats` statements the branch taken executes. */
  function StatementsNeeded(existing: Option<Pipeline>, p: Pipeline): (n: nat)
    ensures n <= 2
    ensures n == 0 <==> (existing.Some? && existing.value.status == p.status && existing.value.duration == p.duration)
    ensures n == 2 <==> (existing.Some? && existing.value.status != p.status)
  {
    match existing
    case None => 1
    case Some(o) =>
      if o.status == p.status then
        DurationUpdateIsChange(o.duration, p.duration);
        if DurationUpdate(o.duration, p.duration).Some? then 1 else 0
      else 2
  }

  /** A new pipeline: its bucket is created if missing and gains one
      pipeline with its duration, under the name `project_full_path`;
      no other bucket changes. */
  lemma NewRowBucket(stats: Stats, p: Pipeline, j: BucketKey)
    ensures j in StatsAfterInsert(stats, None, p) <==> j in stats || j == KeyOf(p)
    ensures StatsAfterInsert(stats, None, p)[KeyOf(p)].projectName == p.projectFullPath
    ensures j == KeyOf(p) ==> var t := TallyAt(stats, j);
      TallyAt(StatsAfterInsert(stats, None, p), j) ==
      Tally(t.count + 1, t.totalDuration + DurationOr0(p.duration), t.countWithDuration + if p.duration.Some? then 1 else 0)
    ensures j != KeyOf(p) ==> TallyAt(StatsAfterInsert(stats, None, p), j) == TallyAt(stats, j)
  {
    BumpAt(stats, KeyOf(p), p.projectFullPath, p.duration, j);
  }

  lemma SameStatusUnfold(stats: Stats, o: Pipeline, p: Pipeline)
    requires o.status == p.status
    ensures StatsAfterInsert(stats, Some(o), p) ==
      (if DurationUpdate(o.duration, p.duration).Some? then Adjust(stats, KeyOf(p), DurationUpdate(o.duration, p.duration).value) else stats)
  {
  }

  /** Same status: the bucket of the incoming day changes by the new
      contribution minus the old one, when that bucket exists; nothing is
      created and no other bucket changes. */
  lemma SameStatusBucket(stats: Stats, o: Pipeline, p: Pipeline, j: BucketKey)
    requires o.status == p.status
    ensures j in StatsAfterInsert(stats, Some(o), p) <==> j in stats
    ensures j == KeyOf(p) && j in stats ==> var t := TallyAt(stats, j); var c := Change(o.duration, p.duration);
      TallyAt(StatsAfterInsert(stats, Some(o), p), j) ==
      Tally(t.count + c.count, t.totalDuration + c.totalDuration, t.countWithDuration + c.countWithDuration)
    ensures !(j == KeyOf(p) && j in stats) ==> TallyAt(StatsAfterInsert(stats, Some(o), p), j) == TallyAt(stats, j)
  {
    SameStatusUnfold(stats, o, p);
    DurationUpdateIsChange(o.duration, p.duration);
    OptionalAdjustAt(stats, KeyOf(p), DurationUpdate(o.duration, p.duration), Change(o.duration, p.duration), j);
  }

  lemma OptionalAdjustAt<K(!new)>(stats: map<K, Counters>, k: K, u: Option<Tally>, diff: Tally, j: K)
    requires u.Some? ==> u.value == diff
    requires u.None? ==> diff == Tally(0, 0, 0)
    ensures j in (if u.Some? then Adjust(stats, k, u.value) else stats) <==> j in stats
    ensures j == k && j in stats ==> var t := TallyAt(stats, j);
      TallyAt(if u.Some? then Adjust(stats, k, u.value) else stats, j) ==
      Tally(t.count + diff.count, t.totalDuration + diff.totalDuration, t.countWithDuration + diff.countWithDuration)
    ensures !(j == k && j in stats) ==> TallyAt(if u.Some? then Adjust(stats, k, u.value) else stats, j) == TallyAt(stats, j)
  {
    if u.Some? {
      AdjustAt(stats, k, u.value, j);
    }
  }

  /** Status changed: the old bucket, if it exists, loses exactly the old
      row's contribution; the new bucket is created if missing and gains
      the incoming contribution under the name `project_full_path`. */
  lemma StatusChangeBuckets(stats: Stats, o: Pipeline, p: Pipeline, j: BucketKey)
    requires o.status != p.status
    ensures j in StatsAfterInsert(stats, Some(o), p) <==> j in stats || j == KeyOf(p)
    ensures StatsAfterInsert(stats, Some(o), p)[KeyOf(p)].projectName == p.projectFullPath
    ensures j == OldKey(o, p) && j in stats ==> var t := TallyAt(stats, j);
      TallyAt(StatsAfterInsert(stats, Some(o), p), j) ==
      Tally(t.count - 1, t.totalDuration - DurationOr0(o.duration), t.countWithDuration - if o.duration.Some? then 1 else 0)
    ensures j == KeyOf(p) ==> var t := TallyAt(stats, j);
      TallyAt(StatsAfterInsert(stats, Some(o), p), j) ==
      Tally(t.count + 1, t.totalDuration + DurationOr0(p.duration), t.countWithDuration + if p.duration.Some? then 1 else 0)
    ensures j != OldKey(o, p) && j != KeyOf(p) ==> TallyAt(StatsAfterInsert(stats, Some(o), p), j) == TallyAt(stats, j)
    ensures j == OldKey(o, p) && j !in stats ==> TallyAt(StatsAfterInsert(stats, Some(o), p), j) == TallyAt(stats, j)
  {
    assert OldKey(o, p).status != KeyOf(p).status;
    AdjustThenBumpAt(stats, OldKey(o, p), Removal(o.duration), KeyOf(p), p.projectFullPath, p.duration, j);
  }

  lemma AdjustThenBumpAt<K(!new)>(stats: map<K, Counters>, k1: K, delta: Tally, k2: K, name: string, d: Option<int>, j: K)
    requires k1 != k2
    ensures j in Bump(Adjust(stats, k1, delta), k2, name, d) <==> j in stats || j == k2
    ensures Bump(Adjust(stats, k1, delta), k2, name, d)[k2].projectName == name
    ensures j == k1 && j in stats ==> var t := TallyAt(stats, j);
      TallyAt(Bump(Adjust(stats, k1, delta), k2, name, d), j) ==
      Tally(t.count + delta.count, t.totalDuration + delta.totalDuration, t.countWithDuration + delta.countWithDuration)
    ensures j == k2 ==> var t := TallyAt(stats, j);
      TallyAt(Bump(Adjust(stats, k1, delta), k2, name, d), j) ==
      Tally(t.count + 1, t.totalDuration + DurationOr0(d), t.countWithDuration + if d.Some? then 1 else 0)
    ensures !(j == k1 && j in stats) && j != k2 ==> TallyAt(Bump(Adjust(stats, k1, delta), k2, name, d), j) == TallyAt(stats, j)
  {
    var removed := Adjust(stats, k1, delta);
    AdjustAt(stats, k1, delta, j);
    AdjustAt(stats, k1, delta, k2);
    BumpAt(removed, k2, name, d, j);
  }

  /** Re-inserting exactly the stored row executes no counter statement and
      changes neither table. */
  lemma ReinsertIdentical(pipes: Pipelines, stats: Stats, p: Pipeline)
    requires p.id in pipes && pipes[p.id] == p
    ensures StatementsNeeded(Existing(pipes, p.id), p) == 0
    ensures Upsert(pipes, p) == pipes
    ensures StatsAfterInsert(stats, Existing(pipes, p.id), p) == stats
  {
    assert MergeRow(p, p) == p;
  }

  lemma SameTalliesSym<K(!new)>(a: map<K, Counters>, b: map<K, Counters>)
    requires SameTallies(a, b)
    ensures SameTallies(b, a)
  {
    forall k ensures TallyAt(b, k) == TallyAt(a, k) {
      assert TallyAt(a, k) == TallyAt(b, k);
    }
  }

  /** Inserting a pipeline with an unseen id keeps the counters equal to
      what a full rebuild would compute (the names of buckets aside: the
      insert writes `project_full_path`, the rebuild `project_name`). */
  lemma InsertUnseenAgrees(pipes: Pipelines, stats: Stats, p: Pipeline)
    requires p.id !in pipes
    requires SameTallies(stats, Aggregate(pipes))
    ensures SameTallies(StatsAfterInsert(stats, Existing(pipes, p.id), p), Aggregate(Upsert(pipes, p)))
  {
    var after := Upsert(pipes, p);
    assert after == pipes[p.id := p];
    assert after.Keys - {p.id} == pipes.Keys;
    AggregateOverRemove(after, after.Keys, p.id);
    AggregateOverFrame(after, pipes, pipes.Keys);
    var bumped := Bump(Aggregate(pipes), KeyOf(p), p.projectName, p.duration);
    assert SameTallies(Aggregate(after), bumped);
    BumpCongruent(stats, Aggregate(pipes), KeyOf(p), p.projectFullPath, p.projectName, p.duration);
    SameTalliesSym(Aggregate(after), bumped);
    SameTalliesTrans(StatsAfterInsert(stats, None, p), bumped, Aggregate(after));
  }

  // ----- insert_pipeline: the transaction -----

  /** The two tables, as one value. */
  datatype Tables = Tables(pipelines: Pipelines, dailyStats: Stats)

  /** Whether each step of the transaction succeeds: begin, the read of the
      existing row, the upsert, the first and second counter statement (when
      the branch executes them) and commit. */
  datatype TxOutcomes = TxOutcomes(begin: bool, read: bool, upsert: bool, firstUpdate: bool, secondUpdate: bool, commit: bool)

  /** The transaction commits iff every statement it executes succeeds. */
  predicate Commits(tx: TxOutcomes, statements: nat) {
    tx.begin && tx.read && tx.upsert && (statements >= 1 ==> tx.firstUpdate) &&
    (statements >= 2 ==> tx.secondUpdate) && tx.commit
  }

  /** `insert_pipeline` on the tables: both change together on commit, and
      on any failure (rolled back, or dropped uncommitted) neither does. */
  function InsertStep(t: Tables, p: Pipeline, tx: TxOutcomes): Tables {
    var existing := Existing(t.pipelines, p.id);
    if Commits(tx, StatementsNeeded(existing, p))
    then Tables(Upsert(t.pipelines, p), StatsAfterInsert(t.dailyStats, existing, p))
    else t
  }

  /** A failure in any step leaves both tables as they were; a commit
      applies the upsert and the counter statements together. */
  lemma InsertAtomic(t: Tables, p: Pipeline, tx: TxOutcomes)
    ensures !Commits(tx, StatementsNeeded(Existing(t.pipelines, p.id), p)) ==> InsertStep(t, p, tx) == t
    ensures Commits(tx, StatementsNeeded(Existing(t.pipelines, p.id), p)) ==>
      InsertStep(t, p, tx).pipelines == Upsert(t.pipelines, p) &&
      InsertStep(t, p, tx).dailyStats == StatsAfterInsert(t.dailyStats, Existing(t.pipelines, p.id), p)
  {
  }

  /** The upsert keeps every row under its own id. */
  lemma UpsertKeyed(pipes: Pipelines, p: Pipeline)
    requires Keyed(pipes)
    ensures Keyed(Upsert(pipes, p))
  {
    forall id | id in Upsert(pipes, p) ensures Upsert(pipes, p)[id].id == id {
      if id != p.id {
        UpsertFrame(pipes, p, id);
      }
    }
  }

  /** `insert_pipeline`: the steps of the transaction in the order of the
      source, each failure returning before commit. */
  method InsertPipeline(db: Store, p: Pipeline, tx: TxOutcomes) returns (committed: bool)
    requires db.Valid()
    modifies db`pipelines, db`dailyStats
    ensures db.Valid()
    ensures committed == Commits(tx, StatementsNeeded(Existing(old(db.pipelines), p.id), p))
    ensures Tables(db.pipelines, db.dailyStats) == InsertStep(Tables(old(db.pipelines), old(db.dailyStats)), p, tx)
  {
    committed := false;
    if !tx.begin {
      return;
    }
    if !tx.read {
      return;
    }
    var existing := Existing(db.pipelines, p.id);
    if !tx.upsert {
      return;
    }
    var pipes := Upsert(db.pipelines, p);
    var stats := db.dailyStats;
    match existing {
      case None =>
        if !tx.firstUpdate {
          return;
        }
        stats := Bump(stats, KeyOf(p), p.projectFullPath, p.duration);
      case Some(o) =>
        if o.status == p.status {
          var update := DurationUpdate(o.duration, p.duration);
          if update.Some? {
            if !tx.firstUpdate {
              return;
            }
            stats := Adjust(stats, KeyOf(p), update.value);
          }
        } else {
          if !tx.firstUpdate {
            return;
          }
          stats := Adjust(stats, OldKey(o, p), Removal(o.duration));
          if !tx.secondUpdate {
            return;
          }
          stats := Bump(stats, KeyOf(p), p.projectFullPath, p.duration);
        }
    }
    if !tx.commit {
      return;
    }
    UpsertKeyed(db.pipelines, p);
    db.pipelines := pipes;
    db.dailyStats := stats;
    committed := true;
  }

  // ----- generic folds over sequences -----

  /** `step` applied to each element of `xs` in order, the `k`-th element
      being numbered `from + k`. */
  function Steps<S, A>(s: S, xs: seq<A>, step: (S, A, nat) -> S, from: nat): S
    decreases |xs|
  {
    if xs == [] then s
    else step(Steps(s, xs[..|xs| - 1], step, from), xs[|xs| - 1], from + |xs| - 1)
  }

  lemma StepsSnoc<S, A>(s: S, xs: seq<A>, x: A, step: (S, A, nat) -> S, from: nat)
    ensures Steps(s, xs + [x], step, from) == step(Steps(s, xs, step, from), x, from + |xs|)
  {
    assert (xs + [x])[..|xs|] == xs;
  }

  lemma {:induction false} StepsAppend<S, A>(s: S, a: seq<A>, b: seq<A>, step: (S, A, nat) -> S, from: nat)
    ensures Steps(s, a + b, step, from) == Steps(Steps(s, a, step, from), b, step, from + |a|)
    decreases |b|
  {
    if b == [] {
      assert a + b == a;
    } else {
      var init := b[..|b| - 1];
      assert (a + b)[..|a + b| - 1] == a + init;
      assert (a + b)[|a + b| - 1] == b[|b| - 1];
      StepsAppend(s, a, init, step, from);
    }
  }

  /** The elements of `xs` that `keep` admits, each mapped by `conv`, in order. */
  function Keep<A, B>(xs: seq<A>, keep: A -> bool, conv: A -> B): seq<B>
    decreases |xs|
  {
    if xs == [] then []
    else Keep(xs[..|xs| - 1], keep, conv) + (if keep(xs[|xs| - 1]) then [conv(xs[|xs| - 1])] else [])
  }

  lemma KeepSnoc<A, B>(xs: seq<A>, x: A, keep: A -> bool, conv: A -> B)
    ensures Keep(xs + [x], keep, conv) == Keep(xs, keep, conv) + (if keep(x) then [conv(x)] else [])
  {
    assert (xs + [x])[..|xs|] == xs;
  }

  lemma {:induction false} KeepExactly<A, B>(xs: seq<A>, keep: A -> bool, conv: A -> B, y: B)
    ensures y in Keep(xs, keep, conv) <==> exists j :: 0 <= j < |xs| && keep(xs[j]) && y == conv(xs[j])
    decreases |xs|
  {
    if xs != [] {
      var n := |xs| - 1;
      var init := xs[..n];
      var tail := if keep(xs[n]) then [conv(xs[n])] else [];
      KeepExactly(init, keep, conv, y);
      if y in Keep(xs, keep, conv) && y !in tail {
        var j :| 0 <= j < |init| && keep(init[j]) && y == conv(init[j]);
        assert xs[j] == init[j];
      }
      if exists j :: 0 <= j < |xs| && keep(xs[j]) && y == conv(xs[j]) {
        var j :| 0 <= j < |xs| && keep(xs[j]) && y == conv(xs[j]);
        if j < n {
          assert init[j] == xs[j];
        } else {
          assert y in tail;
        }
      }
    }
  }

  /** The sequences `f` gives for the elements of `xs`, one after another. */
  function Concat<A, B>(xs: seq<A>, f: A -> seq<B>): seq<B>
    decreases |xs|
  {
    if xs == [] then [] else Concat(xs[..|xs| - 1], f) + f(xs[|xs| - 1])
  }

  lemma ConcatSnoc<A, B>(xs: seq<A>, x: A, f: A -> seq<B>)
    ensures Concat(xs + [x], f) == Concat(xs, f) + f(x)
  {
    assert (xs + [x])[..|xs|] == xs;
  }

  lemma {:induction false} ConcatExactly<A, B>(xs: seq<A>, f: A -> seq<B>, y: B)
    ensures y in Concat(xs, f) <==> exists i :: 0 <= i < |xs| && y in f(xs[i])
    decreases |xs|
  {
    if xs != [] {
      var n := |xs| - 1;
      var init := xs[..n];
      ConcatExactly(init, f, y);
      if y in Concat(xs, f) && y !in f(xs[n]) {
        var i :| 0 <= i < |init| && y in f(init[i]);
        assert xs[i] == init[i];
      }
      if exists i :: 0 <= i < |xs| && y in f(xs[i]) {
        var i :| 0 <= i < |xs| && y in f(xs[i]);
        if i < n {
          assert init[i] == xs[i];
        }
      }
    }
  }

  // ----- sequences of inserts -----

  /** A sequence of inserts, each with its own transaction: the `k`-th row
      of `rows` meets the outcomes `tx(from + k)`. */
  function InsertAll(t: Tables, rows: seq<Pipeline>, tx: nat -> TxOutcomes, from: nat): Tables {
    Steps(t, rows, (u: Tables, p: Pipeline, k: nat) => InsertStep(u, p, tx(k)), from)
  }

  lemma InsertAllSnoc(t: Tables, rows: seq<Pipeline>, p: Pipeline, tx: nat -> TxOutcomes, from: nat)
    ensures InsertAll(t, rows + [p], tx, from) == InsertStep(InsertAll(t, rows, tx, from), p, tx(from + |rows|))
  {
    StepsSnoc(t, rows, p, (u: Tables, p: Pipeline, k: nat) => InsertStep(u, p, tx(k)), from);
  }

  lemma InsertAllAppend(t: Tables, a: seq<Pipeline>, b: seq<Pipeline>, tx: nat -> TxOutcomes, from: nat)
    ensures InsertAll(t, a + b, tx, from) == InsertAll(InsertAll(t, a, tx, from), b, tx, from + |a|)
  {
    StepsAppend(t, a, b, (u: Tables, p: Pipeline, k: nat) => InsertStep(u, p, tx(k)), from);
  }

  /** Inserts only ever add rows: the stored ids afterwards are the ids
      before and some of the inserted ones. */
  lemma {:induction false} InsertAllKeys(t: Tables, rows: seq<Pipeline>, tx: nat -> TxOutcomes, from: nat, id: int)
    requires id in InsertAll(t, rows, tx, from).pipelines
    ensures id in t.pipelines || exists k :: 0 <= k < |rows| && rows[k].id == id
    decreases |rows|
  {
    if rows != [] {
      var init := rows[..|rows| - 1];
      var before := InsertAll(t, init, tx, from);
      assert rows == init + [rows[|rows| - 1]];
      InsertAllSnoc(t, init, rows[|rows| - 1], tx, from);
      if id in before.pipelines {
        InsertAllKeys(t, init, tx, from, id);
        if !(id in t.pipelines) {
          var k :| 0 <= k < |init| && init[k].id == id;
          assert rows[k].id == id;
        }
      } else {
        assert rows[|rows| - 1].id == id;
      }
    }
  }

  /** Starting from counters that agree with a rebuild, a sequence of
      inserts of pipelines with distinct, unseen ids keeps them in
      agreement (whatever the transactions' outcomes: a failed one changes
      nothing). */
  lemma {:induction false} InsertAllUnseenAgrees(t: Tables, rows: seq<Pipeline>, tx: nat -> TxOutcomes, from: nat)
    requires SameTallies(t.dailyStats, Aggregate(t.pipelines))
    requires forall k :: 0 <= k < |rows| ==> rows[k].id !in t.pipelines
    requires forall k, l :: 0 <= k < l < |rows| ==> rows[k].id != rows[l].id
    ensures SameTallies(InsertAll(t, rows, tx, from).dailyStats, Aggregate(InsertAll(t, rows, tx, from).pipelines))
    decreases |rows|
  {
    if rows != [] {
      var init := rows[..|rows| - 1];
      var p := rows[|rows| - 1];
      InsertAllUnseenAgrees(t, init, tx, from);
      var before := InsertAll(t, init, tx, from);
      assert rows == init + [p];
      InsertAllSnoc(t, init, p, tx, from);
      if p.id in before.pipelines {
        InsertAllKeys(t, init, tx, from, p.id);
        assert false;
      }
      InsertStepUnseenAgrees(before, p, tx(from + |init|));
    }
  }

  /** One insert of an unseen id, committed or not, keeps the counters in
      agreement with a rebuild. */
  lemma InsertStepUnseenAgrees(t: Tables, p: Pipeline, tx: TxOutcomes)
    requires p.id !in t.pipelines
    requires SameTallies(t.dailyStats, Aggregate(t.pipelines))
    ensures SameTallies(InsertStep(t, p, tx).dailyStats, Aggregate(InsertStep(t, p, tx).pipelines))
  {
    if Commits(tx, StatementsNeeded(Existing(t.pipelines, p.id), p)) {
      InsertUnseenAgrees(t.pipelines, t.dailyStats, p);
    }
  }

  // ----- start_monitor_loop: the watermark step of one polling cycle -----

  /** The branch filter: `None` when no regular expression is configured
      or it does not compile, else whether a ref name matches it. */
  type BranchFilter = Option<string -> bool>

  predicate Admits(filter: BranchFilter, refName: string) {
    filter.None? || filter.value(refName)
  }

  /** The row the poll loop stores for one GraphQL pipeline of a project. */
  function PolledRow(proj: ProjectPipelineInfo, pipe: PipelineInfo, parse: string -> Option<int>): Pipeline {
    InfoToDb(pipe, AsI64(proj.id), proj.name, proj.fullPath, parse)
  }

  /** The rows the poll loop inserts for one project: every pipeline the
      filter admits, converted with the project's id, name and path, in
      order. */
  function ProjectRows(proj: ProjectPipelineInfo, pipes: seq<PipelineInfo>, filter: BranchFilter,
                       parse: string -> Option<int>): seq<Pipeline>
  {
    Keep(pipes, (pipe: PipelineInfo) => Admits(filter, pipe.refName), (pipe: PipelineInfo) => PolledRow(proj, pipe, parse))
  }

  /** The rows of a whole fetch, project after project. */
  function PollRows(projects: seq<ProjectPipelineInfo>, filter: BranchFilter, parse: string -> Option<int>): seq<Pipeline> {
    Concat(projects, (proj: ProjectPipelineInfo) => ProjectRows(proj, proj.pipelines, filter, parse))
  }

  lemma ProjectRowsSnoc(proj: ProjectPipelineInfo, pipes: seq<PipelineInfo>, pipe: PipelineInfo, filter: BranchFilter,
                        parse: string -> Option<int>)
    ensures ProjectRows(proj, pipes + [pipe], filter, parse)
         == ProjectRows(proj, pipes, filter, parse) + (if Admits(filter, pipe.refName) then [PolledRow(proj, pipe, parse)] else [])
  {
    KeepSnoc(pipes, pipe, (pipe: PipelineInfo) => Admits(filter, pipe.refName), (pipe: PipelineInfo) => PolledRow(proj, pipe, parse));
  }


  /** A row is inserted for a project exactly when it is the conversion of
      one of its pipelines that the filter admits. */
  lemma ProjectRowsExactly(proj: ProjectPipelineInfo, pipes: seq<PipelineInfo>, filter: BranchFilter,
                           parse: string -> Option<int>, r: Pipeline)
    ensures r in ProjectRows(proj, pipes, filter, parse) <==>
      exists j :: 0 <= j < |pipes| && Admits(filter, pipes[j].refName) && r == PolledRow(proj, pipes[j], parse)
  {
    KeepExactly(pipes, (pipe: PipelineInfo) => Admits(filter, pipe.refName), (pipe: PipelineInfo) => PolledRow(proj, pipe, parse), r);
  }

  /** A row is inserted for a fetch exactly when it is inserted for one of
      its projects. */
  lemma PollRowsExactly(projects: seq<ProjectPipelineInfo>, filter: BranchFilter,
                        parse: string -> Option<int>, r: Pipeline)
    ensures r in PollRows(projects, filter, parse) <==>
      exists i :: 0 <= i < |projects| && r in ProjectRows(projects[i], projects[i].pipelines, filter, parse)
  {
    ConcatExactly(projects, (proj: ProjectPipelineInfo) => ProjectRows(proj, proj.pipelines, filter, parse), r);
  }

  /** What one group's poll meets: the time taken at its start, whether the
      watermark read succeeds, the fetch's reply for each lower bound,
      whether the watermark write succeeds, and each insert's transaction. */
  datatype GroupPoll = GroupPoll(
    pollTime: int,
    readOk: bool,
    fetch: int -> Result<seq<ProjectPipelineInfo>, string>,
    writeOk: bool,
    tx: nat -> TxOutcomes)

  /** The tables and the watermark together. */
  datatype Snapshot = Snapshot(tables: Tables, lastPoll: Option<int>)

  /** The lower bound of a group's fetch: the stored watermark when it is
      read and is a representable instant (`inRange`), else the poll time. */
  function Since(lastPoll: Option<int>, g: GroupPoll, inRange: int -> bool): int {
    if g.readOk && lastPoll.Some? && inRange(lastPoll.value) then lastPoll.value else g.pollTime
  }

  /** Whether a group's poll moves the watermark: its fetch succeeds and the
      write succeeds. */
  predicate Advances(lastPoll: Option<int>, g: GroupPoll, inRange: int -> bool) {
    g.fetch(Since(lastPoll, g, inRange)).Ok? && g.writeOk
  }

  /** One group's poll: after a successful fetch the watermark becomes the
      cycle's start (if the write succeeds) and the fetched rows are
      inserted; after a failed fetch nothing changes. */
  function GroupStep(s: Snapshot, g: GroupPoll, cycleStart: int, filter: BranchFilter,
                     parse: string -> Option<int>, inRange: int -> bool): (r: Snapshot)
    ensures r.lastPoll == if Advances(s.lastPoll, g, inRange) then Some(cycleStart) else s.lastPoll
    ensures g.fetch(Since(s.lastPoll, g, inRange)).Err? ==> r == s
  {
    var fetched := g.fetch(Since(s.lastPoll, g, inRange));
    if fetched.Err? then s
    else Snapshot(InsertAll(s.tables, PollRows(fetched.value, filter, parse), g.tx, 0),
                  if g.writeOk then Some(cycleStart) else s.lastPoll)
  }

  /** A cycle polls every group in order. */
  function Cycle(s: Snapshot, groups: seq<GroupPoll>, cycleStart: int, filter: BranchFilter,
                 parse: string -> Option<int>, inRange: int -> bool): Snapshot
    decreases |groups|
  {
    if groups == [] then s
    else GroupStep(Cycle(s, groups[..|groups| - 1], cycleStart, filter, parse, inRange), groups[|groups| - 1],
                   cycleStart, filter, parse, inRange)
  }

  /** The watermark alone through a cycle. */
  function Marks(lastPoll: Option<int>, groups: seq<GroupPoll>, cycleStart: int, inRange: int -> bool): Option<int>
    decreases |groups|
  {
    if groups == [] then lastPoll
    else
      var before := Marks(lastPoll, groups[..|groups| - 1], cycleStart, inRange);
      if Advances(before, groups[|groups| - 1], inRange) then Some(cycleStart) else before
  }

  /** The watermark after a cycle depends only on the watermark before it. */
  lemma {:induction false} CycleMarks(s: Snapshot, groups: seq<GroupPoll>, cycleStart: int, filter: BranchFilter,
                                      parse: string -> Option<int>, inRange: int -> bool)
    ensures Cycle(s, groups, cycleStart, filter, parse, inRange).lastPoll == Marks(s.lastPoll, groups, cycleStart, inRange)
    decreases |groups|
  {
    if groups != [] {
      CycleMarks(s, groups[..|groups| - 1], cycleStart, filter, parse, inRange);
    }
  }

  lemma {:induction false} CycleAppend(s: Snapshot, a: seq<GroupPoll>, b: seq<GroupPoll>, cycleStart: int,
                                       filter: BranchFilter, parse: string -> Option<int>, inRange: int -> bool)
    ensures Cycle(s, a + b, cycleStart, filter, parse, inRange)
         == Cycle(Cycle(s, a, cycleStart, filter, parse, inRange), b, cycleStart, filter, parse, inRange)
    decreases |b|
  {
    if b == [] {
      assert a + b == a;
    } else {
      assert (a + b)[..|a + b| - 1] == a + b[..|b| - 1];
      assert (a + b)[|a + b| - 1] == b[|b| - 1];
      CycleAppend(s, a, b[..|b| - 1], cycleStart, filter, parse, inRange);
    }
  }

  /** A group whose fetch fails, whatever its lower bound, is as if it were
      not configured: the groups after it are polled as before. */
  lemma FailedGroupSkipped(s: Snapshot, a: seq<GroupPoll>, g: GroupPoll, b: seq<GroupPoll>, cycleStart: int,
                           filter: BranchFilter, parse: string -> Option<int>, inRange: int -> bool)
    requires forall t :: g.fetch(t).Err?
    ensures Cycle(s, a + [g] + b, cycleStart, filter, parse, inRange) == Cycle(s, a + b, cycleStart, filter, parse, inRange)
  {
    CycleAppend(s, a + [g], b, cycleStart, filter, parse, inRange);
    CycleAppend(s, a, [g], cycleStart, filter, parse, inRange);
    CycleAppend(s, a, b, cycleStart, filter, parse, inRange);
    var mid := Cycle(s, a, cycleStart, filter, parse, inRange);
    assert [g][..0] == [];
    assert Cycle(mid, [g], cycleStart, filter, parse, inRange) == GroupStep(mid, g, cycleStart, filter, parse, inRange);
  }

  /** At the end of a cycle the watermark is the cycle's start if some
      group advanced it, and what it was before otherwise. */
  lemma {:induction false} MarksWatermark(lastPoll: Option<int>, groups: seq<GroupPoll>, cycleStart: int, inRange: int -> bool)
    ensures (exists i :: 0 <= i < |groups| && Advances(Marks(lastPoll, groups[..i], cycleStart, inRange), groups[i], inRange))
      ==> Marks(lastPoll, groups, cycleStart, inRange) == Some(cycleStart)
    ensures (forall i :: 0 <= i < |groups| ==> !Advances(Marks(lastPoll, groups[..i], cycleStart, inRange), groups[i], inRange))
      ==> Marks(lastPoll, groups, cycleStart, inRange) == lastPoll
    decreases |groups|
  {
    if groups != [] {
      var n := |groups| - 1;
      var init := groups[..n];
      MarksWatermark(lastPoll, init, cycleStart, inRange);
      forall i | 0 <= i < n
        ensures groups[..i] == init[..i] && groups[i] == init[i]
      {
      }
    }
  }

  /** Once a group of the cycle has advanced the watermark, every later
      group sees the cycle's start as the stored watermark, and fetches from
      it when the read succeeds: with one global watermark, later groups
      never go back to the previous one. */
  lemma {:induction false} LaterGroupSince(lastPoll: Option<int>, groups: seq<GroupPoll>, i: nat, j: nat, cycleStart: int,
                                           inRange: int -> bool)
    requires i < j < |groups|
    requires Advances(Marks(lastPoll, groups[..i], cycleStart, inRange), groups[i], inRange)
    ensures Marks(lastPoll, groups[..j], cycleStart, inRange) == Some(cycleStart)
    ensures groups[j].readOk && inRange(cycleStart) ==>
      Since(Marks(lastPoll, groups[..j], cycleStart, inRange), groups[j], inRange) == cycleStart
    decreases j
  {
    assert groups[..j][..j - 1] == groups[..j - 1];
    if i < j - 1 {
      LaterGroupSince(lastPoll, groups, i, j - 1, cycleStart, inRange);
    } else {
      assert groups[..j][j - 1] == groups[i];
    }
  }

  /** Inserting one more row extends the fold by that row. */
  method InsertRow(db: Store, ghost rows: seq<Pipeline>, row: Pipeline, tx: nat -> TxOutcomes, from: nat, next: nat,
                   ghost t0: Tables)
    requires db.Valid()
    requires next == from + |rows|
    requires Tables(db.pipelines, db.dailyStats) == InsertAll(t0, rows, tx, from)
    modifies db`pipelines, db`dailyStats
    ensures db.Valid()
    ensures Tables(db.pipelines, db.dailyStats) == InsertAll(t0, rows + [row], tx, from)
  {
    InsertAllSnoc(t0, rows, row, tx, from);
    var _ := InsertPipeline(db, row, tx(next));
  }

  /** The inner loop of the poll: each admitted pipeline of one project is
      converted and inserted; `from` numbers the first insert. */
  method InsertProject(db: Store, proj: ProjectPipelineInfo, filter: BranchFilter, parse: string -> Option<int>,
                       tx: nat -> TxOutcomes, from: nat) returns (next: nat)
    requires db.Valid()
    modifies db`pipelines, db`dailyStats
    ensures db.Valid()
    ensures next == from + |ProjectRows(proj, proj.pipelines, filter, parse)|
    ensures Tables(db.pipelines, db.dailyStats)
         == InsertAll(Tables(old(db.pipelines), old(db.dailyStats)), ProjectRows(proj, proj.pipelines, filter, parse), tx, from)
  {
    ghost var t0 := Tables(db.pipelines, db.dailyStats);
    ghost var rows: seq<Pipeline> := [];
    next := from;
    var j := 0;
    while j < |proj.pipelines|
      invariant 0 <= j <= |proj.pipelines|
      invariant db.Valid()
      invariant rows == ProjectRows(proj, proj.pipelines[..j], filter, parse)
      invariant next == from + |rows|
      invariant Tables(db.pipelines, db.dailyStats) == InsertAll(t0, rows, tx, from)
    {
      var pipe := proj.pipelines[j];
      assert proj.pipelines[..j + 1] == proj.pipelines[..j] + [pipe];
      ProjectRowsSnoc(proj, proj.pipelines[..j], pipe, filter, parse);
      if Admits(filter, pipe.refName) {
        InsertRow(db, rows, PolledRow(proj, pipe, parse), tx, from, next, t0);
        rows := rows + [PolledRow(proj, pipe, parse)];
        next := next + 1;
      } else {
        assert rows + [] == rows;
      }
      j := j + 1;
    }
    assert proj.pipelines[..j] == proj.pipelines;
  }

  /** The nested loops of the poll over a fetched group. */
  method InsertFetched(db: Store, projects: seq<ProjectPipelineInfo>, filter: BranchFilter, parse: string -> Option<int>,
                       tx: nat -> TxOutcomes)
    requires db.Valid()
    modifies db`pipelines, db`dailyStats
    ensures db.Valid()
    ensures Tables(db.pipelines, db.dailyStats)
         == InsertAll(Tables(old(db.pipelines), old(db.dailyStats)), PollRows(projects, filter, parse), tx, 0)
  {
    ghost var t0 := Tables(db.pipelines, db.dailyStats);
    var k: nat := 0;
    var i := 0;
    while i < |projects|
      invariant 0 <= i <= |projects|
      invariant db.Valid()
      invariant k == |PollRows(projects[..i], filter, parse)|
      invariant Tables(db.pipelines, db.dailyStats) == InsertAll(t0, PollRows(projects[..i], filter, parse), tx, 0)
    {
      assert projects[..i + 1] == projects[..i] + [projects[i]];
      ConcatSnoc(projects[..i], projects[i], (proj: ProjectPipelineInfo) => ProjectRows(proj, proj.pipelines, filter, parse));
      InsertAllAppend(t0, PollRows(projects[..i], filter, parse), ProjectRows(projects[i], projects[i].pipelines, filter, parse), tx, 0);
      k := InsertProject(db, projects[i], filter, parse, tx, k);
      i := i + 1;
    }
    assert projects[..i] == projects;
  }

  /** One group's step of `start_monitor_loop` on the store: read the
      watermark, fetch from it, advance it on success, insert the admitted
      pipelines one transaction each. `since` is the lower bound used. */
  method PollGroup(db: Store, g: GroupPoll, cycleStart: int, filter: BranchFilter,
                   parse: string -> Option<int>, inRange: int -> bool) returns (since: int)
    requires db.Valid()
    modifies db`lastPoll, db`pipelines, db`dailyStats
    ensures db.Valid()
    ensures since == Since(old(db.lastPoll), g, inRange)
    ensures Snapshot(Tables(db.pipelines, db.dailyStats), db.lastPoll)
         == GroupStep(Snapshot(Tables(old(db.pipelines), old(db.dailyStats)), old(db.lastPoll)), g, cycleStart,
                      filter, parse, inRange)
  {
    var stored := db.GetLastPoll(g.readOk);
    var lastPollTs := if stored.Ok? && stored.value.Some? then stored.value.value else g.pollTime;
    since := if inRange(lastPollTs) then lastPollTs else g.pollTime;
    var fetched := g.fetch(since);
    if fetched.Err? {
      return;
    }
    var _ := db.SetLastPoll(cycleStart, g.writeOk);
    InsertFetched(db, fetched.value, filter, parse, g.tx);
  }

  /** One polling cycle: every configured group in order, with the cycle's
      start taken once before the first. */
  method PollCycle(db: Store, groups: seq<GroupPoll>, cycleStart: int, filter: BranchFilter,
                   parse: string -> Option<int>, inRange: int -> bool)
    requires db.Valid()
    modifies db`lastPoll, db`pipelines, db`dailyStats
    ensures db.Valid()
    ensures Snapshot(Tables(db.pipelines, db.dailyStats), db.lastPoll)
         == Cycle(Snapshot(Tables(old(db.pipelines), old(db.dailyStats)), old(db.lastPoll)), groups, cycleStart,
                  filter, parse, inRange)
  {
    ghost var s0 := Snapshot(Tables(db.pipelines, db.dailyStats), db.lastPoll);
    var i := 0;
    while i < |groups|
      invariant 0 <= i <= |groups|
      invariant db.Valid()
      invariant Snapshot(Tables(db.pipelines, db.dailyStats), db.lastPoll)
             == Cycle(s0, groups[..i], cycleStart, filter, parse, inRange)
    {
      assert groups[..i + 1][..i] == groups[..i];
      var _ := PollGroup(db, groups[i], cycleStart, filter, parse, inRange);
      i := i + 1;
    }
    assert groups[..i] == groups;
  }

  // ----- backfill_usernames: one batch -----

  /** A row of the batch query `SELECT id, project_id FROM pipelines WHERE
      user_name IS NULL OR user_name = '' LIMIT 500`. */
  datatype Missing = Missing(id: int, projectId: int)

  /** What the lookups of one batch meet: the GraphQL answer for a pipeline
      id, the REST answer for a (project id, pipeline id) pair, and whether
      the `UPDATE` for a pipeline id succeeds. */
  datatype Lookups = Lookups(
    gql: int -> Result<Option<string>, string>,
    rest: (int, int) -> Result<Option<string>, string>,
    updateOk: int -> bool)

  const ChunkSize: nat := 50
  const LookupsPerChunk: nat := 10

  /** The name settled on for one pipeline: the GraphQL name when that
      lookup gives one, otherwise whatever the REST lookup gives; when both
      fail there is no name. */
  function ResolveName(gql: Result<Option<string>, string>, rest: Result<Option<string>, string>): (r: Option<string>)
    ensures gql.Ok? && gql.value.Some? ==> r == gql.value
    ensures !(gql.Ok? && gql.value.Some?) ==> (r.Some? <==> rest.Ok? && rest.value.Some?)
    ensures r.Some? ==> gql == Ok(r) || rest == Ok(r)
  {
    match gql
    case Ok(Some(name)) => Some(name)
    case _ =>
      match rest
      case Ok(found) => found
      case Err(_) => None
  }

  function NameFor(look: Lookups, m: Missing): Option<string> {
    ResolveName(look.gql(m.id), look.rest(m.projectId, m.id))
  }

  /** The lookups of a batch as the two clients answer them, given the
      replies GitLab sends: the GraphQL lookup by global id, as written,
      and the REST lookup of the pipeline. */
  function ClientLookups(gqlReply: int -> GitlabGraphql.GraphqlReply, restReply: (int, int) -> GitlabGraphql.RestReply,
                         updateOk: int -> bool): (look: Lookups)
    ensures forall id :: look.gql(id) == GitlabGraphql.LookupByGid(gqlReply(id))
    ensures forall pid, id :: look.rest(pid, id) == GitlabGraphql.LookupViaRest(restReply(pid, id))
  {
    Lookups(id => GitlabGraphql.LookupByGid(gqlReply(id)),
            (pid, id) => GitlabGraphql.LookupViaRest(restReply(pid, id)),
            updateOk)
  }

  /** The same lookups with the lookup by global id in its corrected form. */
  function ClientLookupsFixed(gqlReply: int -> GitlabGraphql.GraphqlReply, restReply: (int, int) -> GitlabGraphql.RestReply,
                              updateOk: int -> bool): (look: Lookups)
    ensures forall id :: look.gql(id) == GitlabGraphql.LookupByGidFixed(gqlReply(id))
    ensures forall pid, id :: look.rest(pid, id) == GitlabGraphql.LookupViaRest(restReply(pid, id))
  {
    Lookups(id => GitlabGraphql.LookupByGidFixed(gqlReply(id)),
            (pid, id) => GitlabGraphql.LookupViaRest(restReply(pid, id)),
            updateOk)
  }

  /** With the lookup by global id as written, the name a batch settles on
      is always the REST lookup's: the GraphQL answer never contributes. */
  lemma NamesComeFromRest(gqlReply: GitlabGraphql.GraphqlReply, restReply: GitlabGraphql.RestReply)
    ensures var rest := GitlabGraphql.LookupViaRest(restReply);
            ResolveName(GitlabGraphql.LookupByGid(gqlReply), rest) == if rest.Ok? then rest.value else None
  {
    GitlabGraphql.GidLookupNeverNames(gqlReply);
  }

  /** So with the clients as written, every pipeline of a batch gets the
      name REST reports for it, or none. */
  lemma ClientNamesFromRest(gqlReply: int -> GitlabGraphql.GraphqlReply, restReply: (int, int) -> GitlabGraphql.RestReply,
                            updateOk: int -> bool, m: Missing)
    ensures var rest := GitlabGraphql.LookupViaRest(restReply(m.projectId, m.id));
            NameFor(ClientLookups(gqlReply, restReply, updateOk), m) == if rest.Ok? then rest.value else None
  {
    NamesComeFromRest(gqlReply(m.id), restReply(m.projectId, m.id));
  }

  /** `UPDATE pipelines SET user_name = ? WHERE id = ? AND (user_name IS NULL
      OR user_name = '')`, issued only when a name was found: row `id` takes
      `name` if it exists, its name is empty and the statement succeeds. */
  function FillName(pipes: Pipelines, id: int, name: Option<string>, ok: bool): (r: Pipelines)
    ensures r.Keys == pipes.Keys
    ensures forall i :: i in pipes && i != id ==> r[i] == pipes[i]
    ensures id in pipes ==>
      r[id] == if name.Some? && ok && pipes[id].userName == "" then pipes[id].(userName := name.value) else pipes[id]
  {
    if name.Some? && ok && id in pipes && pipes[id].userName == "" then
      UpdateKeys(pipes, id, pipes[id].(userName := name.value));
      pipes[id := pipes[id].(userName := name.value)]
    else pipes
  }

  /** The updates of a batch, in the order the lookups were started. */
  function FillAll(pipes: Pipelines, ms: seq<Missing>, look: Lookups): Pipelines {
    Steps(pipes, ms, (p: Pipelines, m: Missing, k: nat) => FillName(p, m.id, NameFor(look, m), look.updateOk(m.id)), 0)
  }

  lemma FillAllSnoc(pipes: Pipelines, ms: seq<Missing>, m: Missing, look: Lookups)
    ensures FillAll(pipes, ms + [m], look) == FillName(FillAll(pipes, ms, look), m.id, NameFor(look, m), look.updateOk(m.id))
  {
    StepsSnoc(pipes, ms, m, (p: Pipelines, m: Missing, k: nat) => FillName(p, m.id, NameFor(look, m), look.updateOk(m.id)), 0);
  }

  /** The entries of a batch that get a lookup: of each chunk of 50
      (`ids.chunks(50)`) the first ten, since the spawn loop stops once ten
      tasks are in the set. */
  function Looked<A>(xs: seq<A>): seq<A>
    decreases |xs|
  {
    if |xs| <= ChunkSize then xs[..if |xs| < LookupsPerChunk then |xs| else LookupsPerChunk]
    else xs[..LookupsPerChunk] + Looked(xs[ChunkSize..])
  }

  /** One chunk at a time: the lookups of a batch are the first ten of its
      first chunk, then those of the rest. */
  lemma LookedChunk<A>(xs: seq<A>, size: nat, n: nat)
    requires xs != []
    requires size == (if |xs| < ChunkSize then |xs| else ChunkSize)
    requires n == (if size < LookupsPerChunk then size else LookupsPerChunk)
    ensures Looked(xs) == xs[..size][..n] + Looked(xs[size..])
  {
    assert xs[..size][..n] == xs[..n];
    if |xs| <= ChunkSize {
      assert xs[size..] == [];
      assert Looked(xs[size..]) == [];
    } else {
      assert Looked(xs) == xs[..LookupsPerChunk] + Looked(xs[ChunkSize..]);
    }
  }

  /** The batch position of the `k`-th lookup. */
  function LookedPosition(k: nat): nat {
    ChunkSize * (k / LookupsPerChunk) + k % LookupsPerChunk
  }

  /** The `k`-th lookup is of the entry at `LookedPosition(k)`, which is
      among the first ten of its chunk. */
  lemma {:induction false} LookedIndex<A>(xs: seq<A>, k: nat)
    requires k < |Looked(xs)|
    ensures LookedPosition(k) < |xs| && LookedPosition(k) % ChunkSize < LookupsPerChunk
    ensures Looked(xs)[k] == xs[LookedPosition(k)]
    decreases |xs|
  {
    if |xs| > ChunkSize && k >= LookupsPerChunk {
      var tail := xs[ChunkSize..];
      var k' := k - LookupsPerChunk;
      assert Looked(xs)[k] == Looked(tail)[k'];
      LookedIndex(tail, k');
      PositionShift(k);
    } else {
      PositionSmall(k);
    }
  }

  /** The lookups of the next chunk sit one chunk further on. */
  lemma PositionShift(k: nat)
    requires k >= LookupsPerChunk
    ensures LookedPosition(k) == ChunkSize + LookedPosition(k - LookupsPerChunk)
    ensures LookedPosition(k) % ChunkSize == LookedPosition(k - LookupsPerChunk) % ChunkSize
  {
    var k' := k - LookupsPerChunk;
    var q, r := k' / LookupsPerChunk, k' % LookupsPerChunk;
    assert k == LookupsPerChunk * (q + 1) + r && 0 <= r < LookupsPerChunk;
    assert k / LookupsPerChunk == q + 1 && k % LookupsPerChunk == r;
    assert LookedPosition(k) == ChunkSize * (q + 1) + r;
  }

  /** The first ten lookups are of the first ten entries. */
  lemma PositionSmall(k: nat)
    requires k < LookupsPerChunk
    ensures LookedPosition(k) == k
  {
  }

  /** Conversely, every entry among the first ten of its chunk is looked up. */
  lemma {:induction false} LookedCovers<A>(xs: seq<A>, i: nat)
    requires i < |xs| && i % ChunkSize < LookupsPerChunk
    ensures LookupsPerChunk * (i / ChunkSize) + i % ChunkSize < |Looked(xs)|
    ensures Looked(xs)[LookupsPerChunk * (i / ChunkSize) + i % ChunkSize] == xs[i]
    decreases |xs|
  {
    if i >= ChunkSize {
      var tail := xs[ChunkSize..];
      CoverShift(i);
      LookedCovers(tail, i - ChunkSize);
      assert tail[i - ChunkSize] == xs[i];
    } else {
      assert i / ChunkSize == 0 && i % ChunkSize == i;
    }
  }

  /** An entry of a later chunk is looked up ten lookups further on. */
  lemma CoverShift(i: nat)
    requires i >= ChunkSize
    ensures i % ChunkSize == (i - ChunkSize) % ChunkSize
    ensures LookupsPerChunk * (i / ChunkSize) + i % ChunkSize
         == LookupsPerChunk + (LookupsPerChunk * ((i - ChunkSize) / ChunkSize) + (i - ChunkSize) % ChunkSize)
  {
    var i' := i - ChunkSize;
    var q, r := i' / ChunkSize, i' % ChunkSize;
    assert i == ChunkSize * (q + 1) + r && 0 <= r < ChunkSize;
    assert i / ChunkSize == q + 1 && i % ChunkSize == r;
  }

  /** A batch only ever changes user names, and only empty ones: a row is
      either unchanged or had an empty name and now holds a name that one
      of its lookups resolved, with a successful update. */
  lemma {:induction false} FillAllOnlyEmptyNames(pipes: Pipelines, ms: seq<Missing>, look: Lookups, i: int)
    requires i in pipes
    ensures FillAll(pipes, ms, look).Keys == pipes.Keys
    ensures FillAll(pipes, ms, look)[i] == pipes[i].(userName := FillAll(pipes, ms, look)[i].userName)
    ensures pipes[i].userName != "" ==> FillAll(pipes, ms, look)[i] == pipes[i]
    ensures FillAll(pipes, ms, look)[i] != pipes[i] ==>
      pipes[i].userName == "" && look.updateOk(i) &&
      exists k :: 0 <= k < |ms| && ms[k].id == i && NameFor(look, ms[k]) == Some(FillAll(pipes, ms, look)[i].userName)
    decreases |ms|
  {
    if ms != [] {
      var init := ms[..|ms| - 1];
      var m := ms[|ms| - 1];
      assert ms == init + [m];
      FillAllSnoc(pipes, init, m, look);
      FillAllOnlyEmptyNames(pipes, init, look, i);
      var before := FillAll(pipes, init, look);
      var after := FillAll(pipes, ms, look);
      if before[i] != pipes[i] {
        var k :| 0 <= k < |init| && init[k].id == i && NameFor(look, init[k]) == Some(before[i].userName);
        assert ms[k] == init[k];
      } else if after[i] != pipes[i] {
        assert ms[|ms| - 1].id == i && NameFor(look, ms[|ms| - 1]) == Some(after[i].userName);
      }
    }
  }

  /** A pipeline whose name is empty, whose lookup resolves a non-empty name
      and whose update succeeds ends the batch with a non-empty name. */
  lemma {:induction false} FillAllFills(pipes: Pipelines, ms: seq<Missing>, look: Lookups, k: nat)
    requires k < |ms| && ms[k].id in pipes
    requires NameFor(look, ms[k]).Some? && NameFor(look, ms[k]).value != "" && look.updateOk(ms[k].id)
    ensures ms[k].id in FillAll(pipes, ms, look) && FillAll(pipes, ms, look)[ms[k].id].userName != ""
    decreases |ms|
  {
    var init := ms[..|ms| - 1];
    var m := ms[|ms| - 1];
    assert ms == init + [m];
    FillAllSnoc(pipes, init, m, look);
    FillAllOnlyEmptyNames(pipes, init, look, ms[k].id);
    if k < |ms| - 1 {
      assert init[k] == ms[k];
      FillAllFills(pipes, init, look, k);
    }
  }

  /** A batch in which no lookup finds a name, or no update succeeds,
      leaves the table exactly as it was. */
  lemma NoNamesNoChange(pipes: Pipelines, query: Result<seq<Missing>, string>, look: Lookups)
    requires forall m: Missing :: NameFor(look, m).None? || !look.updateOk(m.id)
    ensures AfterBatch(pipes, query, look) == pipes
  {
    if query.Ok? {
      var ms := Looked(query.value);
      var r := FillAll(pipes, ms, look);
      FillAllKeys(pipes, ms, look);
      forall i | i in pipes ensures r[i] == pipes[i] {
        FillAllOnlyEmptyNames(pipes, ms, look, i);
      }
    }
  }

  lemma {:induction false} FillAllKeys(pipes: Pipelines, ms: seq<Missing>, look: Lookups)
    ensures FillAll(pipes, ms, look).Keys == pipes.Keys
    decreases |ms|
  {
    if ms != [] {
      assert ms == ms[..|ms| - 1] + [ms[|ms| - 1]];
      FillAllSnoc(pipes, ms[..|ms| - 1], ms[|ms| - 1], look);
      FillAllKeys(pipes, ms[..|ms| - 1], look);
    }
  }

  /** How a batch ends: the query failed (the backfill stops), it found no
      row with a missing name (the backfill is complete), or the batch was
      processed (the backfill queries again). */
  datatype BatchEnd = QueryFailed | NoneMissing | Processed

  function BatchEndOf(query: Result<seq<Missing>, string>): BatchEnd {
    if query.Err? then QueryFailed else if query.value == [] then NoneMissing else Processed
  }

  /** The `pipelines` table after a batch. */
  function AfterBatch(pipes: Pipelines, query: Result<seq<Missing>, string>, look: Lookups): Pipelines {
    if query.Ok? then FillAll(pipes, Looked(query.value), look) else pipes
  }

  /** The guarded update of one row on the store. */
  method FillUserName(db: Store, m: Missing, name: Option<string>, ok: bool, ghost done: seq<Missing>,
                      ghost p0: Pipelines, look: Lookups)
    requires db.Valid()
    requires name == NameFor(look, m) && ok == look.updateOk(m.id)
    requires db.pipelines == FillAll(p0, done, look)
    modifies db`pipelines
    ensures db.Valid()
    ensures db.pipelines == FillAll(p0, done + [m], look)
  {
    FillAllSnoc(p0, done, m, look);
    if name.Some? && ok && m.id in db.pipelines && db.pipelines[m.id].userName == "" {
      db.pipelines := db.pipelines[m.id := db.pipelines[m.id].(userName := name.value)];
    }
  }

  /** The spawn loop of one chunk: a lookup is started for each entry in
      turn until ten are running; each yields the entry and its name. */
  method StartLookups(chunk: seq<Missing>, look: Lookups) returns (tasks: seq<(Missing, Option<string>)>)
    ensures |tasks| == if |chunk| < LookupsPerChunk then |chunk| else LookupsPerChunk
    ensures forall t :: 0 <= t < |tasks| ==> tasks[t] == (chunk[t], NameFor(look, chunk[t]))
  {
    tasks := [];
    var j := 0;
    while j < |chunk|
      invariant 0 <= j <= |chunk| && j < LookupsPerChunk
      invariant |tasks| == j
      invariant forall t :: 0 <= t < j ==> tasks[t] == (chunk[t], NameFor(look, chunk[t]))
    {
      var m := chunk[j];
      var name := ResolveName(look.gql(m.id), look.rest(m.projectId, m.id));
      tasks := tasks + [(m, name)];
      j := j + 1;
      if |tasks| >= LookupsPerChunk {
        break;
      }
    }
  }

  /** The join loop of one chunk: every name found is written. */
  method ApplyNames(db: Store, tasks: seq<(Missing, Option<string>)>, ghost started: seq<Missing>,
                    ghost done: seq<Missing>, ghost p0: Pipelines, look: Lookups)
    requires db.Valid()
    requires |started| == |tasks|
    requires forall t :: 0 <= t < |tasks| ==> tasks[t] == (started[t], NameFor(look, started[t]))
    requires db.pipelines == FillAll(p0, done, look)
    modifies db`pipelines
    ensures db.Valid()
    ensures db.pipelines == FillAll(p0, done + started, look)
  {
    assert done + started[..0] == done;
    var t := 0;
    while t < |tasks|
      invariant 0 <= t <= |tasks|
      invariant db.Valid()
      invariant db.pipelines == FillAll(p0, done + started[..t], look)
    {
      var (m, name) := tasks[t];
      assert done + started[..t + 1] == (done + started[..t]) + [m];
      FillUserName(db, m, name, look.updateOk(m.id), done + started[..t], p0, look);
      t := t + 1;
    }
    assert started[..t] == started;
  }

  /** One chunk of a batch: the first `size` rows of `rest`, of which
      `started` had a lookup. */
  method ProcessChunk(db: Store, rest: seq<Missing>, ghost done: seq<Missing>, ghost p0: Pipelines, look: Lookups)
    returns (size: nat, ghost started: seq<Missing>)
    requires db.Valid() && rest != []
    requires db.pipelines == FillAll(p0, done, look)
    modifies db`pipelines
    ensures db.Valid()
    ensures 0 < size <= |rest| && size == if |rest| < ChunkSize then |rest| else ChunkSize
    ensures Looked(rest) == started + Looked(rest[size..])
    ensures db.pipelines == FillAll(p0, done + started, look)
  {
    size := if |rest| < ChunkSize then |rest| else ChunkSize;
    var chunk := rest[..size];
    var tasks := StartLookups(chunk, look);
    started := chunk[..|tasks|];
    LookedChunk(rest, size, |tasks|);
    ApplyNames(db, tasks, started, done, p0, look);
  }

  /** One batch of `backfill_usernames`: the rows are split into chunks of
      50; for each chunk up to ten lookups are started, each trying GraphQL
      and then REST, and every name found is written by the guarded update. */
  method UsernameBatch(db: Store, query: Result<seq<Missing>, string>, look: Lookups) returns (end: BatchEnd)
    requires db.Valid()
    modifies db`pipelines
    ensures db.Valid()
    ensures end == BatchEndOf(query)
    ensures db.pipelines == AfterBatch(old(db.pipelines), query, look)
  {
    if query.Err? {
      return QueryFailed;
    }
    var rows := query.value;
    if rows == [] {
      return NoneMissing;
    }
    ghost var p0 := db.pipelines;
    ghost var done: seq<Missing> := [];
    var rest := rows;
    while rest != []
      invariant db.Valid()
      invariant Looked(rows) == done + Looked(rest)
      invariant db.pipelines == FillAll(p0, done, look)
      decreases |rest|
    {
      var size, started := ProcessChunk(db, rest, done, p0, look);
      done := done + started;
      rest := rest[size..];
    }
    assert Looked(rest) == [];
    assert done == Looked(rows);
    end := Processed;
  }

  // ----- perform_initial_backfill -----

  /** The parts of the shared application state the initial backfill
      changes: the store and the list of monitored projects. */
  class App {
    const db: Store
    var monitoredProjects: seq<ProjectInfo>

    constructor (db: Store)
      ensures this.db == db && monitoredProjects == []
    {
      this.db := db;
      monitoredProjects := [];
    }
  }

  /** `id_to_project`: every discovered project under its id, a later
      project with the same id replacing an earlier one. */
  function IdIndex(projects: seq<ProjectInfo>): map<U64, ProjectInfo>
    decreases |projects|
  {
    if projects == [] then map[]
    else IdIndex(projects[..|projects| - 1])[projects[|projects| - 1].id := projects[|projects| - 1]]
  }

  /** Project `i` is the last one in `projects` carrying `id`. */
  predicate LastWithId(projects: seq<ProjectInfo>, i: int, id: U64)
  {
    0 <= i < |projects| && projects[i].id == id &&
    forall j :: i < j < |projects| ==> projects[j].id != id
  }

  /** A project id is known exactly when some discovered project has it. */
  lemma {:induction false} IdIndexKeys(projects: seq<ProjectInfo>, id: U64)
    ensures id in IdIndex(projects) <==> exists i :: 0 <= i < |projects| && projects[i].id == id
    decreases |projects|
  {
    if projects != [] {
      var n := |projects| - 1;
      IdIndexKeys(projects[..n], id);
      assert forall i :: 0 <= i < n ==> projects[..n][i] == projects[i];
    }
  }

  /** A known id maps to the last discovered project with that id. */
  lemma {:induction false} IdIndexLast(projects: seq<ProjectInfo>, id: U64)
    ensures id in IdIndex(projects) ==>
      exists i :: LastWithId(projects, i, id) && IdIndex(projects)[id] == projects[i]
    decreases |projects|
  {
    if projects != [] {
      var n := |projects| - 1;
      var init := projects[..n];
      IdIndexLast(init, id);
      if projects[n].id == id {
        assert LastWithId(projects, n, id);
      } else if id in IdIndex(init) {
        var i :| LastWithId(init, i, id) && IdIndex(init)[id] == init[i];
        assert init[i] == projects[i];
        forall j | i < j < |projects| ensures projects[j].id != id {
          if j < n { assert init[j] == projects[j]; }
        }
        assert LastWithId(projects, i, id);
      }
    }
  }

  /** `project_ids`: the discovered ids, in order. */
  function ProjectIds(projects: seq<ProjectInfo>): (ids: seq<U64>)
    ensures |ids| == |projects|
    ensures forall i :: 0 <= i < |projects| ==> ids[i] == projects[i].id
  {
    seq(|projects|, i requires 0 <= i < |projects| => projects[i].id)
  }

  /** `updated_after`: `backfill_days` days before now, or the epoch when
      that instant cannot be represented (`unwrap_or_default`). */
  function UpdatedAfter(now: int, backfillDays: int, inRange: int -> bool): (t: int)
    ensures inRange(now - backfillDays * SecondsPerDay) ==> t == now - backfillDays * SecondsPerDay
    ensures !inRange(now - backfillDays * SecondsPerDay) ==> t == 0
  {
    var cutoff := now - backfillDays * SecondsPerDay;
    if inRange(cutoff) then cutoff else 0
  }

  /** The row stored for one REST pipeline of a known project. */
  function BackfillRow(project: ProjectInfo, g: GitlabPipeline): Pipeline {
    RestToDb(g, AsI64(project.id), project.name, project.pathWithNamespace)
  }

  /** The rows stored for one entry of the fetch result: none for a project
      id that discovery did not return, else every pipeline the branch
      filter admits, converted with that project's data, in order. */
  function ResultRows(index: map<U64, ProjectInfo>, filter: BranchFilter, entry: (U64, seq<GitlabPipeline>)): seq<Pipeline> {
    if entry.0 in index then
      Keep(entry.1, (g: GitlabPipeline) => Admits(filter, g.refName), (g: GitlabPipeline) => BackfillRow(index[entry.0], g))
    else []
  }

  /** The rows of the whole fetch result, entry after entry. */
  function BackfillRows(index: map<U64, ProjectInfo>, filter: BranchFilter, results: seq<(U64, seq<GitlabPipeline>)>): seq<Pipeline> {
    Concat(results, (entry: (U64, seq<GitlabPipeline>)) => ResultRows(index, filter, entry))
  }

  /** A row is stored by the backfill exactly when it is the conversion,
      with the known project's id, name and path, of a pipeline the filter
      admits in an entry whose project id is known. */
  lemma BackfillRowsExactly(index: map<U64, ProjectInfo>, filter: BranchFilter, results: seq<(U64, seq<GitlabPipeline>)>,
                            row: Pipeline)
    ensures row in BackfillRows(index, filter, results) <==>
      exists k, j :: 0 <= k < |results| && results[k].0 in index && 0 <= j < |results[k].1| &&
        Admits(filter, results[k].1[j].refName) && row == BackfillRow(index[results[k].0], results[k].1[j])
  {
    ConcatExactly(results, (entry: (U64, seq<GitlabPipeline>)) => ResultRows(index, filter, entry), row);
    forall k | 0 <= k < |results| && results[k].0 in index
      ensures row in ResultRows(index, filter, results[k]) <==>
        exists j :: 0 <= j < |results[k].1| && Admits(filter, results[k].1[j].refName) &&
          row == BackfillRow(index[results[k].0], results[k].1[j])
    {
      KeepExactly(results[k].1, (g: GitlabPipeline) => Admits(filter, g.refName),
                  (g: GitlabPipeline) => BackfillRow(index[results[k].0], g), row);
    }
  }

  /** The tables after the backfill: unchanged when discovery or the fetch
      fails, else every backfill row inserted in order. */
  function BackfillTables(t: Tables, discover: Result<seq<ProjectInfo>, string>,
                          fetch: (seq<U64>, int) -> Result<seq<(U64, seq<GitlabPipeline>)>, string>,
                          updatedAfter: int, filter: BranchFilter, tx: nat -> TxOutcomes): Tables
  {
    if discover.Err? then t
    else
      var fetched := fetch(ProjectIds(discover.value), updatedAfter);
      if fetched.Err? then t
      else InsertAll(t, BackfillRows(IdIndex(discover.value), filter, fetched.value), tx, 0)
  }

  /** The inner loop for one fetch entry of a known project. */
  method InsertResult(db: Store, index: map<U64, ProjectInfo>, filter: BranchFilter, entry: (U64, seq<GitlabPipeline>),
                      tx: nat -> TxOutcomes, from: nat) returns (next: nat)
    requires db.Valid() && entry.0 in index
    modifies db`pipelines, db`dailyStats
    ensures db.Valid()
    ensures next == from + |ResultRows(index, filter, entry)|
    ensures Tables(db.pipelines, db.dailyStats)
         == InsertAll(Tables(old(db.pipelines), old(db.dailyStats)), ResultRows(index, filter, entry), tx, from)
  {
    ghost var t0 := Tables(db.pipelines, db.dailyStats);
    ghost var rows: seq<Pipeline> := [];
    var project := index[entry.0];
    var pipes := entry.1;
    next := from;
    var j := 0;
    while j < |pipes|
      invariant 0 <= j <= |pipes|
      invariant db.Valid()
      invariant rows == Keep(pipes[..j], (g: GitlabPipeline) => Admits(filter, g.refName), (g: GitlabPipeline) => BackfillRow(project, g))
      invariant next == from + |rows|
      invariant Tables(db.pipelines, db.dailyStats) == InsertAll(t0, rows, tx, from)
    {
      var g := pipes[j];
      assert pipes[..j + 1] == pipes[..j] + [g];
      KeepSnoc(pipes[..j], g, (g: GitlabPipeline) => Admits(filter, g.refName), (g: GitlabPipeline) => BackfillRow(project, g));
      if Admits(filter, g.refName) {
        InsertRow(db, rows, BackfillRow(project, g), tx, from, next, t0);
        rows := rows + [BackfillRow(project, g)];
        next := next + 1;
      } else {
        assert rows + [] == rows;
      }
      j := j + 1;
    }
    assert pipes[..j] == pipes;
  }

  lemma BackfillRowsStep(t0: Tables, index: map<U64, ProjectInfo>, filter: BranchFilter,
                         results: seq<(U64, seq<GitlabPipeline>)>, i: nat, tx: nat -> TxOutcomes)
    requires i < |results|
    ensures var before := BackfillRows(index, filter, results[..i]);
            var rows := ResultRows(index, filter, results[i]);
            BackfillRows(index, filter, results[..i + 1]) == before + rows &&
            InsertAll(t0, before + rows, tx, 0) == InsertAll(InsertAll(t0, before, tx, 0), rows, tx, |before|) &&
            (results[i].0 !in index ==> before + rows == before && InsertAll(t0, before + rows, tx, 0) == InsertAll(t0, before, tx, 0))
  {
    var entry := results[i];
    assert results[..i + 1] == results[..i] + [entry];
    ConcatSnoc(results[..i], entry, (entry: (U64, seq<GitlabPipeline>)) => ResultRows(index, filter, entry));
    InsertAllAppend(t0, BackfillRows(index, filter, results[..i]), ResultRows(index, filter, entry), tx, 0);
    if entry.0 !in index {
      assert BackfillRows(index, filter, results[..i]) + [] == BackfillRows(index, filter, results[..i]);
    }
  }

  /** The loop over the fetch result: entries of unknown projects are skipped. */
  method InsertResults(db: Store, index: map<U64, ProjectInfo>, filter: BranchFilter,
                       results: seq<(U64, seq<GitlabPipeline>)>, tx: nat -> TxOutcomes)
    requires db.Valid()
    modifies db`pipelines, db`dailyStats
    ensures db.Valid()
    ensures Tables(db.pipelines, db.dailyStats)
         == InsertAll(Tables(old(db.pipelines), old(db.dailyStats)), BackfillRows(index, filter, results), tx, 0)
  {
    ghost var t0 := Tables(db.pipelines, db.dailyStats);
    var k: nat := 0;
    var i := 0;
    while i < |results|
      invariant 0 <= i <= |results|
      invariant db.Valid()
      invariant k == |BackfillRows(index, filter, results[..i])|
      invariant Tables(db.pipelines, db.dailyStats) == InsertAll(t0, BackfillRows(index, filter, results[..i]), tx, 0)
    {
      var entry := results[i];
      BackfillRowsStep(t0, index, filter, results, i, tx);
      if entry.0 in index {
        k := InsertResult(db, index, filter, entry, tx, k);
      }
      i := i + 1;
    }
    assert results[..i] == results;
  }

  /** The id index and id list built from the discovered projects. */
  method IndexProjects(projects: seq<ProjectInfo>) returns (index: map<U64, ProjectInfo>, ids: seq<U64>)
    ensures index == IdIndex(projects) && ids == ProjectIds(projects)
  {
    index := map[];
    ids := [];
    for i := 0 to |projects|
      invariant index == IdIndex(projects[..i])
      invariant ids == ProjectIds(projects[..i])
    {
      assert projects[..i + 1][..i] == projects[..i];
      index := index[projects[i].id := projects[i]];
      ids := ids + [projects[i].id];
    }
    assert projects[..|projects|] == projects;
  }

  /** `perform_initial_backfill`: discover the projects, publish them as the
      monitored list, fetch every project's pipelines updated since the
      cutoff, and insert the ones the branch filter admits. A failed
      discovery changes nothing; a failed fetch leaves the tables as they
      were. */
  method InitialBackfill(app: App, discover: Result<seq<ProjectInfo>, string>, now: int, backfillDays: int,
                         inRange: int -> bool, fetch: (seq<U64>, int) -> Result<seq<(U64, seq<GitlabPipeline>)>, string>,
                         filter: BranchFilter, tx: nat -> TxOutcomes)
    requires app.db.Valid()
    modifies app`monitoredProjects, app.db`pipelines, app.db`dailyStats
    ensures app.db.Valid()
    ensures app.monitoredProjects == if discover.Ok? then discover.value else old(app.monitoredProjects)
    ensures Tables(app.db.pipelines, app.db.dailyStats)
         == BackfillTables(Tables(old(app.db.pipelines), old(app.db.dailyStats)), discover, fetch,
                           UpdatedAfter(now, backfillDays, inRange), filter, tx)
  {
    if discover.Err? {
      return;
    }
    var projects := discover.value;
    app.monitoredProjects := [];
    for i := 0 to |projects|
      invariant app.monitoredProjects == projects[..i]
      invariant unchanged(app.db)
    {
      assert projects[..i + 1] == projects[..i] + [projects[i]];
      app.monitoredProjects := app.monitoredProjects + [projects[i]];
    }
    assert projects[..|projects|] == projects;
    var updatedAfter := UpdatedAfter(now, backfillDays, inRange);
    var index, ids := IndexProjects(projects);
    var fetched := fetch(ids, updatedAfter);
    if fetched.Err? {
      return;
    }
    InsertResults(app.db, index, filter, fetched.value, tx);
  }

  /** The start-up steps of `main` around the initial backfill: the
      statement `SELECT COUNT(*) FROM pipelines` is read as 0 when it
      fails, the install counts as fresh when the count is 0, and only a
      fresh install runs `perform_initial_backfill`. `countOk` is the
      outcome of the count statement. */
  method StartUp(app: App, countOk: bool, discover: Result<seq<ProjectInfo>, string>, now: int, backfillDays: int,
                 inRange: int -> bool, fetch: (seq<U64>, int) -> Result<seq<(U64, seq<GitlabPipeline>)>, string>,
                 filter: BranchFilter, tx: nat -> TxOutcomes)
    returns (freshInstall: bool)
    requires app.db.Valid()
    modifies app`monitoredProjects, app.db`pipelines, app.db`dailyStats
    ensures freshInstall <==> !countOk || |old(app.db.pipelines)| == 0
    ensures app.db.Valid()
    ensures freshInstall ==> app.monitoredProjects == if discover.Ok? then discover.value else old(app.monitoredProjects)
    ensures freshInstall ==>
              Tables(app.db.pipelines, app.db.dailyStats)
              == BackfillTables(Tables(old(app.db.pipelines), old(app.db.dailyStats)), discover, fetch,
                                UpdatedAfter(now, backfillDays, inRange), filter, tx)
    ensures !freshInstall ==> unchanged(app) && unchanged(app.db)
  {
    var count := if countOk then (|app.db.pipelines|) else 0;
    freshInstall := count == 0;
    if freshInstall {
      InitialBackfill(app, discover, now, backfillDays, inRange, fetch, filter, tx);
    }
  }
}
