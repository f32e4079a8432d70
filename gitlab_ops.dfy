/** The REST side of src/gitlab_ops.rs: project discovery over the
    configured groups, the per-project retry loop with exponential backoff,
    and the folding of the per-project outcomes into one result list. Each
    remote reply is an input; sleeping is recorded as the list of delays. */
module GitlabOps {
  import opened Wrappers
  import opened Text
  import opened GitlabTypes

  // ----- discover_projects -----

  /** Every reply was a success. */
  predicate AllOk(replies: seq<Result<seq<ProjectInfo>, string>>) {
    forall i :: 0 <= i < |replies| ==> replies[i].Ok?
  }

  /** The index of the first failed reply, if any. */
  function FirstErr(replies: seq<Result<seq<ProjectInfo>, string>>): (r: Option<nat>)
    ensures r.None? <==> AllOk(replies)
    ensures r.Some? ==> r.value < |replies| && replies[r.value].Err? && AllOk(replies[..r.value])
    decreases |replies|
  {
    if replies == [] then None
    else
      var n := |replies| - 1;
      match FirstErr(replies[..n])
      case Some(k) =>
        assert replies[..k] == replies[..n][..k];
        Some(k)
      case None =>
        assert forall i :: 0 <= i < n ==> replies[i] == replies[..n][i];
        if replies[n].Err? then Some(n) else None
  }

  /** `discover_projects`: the projects of the groups one group after
      another, or the first failure (the `?` returns at once, so later
      groups are not asked). */
  function Discovered(replies: seq<Result<seq<ProjectInfo>, string>>): Result<seq<ProjectInfo>, string>
    decreases |replies|
  {
    if replies == [] then Ok([])
    else
      match Discovered(replies[..|replies| - 1])
      case Err(e) => Err(e)
      case Ok(all) =>
        match replies[|replies| - 1]
        case Err(e) => Err(e)
        case Ok(projects) => Ok(all + projects)
  }

  /** The loop of `discover_projects`; `asked` is how many groups were asked. */
  method DiscoverProjects(replies: seq<Result<seq<ProjectInfo>, string>>) returns (r: Result<seq<ProjectInfo>, string>, asked: nat)
    ensures r == Discovered(replies)
    ensures r.Ok? ==> asked == |replies|
    ensures r.Err? ==> FirstErr(replies).Some? && asked == FirstErr(replies).value + 1
  {
    var all: seq<ProjectInfo> := [];
    asked := 0;
    var i := 0;
    while i < |replies|
      invariant 0 <= i <= |replies| && asked == i
      invariant AllOk(replies[..i])
      invariant Discovered(replies[..i]) == Ok(all)
    {
      asked := asked + 1;
      var reply := replies[i];
      assert replies[..i + 1][..i] == replies[..i];
      if reply.Err? {
        FirstErrAt(replies, i);
        DiscoveredFirstErr(replies, i);
        return Err(reply.error), asked;
      }
      // the inner `for p in projects { all_projects.push(p) }`
      var j := 0;
      ghost var before := all;
      while j < |reply.value|
        invariant 0 <= j <= |reply.value|
        invariant all == before + reply.value[..j]
      {
        assert reply.value[..j + 1] == reply.value[..j] + [reply.value[j]];
        all := all + [reply.value[j]];
        j := j + 1;
      }
      assert reply.value[..j] == reply.value;
      i := i + 1;
    }
    assert replies[..i] == replies;
    r := Ok(all);
  }

  lemma FirstErrAt(replies: seq<Result<seq<ProjectInfo>, string>>, i: nat)
    requires i < |replies| && replies[i].Err? && AllOk(replies[..i])
    ensures FirstErr(replies) == Some(i)
  {
  }

  /** Once the groups before `i` have answered, a failure of group `i` is
      the result of the whole discovery. */
  lemma {:induction false} DiscoveredFirstErr(replies: seq<Result<seq<ProjectInfo>, string>>, i: nat)
    requires i < |replies| && replies[i].Err? && Discovered(replies[..i]).Ok?
    ensures Discovered(replies) == Err(replies[i].error)
    decreases |replies|
  {
    var n := |replies| - 1;
    if i < n {
      assert replies[..n][..i] == replies[..i];
      DiscoveredFirstErr(replies[..n], i);
    } else {
      assert replies[..n] == replies[..i];
    }
  }

  /** Discovery succeeds exactly when every group answers, and then lists
      exactly the groups' projects; when it fails, it reports the first
      group that failed. */
  lemma {:induction false} DiscoveredOk(replies: seq<Result<seq<ProjectInfo>, string>>, p: ProjectInfo)
    ensures Discovered(replies).Ok? <==> AllOk(replies)
    ensures Discovered(replies).Ok? ==>
      (p in Discovered(replies).value <==> exists i :: 0 <= i < |replies| && p in replies[i].value)
    ensures Discovered(replies).Err? ==> Discovered(replies).error == replies[FirstErr(replies).value].error
    decreases |replies|
  {
    if replies != [] {
      var n := |replies| - 1;
      var init := replies[..n];
      DiscoveredOk(init, p);
      forall i | 0 <= i < n ensures init[i] == replies[i] { }
      if Discovered(init).Err? {
        assert FirstErr(replies) == FirstErr(init) by {
          var k := FirstErr(init).value;
          assert replies[..k] == init[..k];
          FirstErrAt(replies, k);
        }
      } else if replies[n].Err? {
        FirstErrAt(replies, n);
      } else if exists i :: 0 <= i < |replies| && p in replies[i].value {
        var i :| 0 <= i < |replies| && p in replies[i].value;
        if i < n {
          assert p in init[i].value;
        }
      }
    }
  }

  // ----- fetch_pipelines_concurrent: one project's task -----

  const MaxRetries: nat := 3

  /** 2 to the power `n`. */
  function Pow2(n: nat): (r: nat)
    ensures r >= 1
  {
    if n == 0 then 1 else 2 * Pow2(n - 1)
  }

  /** `500u64.saturating_mul(1u64 << (attempt - 1))`: the wait after failed
      attempt `attempt`, in milliseconds. */
  function Backoff(attempt: nat): (ms: nat)
    requires 1 <= attempt <= MaxRetries
    ensures ms <= U64Max
    ensures attempt > 1 ==> ms == 2 * Backoff(attempt - 1)
  {
    var full := 500 * Pow2(attempt - 1);
    if full > U64Max then U64Max else full
  }

  /** How many attempts the loop makes: the first successful one, or the
      last allowed one when all fail. */
  function AttemptsUsed(reply: nat -> Result<seq<GitlabPipeline>, string>): (n: nat)
    ensures 1 <= n <= MaxRetries + 1
    ensures n <= MaxRetries ==> reply(n).Ok?
    ensures forall k :: 1 <= k < n ==> reply(k).Err?
  {
    FirstOkFrom(reply, 1)
  }

  function FirstOkFrom(reply: nat -> Result<seq<GitlabPipeline>, string>, k: nat): (n: nat)
    requires 1 <= k <= MaxRetries + 1
    ensures k <= n <= MaxRetries + 1
    ensures n <= MaxRetries ==> reply(n).Ok?
    ensures forall j :: k <= j < n ==> reply(j).Err?
    decreases MaxRetries + 1 - k
  {
    if k == MaxRetries + 1 || reply(k).Ok? then k else FirstOkFrom(reply, k + 1)
  }

  /** The retry loop of one task: attempt `n` meets `reply(n)`. It returns
      the first success at once and gives up after the fourth failure;
      `delays` lists the waits between attempts. */
  method FetchWithRetry(reply: nat -> Result<seq<GitlabPipeline>, string>)
    returns (r: Result<seq<GitlabPipeline>, string>, attempts: nat, delays: seq<nat>)
    ensures attempts == AttemptsUsed(reply) && r == reply(attempts)
    ensures r.Err? ==> attempts == MaxRetries + 1
    ensures delays == [500, 1000, 2000][..attempts - 1]
  {
    var attempt: nat := 0;
    delays := [];
    while true
      invariant attempt <= MaxRetries
      invariant forall k :: 1 <= k <= attempt ==> reply(k).Err?
      invariant delays == [500, 1000, 2000][..attempt]
      decreases MaxRetries - attempt
    {
      attempt := attempt + 1;
      var res := reply(attempt);
      if res.Ok? {
        AttemptsUsedIs(reply, attempt);
        return res, attempt, delays;
      }
      if attempt > MaxRetries {
        AttemptsUsedIs(reply, attempt);
        return res, attempt, delays;
      }
      BackoffSchedule(attempt);
      assert [500, 1000, 2000][..attempt] == [500, 1000, 2000][..attempt - 1] + [Backoff(attempt)];
      delays := delays + [Backoff(attempt)];
    }
  }

  lemma AttemptsUsedIs(reply: nat -> Result<seq<GitlabPipeline>, string>, n: nat)
    requires 1 <= n <= MaxRetries + 1
    requires n <= MaxRetries ==> reply(n).Ok?
    requires forall k :: 1 <= k < n ==> reply(k).Err?
    ensures AttemptsUsed(reply) == n
  {
  }

  /** The waits are 500, 1000 and 2000 ms. */
  lemma BackoffSchedule(attempt: nat)
    requires 1 <= attempt <= MaxRetries
    ensures Backoff(attempt) == [500, 1000, 2000][attempt - 1]
  {
    if attempt > 1 {
      BackoffSchedule(attempt - 1);
    }
  }

  // ----- fetch_pipelines_concurrent: folding the outcomes -----

  /** What one task delivers to the join loop: its project id and result,
      or `None` for a join error (the spawned future panicked or was cancelled). */
  type TaskOutcome = Option<(U64, Result<seq<GitlabPipeline>, string>)>

  /** The result list: one entry per joined task, in join order; a task
      whose retries were exhausted contributes an empty list. */
  function Collected(outcomes: seq<TaskOutcome>): (r: seq<(U64, seq<GitlabPipeline>)>)
    decreases |outcomes|
  {
    if outcomes == [] then []
    else
      var rest := Collected(outcomes[..|outcomes| - 1]);
      match outcomes[|outcomes| - 1]
      case None => rest
      case Some((pid, Ok(pipes))) => rest + [(pid, pipes)]
      case Some((pid, Err(_))) => rest + [(pid, [])]
  }

  /** The number of joined tasks. */
  function Joined(outcomes: seq<TaskOutcome>): nat
    decreases |outcomes|
  {
    if outcomes == [] then 0
    else Joined(outcomes[..|outcomes| - 1]) + if outcomes[|outcomes| - 1].Some? then 1 else 0
  }

  /** Only join errors drop an entry; every joined task appears with its
      pipelines, or with none when it failed. */
  lemma {:induction false} CollectedEntries(outcomes: seq<TaskOutcome>, pid: U64, pipes: seq<GitlabPipeline>)
    ensures |Collected(outcomes)| == Joined(outcomes)
    ensures (pid, pipes) in Collected(outcomes) <==>
      exists i :: 0 <= i < |outcomes| && outcomes[i].Some? && outcomes[i].value.0 == pid &&
        pipes == (if outcomes[i].value.1.Ok? then outcomes[i].value.1.value else [])
    decreases |outcomes|
  {
    if outcomes != [] {
      var n := |outcomes| - 1;
      var init := outcomes[..n];
      CollectedEntries(init, pid, pipes);
      forall i | 0 <= i < n ensures outcomes[i] == init[i] { }
    }
  }

  /** The join loop of `fetch_pipelines_concurrent`; it always returns `Ok`. */
  method CollectResults(outcomes: seq<TaskOutcome>) returns (r: Result<seq<(U64, seq<GitlabPipeline>)>, string>)
    ensures r == Ok(Collected(outcomes))
  {
    var results: seq<(U64, seq<GitlabPipeline>)> := [];
    var i := 0;
    while i < |outcomes|
      invariant 0 <= i <= |outcomes|
      invariant results == Collected(outcomes[..i])
    {
      assert outcomes[..i + 1][..i] == outcomes[..i];
      match outcomes[i] {
        case Some((pid, Ok(pipes))) =>
          results := results + [(pid, pipes)];
        case Some((pid, Err(_))) =>
          results := results + [(pid, [])];
        case None =>
      }
      i := i + 1;
    }
    assert outcomes[..i] == outcomes;
    r := Ok(results);
  }

  /** `fetch_pipelines_concurrent` run one task after another: project
      `ids[k]` meets the replies `replies(k)`, and the `k`-th task joins
      unless `joinFails(k)`. */
  method FetchPipelinesConcurrent(ids: seq<U64>, replies: nat -> nat -> Result<seq<GitlabPipeline>, string>,
                                  joinFails: nat -> bool)
    returns (r: Result<seq<(U64, seq<GitlabPipeline>)>, string>)
    ensures r == Ok(Collected(TaskOutcomes(ids, replies, joinFails)))
  {
    var outcomes: seq<TaskOutcome> := [];
    var k := 0;
    while k < |ids|
      invariant 0 <= k <= |ids|
      invariant outcomes == TaskOutcomes(ids[..k], replies, joinFails)
    {
      var res, _, _ := FetchWithRetry(replies(k));
      assert ids[..k + 1][..k] == ids[..k];
      outcomes := outcomes + [if joinFails(k) then None else Some((ids[k], res))];
      k := k + 1;
    }
    assert ids[..k] == ids;
    r := CollectResults(outcomes);
  }

  /** The outcome of each project's task. */
  function TaskOutcomes(ids: seq<U64>, replies: nat -> nat -> Result<seq<GitlabPipeline>, string>,
                        joinFails: nat -> bool): (r: seq<TaskOutcome>)
    ensures |r| == |ids|
    // task k either fails to join or reports its project id and the reply of its last attempt
    ensures forall k :: 0 <= k < |ids| ==> (r[k].None? <==> joinFails(k))
    ensures forall k :: 0 <= k < |ids| && !joinFails(k) ==> r[k] == Some((ids[k], replies(k)(AttemptsUsed(replies(k)))))
    decreases |ids|
  {
    if ids == [] then []
    else
      var k := |ids| - 1;
      TaskOutcomes(ids[..k], replies, joinFails) +
        [if joinFails(k) then None else Some((ids[k], replies(k)(AttemptsUsed(replies(k)))))]
  }
}
