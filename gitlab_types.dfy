/** The upstream records of src/gitlab_types.rs and their conversion to
    stored pipelines: the numeric id taken from a GraphQL global id, the
    duration derived from the timestamps, the lowercased status. RFC 3339
    decoding is a parameter `parse` (text to Unix seconds, or `None`). */
module GitlabTypes {
  import opened Wrappers
  import opened Text
  import opened Models

  const I64Max: int := 0x7FFF_FFFF_FFFF_FFFF
  const TwoTo64: int := 0x1_0000_0000_0000_0000

  /** An unsigned 64-bit value. */
  type U64 = n: nat | n <= U64Max

  /** The `as i64` cast of a `u64`: two's complement reinterpretation. */
  function AsI64(n: U64): (r: int)
    ensures -I64Max - 1 <= r <= I64Max
    ensures r % TwoTo64 == n % TwoTo64
    ensures n <= I64Max <==> r == n
    ensures n > I64Max <==> r < 0
  {
    if n <= I64Max then n else n - TwoTo64
  }

  /** A project as listed by the REST API. */
  datatype ProjectInfo = ProjectInfo(id: U64, name: string, pathWithNamespace: string, lastActivityAt: Option<int>)

  /** A pipeline as the GraphQL API reports it; `createdAt` and
      `finishedAt` are still RFC 3339 text. */
  datatype PipelineInfo = PipelineInfo(
    id: U64,
    sha: string,
    status: string,
    createdAt: string,
    finishedAt: Option<string>,
    duration: Option<U64>,
    refName: string,
    webUrl: Option<string>,
    userName: string)

  /** A project together with its recently active pipelines. */
  datatype ProjectPipelineInfo = ProjectPipelineInfo(
    id: U64, name: string, fullPath: string, webUrl: Option<string>, pipelines: seq<PipelineInfo>)

  /** The GraphQL connection shapes, every field the schema may omit an `Option`. */
  datatype PageInfo = PageInfo(endCursor: Option<string>, hasNextPage: bool)
  datatype PipelineConnection = PipelineConnection(nodes: Option<seq<PipelineInfo>>)
  datatype ProjectNode = ProjectNode(
    id: U64, name: string, fullPath: string, webUrl: Option<string>, pipelines: Option<PipelineConnection>)
  datatype ProjectConnection = ProjectConnection(pageInfo: Option<PageInfo>, nodes: Option<seq<ProjectNode>>)

  /** A pipeline as the REST API reports it; times are already instants
      and the finish time is the upstream `updated_at`. */
  datatype GitlabPipeline = GitlabPipeline(
    id: U64,
    refName: string,
    sha: string,
    status: string,
    createdAt: int,
    updatedAt: Option<int>,
    webUrl: Option<string>,
    duration: Option<U64>)

  /** `parse_gid`: the text after the last `/` (all of it when there is
      none), read as a `u64`. `rsplit` always yields a first piece, so the
      fallback `"0"` of the source never applies and has no counterpart. */
  function ParseGid(s: string): (r: Option<U64>)
    ensures r.Some? ==> r.value <= U64Max
    // without a `/` the whole string is the number
    ensures '/' !in s ==> r == ParseU64(s)
    // a trailing `/` leaves an empty last segment, which is rejected
    ensures s != [] && s[|s| - 1] == '/' ==> r == None
  {
    var seg := AfterLast(s, '/');
    match ParseU64(seg)
    case Some(n) => Some(n)
    case None => None
  }

  lemma {:induction false} AfterLastOfSuffix(prefix: string, sep: char, t: string)
    requires sep !in t
    ensures AfterLast(prefix + [sep] + t, sep) == t
  {
    if t != [] {
      var s := prefix + [sep] + t;
      assert s[..|s| - 1] == prefix + [sep] + t[..|t| - 1];
      AfterLastOfSuffix(prefix, sep, t[..|t| - 1]);
      assert t == t[..|t| - 1] + [t[|t| - 1]];
    }
  }

  /** Whatever precedes the last `/`, only the segment after it is read. */
  lemma GidLastSegment(prefix: string, t: string)
    requires '/' !in t
    ensures ParseGid(prefix + "/" + t) == ParseU64(t)
  {
    AfterLastOfSuffix(prefix, '/', t);
  }

  /** A global id printed as `<prefix>/<n>` parses back to `n`. */
  lemma GidRoundTrip(prefix: string, n: U64)
    ensures ParseGid(prefix + "/" + NatToString(n)) == Some(n)
  {
    var digits := NatToString(n);
    assert '/' !in digits by {
      forall i | 0 <= i < |digits| ensures digits[i] != '/' {
        assert IsDigit(digits[i]);
      }
    }
    AfterLastOfSuffix(prefix, '/', digits);
    ParsePrinted(n);
  }

  /** The duration of a converted pipeline: the upstream one if given (cast
      to `i64`); otherwise finish minus creation when a finish time exists
      and the difference is positive; otherwise none. */
  function DeriveDuration(upstream: Option<U64>, created: int, finished: Option<int>): (r: Option<int>)
    ensures upstream.Some? ==> r == Some(AsI64(upstream.value))
    ensures upstream.None? ==> (r.Some? <==> finished.Some? && finished.value > created)
    ensures upstream.None? && r.Some? ==> r.value > 0 && r.value == finished.value - created
  {
    match (upstream, finished)
    case (Some(d), _) => Some(AsI64(d))
    case (None, Some(f)) => if f - created > 0 then Some(f - created) else None
    case (None, None) => None
  }

  /** `PipelineInfo::to_db_pipeline`. */
  function InfoToDb(info: PipelineInfo, projectId: int, projectName: string, projectFullPath: string,
                    parse: string -> Option<int>): (p: Pipeline)
    ensures p.id == AsI64(info.id)
    ensures p.projectId == projectId && p.projectName == projectName && p.projectFullPath == projectFullPath
    ensures p.refName == info.refName && p.sha == info.sha && p.webUrl == info.webUrl
    ensures p.userName == info.userName
    ensures p.status == ToAsciiLower(info.status)
    ensures p.createdAt == (if parse(info.createdAt).Some? then parse(info.createdAt).value else 0)
    ensures p.finishedAt.Some? <==> info.finishedAt.Some? && parse(info.finishedAt.value).Some?
    ensures p.finishedAt.Some? ==> p.finishedAt == parse(info.finishedAt.value)
    ensures p.duration == DeriveDuration(info.duration, p.createdAt, p.finishedAt)
  {
    var created := parse(info.createdAt).GetOr(0);
    var finished := match info.finishedAt
      case None => None
      case Some(f) => parse(f);
    Pipeline(AsI64(info.id), projectId, projectName, projectFullPath, info.refName, info.sha, info.userName,
             ToAsciiLower(info.status), created, finished, DeriveDuration(info.duration, created, finished),
             info.webUrl)
  }

  /** `GitlabPipeline::to_db_pipeline`: the REST record has no user, so the
      name is empty, and its finish time is `updated_at`. */
  function RestToDb(g: GitlabPipeline, projectId: int, projectName: string, projectFullPath: string): (p: Pipeline)
    ensures p.id == AsI64(g.id)
    ensures p.projectId == projectId && p.projectName == projectName && p.projectFullPath == projectFullPath
    ensures p.refName == g.refName && p.sha == g.sha && p.webUrl == g.webUrl
    ensures p.userName == ""
    ensures p.status == ToAsciiLower(g.status)
    ensures p.createdAt == g.createdAt && p.finishedAt == g.updatedAt
    ensures p.duration == DeriveDuration(g.duration, g.createdAt, g.updatedAt)
  {
    Pipeline(AsI64(g.id), projectId, projectName, projectFullPath, g.refName, g.sha, "",
             ToAsciiLower(g.status), g.createdAt, g.updatedAt, DeriveDuration(g.duration, g.createdAt, g.updatedAt),
             g.webUrl)
  }

  /** The two conversions agree: a REST record and a GraphQL record that
      carry the same data (their times decoding to the same instants)
      become the same stored row up to the user name, which only GraphQL
      supplies. */
  lemma ConversionsAgree(info: PipelineInfo, g: GitlabPipeline, projectId: int, projectName: string,
                         projectFullPath: string, parse: string -> Option<int>)
    requires info.id == g.id && info.sha == g.sha && info.status == g.status && info.refName == g.refName
    requires info.webUrl == g.webUrl && info.duration == g.duration
    requires parse(info.createdAt) == Some(g.createdAt)
    requires g.updatedAt.Some? <==> info.finishedAt.Some?
    requires g.updatedAt.Some? ==> parse(info.finishedAt.value) == g.updatedAt
    ensures InfoToDb(info, projectId, projectName, projectFullPath, parse)
         == RestToDb(g, projectId, projectName, projectFullPath).(userName := info.userName)
  {
  }

  /** Converting an id by the two steps of the source, global id then
      cast, keeps it whenever it fits in an `i64`. */
  lemma GidToStoredId(prefix: string, info: PipelineInfo, n: U64, projectId: int, projectName: string,
                      projectFullPath: string, parse: string -> Option<int>)
    requires n <= I64Max && info.id == n
    ensures ParseGid(prefix + "/" + NatToString(n)) == Some(n)
    ensures InfoToDb(info, projectId, projectName, projectFullPath, parse).id == n
  {
    GidRoundTrip(prefix, n);
  }
}
