/** The GraphQL and REST client of src/gitlab_graphql.rs: the base URL it
    keeps, how `post_graphql` folds a reply into a value or an error, the
    page loop of `fetch_incremental_activity`, and the two pipeline user
    lookups. The network is a parameter: every request is answered by
    the next reply of a given sequence. */
module GitlabGraphql {
  import opened Wrappers
  import opened Text
  import opened GitlabTypes

  /** A decoded JSON document (`serde_json::Value`); an object maps each
      key to one value. */
  datatype Json =
    | JNull
    | JBool(b: bool)
    | JNum(n: int)
    | JStr(s: string)
    | JArr(items: seq<Json>)
    | JObj(fields: map<string, Json>)

  /** The client: the base URL without trailing `/`, and the token. */
  datatype Client = Client(baseUrl: string, token: string)

  /** `GitlabGraphqlClient::new`: every trailing `/` of the URL is dropped. */
  function NewClient(baseUrl: string, token: string): (c: Client)
    ensures c.token == token
    ensures c.baseUrl != [] ==> c.baseUrl[|c.baseUrl| - 1] != '/'
    ensures |c.baseUrl| <= |baseUrl| && baseUrl[..|c.baseUrl|] == c.baseUrl
    ensures forall i :: |c.baseUrl| <= i < |baseUrl| ==> baseUrl[i] == '/'
  {
    Client(TrimEndMatches(baseUrl, '/'), token)
  }

  /** Making a client from a client's URL changes nothing. */
  lemma NewClientIdempotent(baseUrl: string, token: string)
    ensures NewClient(NewClient(baseUrl, token).baseUrl, token) == NewClient(baseUrl, token)
  {
  }

  /** A URL differing only in trailing slashes gives the same client. */
  lemma {:induction false} NewClientIgnoresSlashes(baseUrl: string, token: string, n: nat)
    ensures NewClient(baseUrl + Slashes(n), token) == NewClient(baseUrl, token)
  {
    if n > 0 {
      var s := baseUrl + Slashes(n);
      assert s[..|s| - 1] == baseUrl + Slashes(n - 1);
      NewClientIgnoresSlashes(baseUrl, token, n - 1);
    } else {
      assert baseUrl + Slashes(n) == baseUrl;
    }
  }

  function Slashes(n: nat): string {
    if n == 0 then [] else Slashes(n - 1) + "/"
  }

  // ---------------------------------------------------------------------
  // HTTP replies and `post_graphql`
  // ---------------------------------------------------------------------

  /** What came back for one HTTP request: nothing (the send failed), or a
      status with its reason phrase, the body text, and the body decoded as
      the expected JSON shape (`None` when that decoding failed). */
  datatype HttpReply<B> =
    | SendFailed
    | Answered(status: nat, reason: string, text: string, body: Option<B>)

  /** `RawGraphQLResponse<Value>`: the data, and the messages of the errors. */
  datatype GraphqlBody = GraphqlBody(data: Option<Json>, errors: Option<seq<string>>)

  type GraphqlReply = HttpReply<GraphqlBody>
  type RestReply = HttpReply<Json>

  /** `StatusCode::is_success`. */
  predicate IsSuccess(status: nat) {
    200 <= status <= 299
  }

  /** `{}` of a `StatusCode`: the number, a space, the reason phrase. */
  function StatusText(status: nat, reason: string): string {
    NatToString(status) + " " + reason
  }

  /** The error list counts only when it holds at least one error. */
  predicate HasErrors(errors: Option<seq<string>>) {
    errors.Some? && errors.value != []
  }

  /** `serde_json::to_value(body)`: the whole response again, an object with
      the keys `data` and `errors`, an absent part written as `null`. */
  function Reserialized(body: GraphqlBody): (j: Json)
    ensures j.JObj? && j.fields.Keys == {"data", "errors"}
  {
    var errors := match body.errors
      case None => JNull
      case Some(ms) => JArr(seq(|ms|, i requires 0 <= i < |ms| => JObj(map["message" := JStr(ms[i])])));
    JObj(map["data" := body.data.GetOr(JNull), "errors" := errors])
  }

  /** `post_graphql` up to the typed decoding: the error of the first check
      that fails, else the document the typed decoding is applied to. */
  function Checked(reply: GraphqlReply): (r: Result<Json, string>)
    ensures r.Ok? <==> reply.Answered? && IsSuccess(reply.status) && reply.body.Some? && !HasErrors(reply.body.value.errors)
    ensures r.Ok? ==> r.value == Reserialized(reply.body.value)
    ensures reply.SendFailed? ==> r == Err("Failed to send GraphQL request")
    ensures reply.Answered? && !IsSuccess(reply.status) ==>
      r == Err("GraphQL HTTP Error " + StatusText(reply.status, reply.reason) + ": " + reply.text)
    ensures reply.Answered? && IsSuccess(reply.status) && reply.body.None? ==> r == Err("Failed to parse JSON")
    ensures reply.Answered? && IsSuccess(reply.status) && reply.body.Some? && HasErrors(reply.body.value.errors) ==>
      r == Err("GraphQL API Error: " + Join(reply.body.value.errors.value, ", "))
  {
    match reply
    case SendFailed => Err("Failed to send GraphQL request")
    case Answered(status, reason, text, body) =>
      if !IsSuccess(status) then Err("GraphQL HTTP Error " + StatusText(status, reason) + ": " + text)
      else if body.None? then Err("Failed to parse JSON")
      else if HasErrors(body.value.errors) then Err("GraphQL API Error: " + Join(body.value.errors.value, ", "))
      else Ok(Reserialized(body.value))
  }

  /** Two GraphQL errors are reported together, in order, behind one prefix. */
  lemma TwoApiErrors(data: Option<Json>, m1: string, m2: string)
    ensures Checked(Answered(200, "OK", "", Some(GraphqlBody(data, Some([m1, m2])))))
         == Err("GraphQL API Error: " + m1 + ", " + m2)
  {
    assert [m1, m2][1..] == [m2];
    assert Join([m1, m2], ", ") == m1 + ", " + m2;
    assert "GraphQL API Error: " + (m1 + ", " + m2) == "GraphQL API Error: " + m1 + ", " + m2;
  }

  /** A present but empty error list lets the reply through, as an absent
      one does, and the two give the same document apart from `errors`. */
  lemma EmptyErrorsAccepted(data: Option<Json>)
    ensures var a := Checked(Answered(200, "OK", "", Some(GraphqlBody(data, Some([])))));
            var b := Checked(Answered(200, "OK", "", Some(GraphqlBody(data, None))));
            a.Ok? && b.Ok? && a.value.fields["data"] == b.value.fields["data"]
  {
  }

  /** The value under `key` of an object, as a Rust `Option` field reads it:
      absent and `null` are both `None`. */
  function OptField(j: Json, key: string): (r: Option<Json>)
    ensures r.Some? <==> j.JObj? && key in j.fields && j.fields[key] != JNull
    ensures r.Some? ==> r.value == j.fields[key]
  {
    if j.JObj? && key in j.fields && j.fields[key] != JNull then Some(j.fields[key]) else None
  }

  // ---------------------------------------------------------------------
  // The user lookups
  // ---------------------------------------------------------------------

  /** The typed answer of the global-id lookup. */
  datatype UserNode = UserNode(name: Option<string>)
  datatype PipelineNode = PipelineNode(user: Option<UserNode>)
  datatype PipelineResp = PipelineResp(node: Option<PipelineNode>)

  /** Deriving `Deserialize` for `UserNode`: an object whose `name`, when
      present and not `null`, is a string. */
  function DecodeUserNode(j: Json): (r: Result<UserNode, string>)
    ensures r.Ok? <==> j.JObj? && (OptField(j, "name").None? || OptField(j, "name").value.JStr?)
    ensures r.Ok? ==> r.value.name == if OptField(j, "name").Some? then Some(OptField(j, "name").value.s) else None
  {
    if !j.JObj? then Err("invalid type: expected struct UserNode")
    else match OptField(j, "name")
      case None => Ok(UserNode(None))
      case Some(JStr(s)) => Ok(UserNode(Some(s)))
      case Some(_) => Err("invalid type: expected a string")
  }

  function DecodePipelineNode(j: Json): (r: Result<PipelineNode, string>)
    ensures r.Ok? ==> j.JObj?
    ensures j.JObj? && OptField(j, "user").None? ==> r == Ok(PipelineNode(None))
  {
    if !j.JObj? then Err("invalid type: expected struct PipelineNode")
    else match OptField(j, "user")
      case None => Ok(PipelineNode(None))
      case Some(u) =>
        match DecodeUserNode(u)
        case Err(e) => Err(e)
        case Ok(user) => Ok(PipelineNode(Some(user)))
  }

  /** Deriving `Deserialize` for `PipelineResp`: an object whose `node`, when
      present and not `null`, is a pipeline node; other keys are ignored. */
  function DecodePipelineResp(j: Json): (r: Result<PipelineResp, string>)
    ensures r.Ok? ==> j.JObj?
    ensures j.JObj? && OptField(j, "node").None? ==> r == Ok(PipelineResp(None))
  {
    if !j.JObj? then Err("invalid type: expected struct PipelineResp")
    else match OptField(j, "node")
      case None => Ok(PipelineResp(None))
      case Some(n) =>
        match DecodePipelineNode(n)
        case Err(e) => Err(e)
        case Ok(node) => Ok(PipelineResp(Some(node)))
  }

  /** `resp.node.and_then(|n| n.user.and_then(|u| u.name))`. */
  function NodeUserName(resp: PipelineResp): Option<string> {
    if resp.node.Some? && resp.node.value.user.Some? then resp.node.value.user.value.name else None
  }

  /** `fetch_pipeline_user_by_gid` as written: the typed decoding is applied
      to the re-serialised whole response, whose keys are `data` and
      `errors`, not to its `data`. */
  function LookupByGid(reply: GraphqlReply): Result<Option<string>, string> {
    match Checked(reply)
    case Err(e) => Err(e)
    case Ok(j) =>
      match DecodePipelineResp(j)
      case Err(e) => Err(e)
      case Ok(resp) => Ok(NodeUserName(resp))
  }

  /** As written, the lookup never yields a name: every reply that gets
      through the checks gives `Ok(None)`, and the others give the error. */
  lemma GidLookupNeverNames(reply: GraphqlReply)
    ensures LookupByGid(reply).Ok? <==> Checked(reply).Ok?
    ensures LookupByGid(reply).Ok? ==> LookupByGid(reply) == Ok(None)
  {
    if Checked(reply).Ok? {
      var j := Checked(reply).value;
      assert "node" !in j.fields;
    }
  }

  /** The reply GitLab sends for a pipeline whose author is called `name`. */
  function ReplyNaming(name: string): GraphqlReply {
    Answered(200, "OK", "", Some(GraphqlBody(
      Some(JObj(map["node" := JObj(map["user" := JObj(map["name" := JStr(name)])])])), None)))
  }

  /** The discrepancy on one input: the author's name is in the reply and
      the lookup as written still reports none. */
  lemma GidLookupMissesName(name: string)
    ensures LookupByGid(ReplyNaming(name)) == Ok(None)
  {
    GidLookupNeverNames(ReplyNaming(name));
  }

  /** The lookup as evidently intended: the typed decoding reads the
      response's `data` (a reply without data has nothing to decode). */
  function LookupByGidFixed(reply: GraphqlReply): (r: Result<Option<string>, string>)
    ensures Checked(reply).Err? ==> r == Err(Checked(reply).error)
    ensures Checked(reply).Ok? && reply.body.value.data.Some? ==>
      r == (match DecodePipelineResp(reply.body.value.data.value)
            case Err(e) => Err(e)
            case Ok(resp) => Ok(NodeUserName(resp)))
  {
    match Checked(reply)
    case Err(e) => Err(e)
    case Ok(_) =>
      match reply.body.value.data
      case None => Err("invalid type: null, expected struct PipelineResp")
      case Some(d) =>
        match DecodePipelineResp(d)
        case Err(e) => Err(e)
        case Ok(resp) => Ok(NodeUserName(resp))
  }

  /** The corrected lookup recovers the name the reply carries, and a reply
      whose node or user is `null` still means "no name". */
  lemma GidLookupFixedNames(name: string)
    ensures LookupByGidFixed(ReplyNaming(name)) == Ok(Some(name))
    ensures LookupByGidFixed(Answered(200, "OK", "", Some(GraphqlBody(Some(JObj(map["node" := JNull])), None)))) == Ok(None)
    ensures LookupByGidFixed(Answered(200, "OK", "", Some(GraphqlBody(
              Some(JObj(map["node" := JObj(map["user" := JNull])])), None)))) == Ok(None)
  {
    var user := JObj(map["name" := JStr(name)]);
    assert DecodeUserNode(user) == Ok(UserNode(Some(name)));
    var node := JObj(map["user" := user]);
    assert DecodePipelineNode(node) == Ok(PipelineNode(Some(UserNode(Some(name)))));
    var pipelineNode := JObj(map["user" := JNull]);
    assert DecodePipelineNode(pipelineNode) == Ok(PipelineNode(None));
  }

  /** The name that `v.get("user").and_then(|u| u.get("name"))
      .and_then(|n| n.as_str())` finds: only a string counts. */
  function UserNameOf(v: Json): (r: Option<string>)
    ensures r.Some? <==> (v.JObj? && "user" in v.fields && v.fields["user"].JObj?
                          && "name" in v.fields["user"].fields && v.fields["user"].fields["name"].JStr?)
    ensures r.Some? ==> r.value == v.fields["user"].fields["name"].s
  {
    if v.JObj? && "user" in v.fields && v.fields["user"].JObj? && "name" in v.fields["user"].fields
       && v.fields["user"].fields["name"].JStr?
    then Some(v.fields["user"].fields["name"].s)
    else None
  }

  /** `fetch_pipeline_user_via_rest`: the failures of the request, then the
      user's name if the pipeline document has one. */
  function LookupViaRest(reply: RestReply): (r: Result<Option<string>, string>)
    ensures r.Ok? <==> reply.Answered? && IsSuccess(reply.status) && reply.body.Some?
    ensures r.Ok? ==> r.value == UserNameOf(reply.body.value)
    ensures reply.SendFailed? ==> r == Err("Failed to send REST request for pipeline")
    ensures reply.Answered? && !IsSuccess(reply.status) ==>
      r == Err("REST HTTP Error " + StatusText(reply.status, reply.reason) + ": " + reply.text)
    ensures reply.Answered? && IsSuccess(reply.status) && reply.body.None? ==> r == Err("Failed to parse REST JSON")
  {
    match reply
    case SendFailed => Err("Failed to send REST request for pipeline")
    case Answered(status, reason, text, body) =>
      if !IsSuccess(status) then Err("REST HTTP Error " + StatusText(status, reason) + ": " + text)
      else if body.None? then Err("Failed to parse REST JSON")
      else Ok(UserNameOf(body.value))
  }

  /** A user whose name is `null`, or a number, gives no name, not an error. */
  lemma RestNameMustBeString(n: int)
    ensures LookupViaRest(Answered(200, "OK", "", Some(JObj(map["user" := JObj(map["name" := JNum(n)])])))) == Ok(None)
    ensures LookupViaRest(Answered(200, "OK", "", Some(JObj(map["user" := JObj(map["name" := JNull])])))) == Ok(None)
  {
  }

  // ---------------------------------------------------------------------
  // `fetch_incremental_activity`
  // ---------------------------------------------------------------------

  /** Pipelines are asked for from one minute before `since`. */
  const QueryLead: int := 60

  function QueryTime(since: int): (t: int)
    ensures t < since && since - t == QueryLead
  {
    since - QueryLead
  }

  /** The typed page answer. */
  datatype GroupNode = GroupNode(projects: Option<ProjectConnection>)
  datatype GroupData = GroupData(group: Option<GroupNode>)
  datatype GroupQueryResponse = GroupQueryResponse(data: Option<GroupData>)

  /** The variables of one page request. */
  datatype PageRequest = PageRequest(fullPath: string, cursor: Option<string>, updatedAfter: int)

  function DecodeGroupNode(j: Json, conn: Json -> Result<ProjectConnection, string>): (r: Result<GroupNode, string>)
    ensures r.Ok? ==> j.JObj?
    ensures j.JObj? && OptField(j, "projects").Some? ==>
      r == (match conn(OptField(j, "projects").value) case Err(e) => Err(e) case Ok(c) => Ok(GroupNode(Some(c))))
  {
    if !j.JObj? then Err("invalid type: expected struct GroupNode")
    else match OptField(j, "projects")
      case None => Ok(GroupNode(None))
      case Some(p) =>
        match conn(p)
        case Err(e) => Err(e)
        case Ok(c) => Ok(GroupNode(Some(c)))
  }

  function DecodeGroupData(j: Json, conn: Json -> Result<ProjectConnection, string>): (r: Result<GroupData, string>)
    ensures r.Ok? ==> j.JObj?
    ensures j.JObj? && OptField(j, "group").None? ==> r == Ok(GroupData(None))
  {
    if !j.JObj? then Err("invalid type: expected struct GroupData")
    else match OptField(j, "group")
      case None => Ok(GroupData(None))
      case Some(g) =>
        match DecodeGroupNode(g, conn)
        case Err(e) => Err(e)
        case Ok(node) => Ok(GroupData(Some(node)))
  }

  /** Deriving `Deserialize` for `GroupQueryResponse`: it reads `data`, so
      it fits the re-serialised response. The project connection's own
      decoding (with its global ids) is the parameter `conn`. */
  function DecodeGroupQuery(j: Json, conn: Json -> Result<ProjectConnection, string>): (r: Result<GroupQueryResponse, string>)
    ensures r.Ok? ==> j.JObj?
    ensures j.JObj? && OptField(j, "data").None? ==> r == Ok(GroupQueryResponse(None))
  {
    if !j.JObj? then Err("invalid type: expected struct GroupQueryResponse")
    else match OptField(j, "data")
      case None => Ok(GroupQueryResponse(None))
      case Some(d) =>
        match DecodeGroupData(d, conn)
        case Err(e) => Err(e)
        case Ok(data) => Ok(GroupQueryResponse(Some(data)))
  }

  /** One `post_graphql` call of the page loop. */
  function GroupPage(reply: GraphqlReply, conn: Json -> Result<ProjectConnection, string>): Result<GroupQueryResponse, string> {
    match Checked(reply)
    case Err(e) => Err(e)
    case Ok(j) => DecodeGroupQuery(j, conn)
  }

  /** Unlike the user lookup, the page query sees the data of the reply:
      a reply carrying a group with projects decodes to that group. */
  lemma GroupPageReadsData(c: ProjectConnection, cj: Json, conn: Json -> Result<ProjectConnection, string>)
    requires cj != JNull && conn(cj) == Ok(c)
    ensures GroupPage(Answered(200, "OK", "", Some(GraphqlBody(Some(JObj(map["group" := JObj(map["projects" := cj])])), None))), conn)
         == Ok(GroupQueryResponse(Some(GroupData(Some(GroupNode(Some(c)))))))
  {
    var g := JObj(map["projects" := cj]);
    assert DecodeGroupNode(g, conn) == Ok(GroupNode(Some(c)));
    var d := JObj(map["group" := g]);
    assert DecodeGroupData(d, conn) == Ok(GroupData(Some(GroupNode(Some(c)))));
  }

  /** The page has a group with projects and their page info. */
  predicate HasProjects(page: Result<GroupQueryResponse, string>) {
    page.Ok? && page.value.data.Some? && page.value.data.value.group.Some?
    && page.value.data.value.group.value.projects.Some?
  }

  /** The group is missing (or the reply is an error): the loop stops with an error. */
  predicate GroupMissing(page: Result<GroupQueryResponse, string>) {
    page.Ok? && (page.value.data.None? || page.value.data.value.group.None?)
  }

  function Projects(page: Result<GroupQueryResponse, string>): ProjectConnection
    requires HasProjects(page)
  {
    page.value.data.value.group.value.projects.value
  }

  /** The page says another page follows. */
  predicate HasMore(page: Result<GroupQueryResponse, string>) {
    HasProjects(page) && Projects(page).pageInfo.Some? && Projects(page).pageInfo.value.hasNextPage
  }

  /** The cursor of the next request. */
  function NextCursor(page: Result<GroupQueryResponse, string>, cursor: Option<string>): Option<string> {
    if HasProjects(page) && Projects(page).pageInfo.Some? then Projects(page).pageInfo.value.endCursor else cursor
  }

  /** The project nodes of a page, none when it has no projects or nodes. */
  function PageNodes(page: Result<GroupQueryResponse, string>): seq<ProjectNode> {
    if HasProjects(page) && Projects(page).nodes.Some? then Projects(page).nodes.value else []
  }

  /** A project with at least one recent pipeline. */
  predicate Active(p: ProjectNode) {
    p.pipelines.Some? && p.pipelines.value.nodes.Some? && p.pipelines.value.nodes.value != []
  }

  /** `format!("{}/-/pipelines/{}", base, id)`. */
  function PipelineUrl(base: string, id: U64): string {
    base + "/-/pipelines/" + NatToString(id)
  }

  /** The pipelines of a project with their web URLs pointed into it. */
  function WithUrls(base: string, pipes: seq<PipelineInfo>): (r: seq<PipelineInfo>)
    ensures |r| == |pipes|
  {
    seq(|pipes|, i requires 0 <= i < |pipes| => pipes[i].(webUrl := Some(PipelineUrl(base, pipes[i].id))))
  }

  /** An active project as the loop reports it. */
  function Promote(p: ProjectNode): (r: ProjectPipelineInfo)
    requires Active(p)
    ensures r.id == p.id && r.name == p.name && r.fullPath == p.fullPath && r.webUrl == p.webUrl
    ensures |r.pipelines| == |p.pipelines.value.nodes.value| > 0
    ensures forall i :: 0 <= i < |r.pipelines| ==>
      r.pipelines[i] == p.pipelines.value.nodes.value[i].(webUrl := Some(PipelineUrl(p.webUrl.GetOr(""), r.pipelines[i].id)))
  {
    ProjectPipelineInfo(p.id, p.name, p.fullPath, p.webUrl, WithUrls(p.webUrl.GetOr(""), p.pipelines.value.nodes.value))
  }

  /** The active projects of a page, in page order. */
  function ActiveProjects(nodes: seq<ProjectNode>): seq<ProjectPipelineInfo> {
    if nodes == [] then []
    else ActiveProjects(nodes[..|nodes| - 1])
         + (if Active(nodes[|nodes| - 1]) then [Promote(nodes[|nodes| - 1])] else [])
  }

  /** A project is reported exactly when some node of the page is active
      and promotes to it. */
  lemma {:induction false} ActiveProjectsExactly(nodes: seq<ProjectNode>, q: ProjectPipelineInfo)
    ensures q in ActiveProjects(nodes) <==> exists i :: 0 <= i < |nodes| && Active(nodes[i]) && q == Promote(nodes[i])
  {
    if nodes != [] {
      var init := nodes[..|nodes| - 1];
      ActiveProjectsExactly(init, q);
      if q in ActiveProjects(init) {
        var i :| 0 <= i < |init| && Active(init[i]) && q == Promote(init[i]);
        assert nodes[i] == init[i];
      }
      if exists i :: 0 <= i < |nodes| && Active(nodes[i]) && q == Promote(nodes[i]) {
        var i :| 0 <= i < |nodes| && Active(nodes[i]) && q == Promote(nodes[i]);
        if i < |init| {
          assert init[i] == nodes[i];
        }
      }
    }
  }

  /** What one page contributes to the loop. */
  datatype Step = Failed(error: string) | Page(found: seq<ProjectPipelineInfo>, more: bool, cursor: Option<string>)

  function PageStep(group: string, page: Result<GroupQueryResponse, string>, cursor: Option<string>): Step {
    if page.Err? then Failed(page.error)
    else if GroupMissing(page) then Failed("Group not found: " + group)
    else Page(ActiveProjects(PageNodes(page)), HasMore(page), NextCursor(page, cursor))
  }

  /** The answers end with a page that does not announce another. */
  predicate EndsWithLastPage(pages: seq<Result<GroupQueryResponse, string>>) {
    pages != [] && !HasMore(pages[|pages| - 1])
  }

  /** `rest`, the outcome of the later pages, after the projects `found`
      and the requests `sent` before them. */
  function Prefixed(found: seq<ProjectPipelineInfo>, sent: seq<Option<string>>,
                    rest: (Result<seq<ProjectPipelineInfo>, string>, seq<Option<string>>))
    : (Result<seq<ProjectPipelineInfo>, string>, seq<Option<string>>)
  {
    (if rest.0.Ok? then Ok(found + rest.0.value) else rest.0, sent + rest.1)
  }

  /** The page loop from the request for page `k`, carrying `cursor`, on:
      its result and the cursor of every request it sends. */
  function Activity(group: string, pages: seq<Result<GroupQueryResponse, string>>, k: nat,
                    cursor: Option<string>): (r: (Result<seq<ProjectPipelineInfo>, string>, seq<Option<string>>))
    requires EndsWithLastPage(pages) && k < |pages|
    ensures 1 <= |r.1| <= |pages| - k && r.1[0] == cursor
    decreases |pages| - k
  {
    match PageStep(group, pages[k], cursor)
    case Failed(e) => (Err(e), [cursor])
    case Page(found, more, next) =>
      if !more then (Ok(found), [cursor])
      else Prefixed(found, [cursor], Activity(group, pages, k + 1, next))
  }

  /** One turn of the loop, after the projects `found` and the requests
      `sent` so far: page `k` decides whether it goes on. */
  lemma ActivityStep(group: string, pages: seq<Result<GroupQueryResponse, string>>, k: nat, cursor: Option<string>,
                     found: seq<ProjectPipelineInfo>, sent: seq<Option<string>>)
    requires EndsWithLastPage(pages) && k < |pages|
    ensures var step := PageStep(group, pages[k], cursor);
            var now := Prefixed(found, sent, Activity(group, pages, k, cursor));
            (step.Failed? ==> now == (Err(step.error), sent + [cursor]))
            && (step.Page? && !step.more ==> now == (Ok(found + step.found), sent + [cursor]))
            && (step.Page? && step.more ==>
                  k + 1 < |pages| && now == Prefixed(found + step.found, sent + [cursor], Activity(group, pages, k + 1, step.cursor)))
  {
    var step := PageStep(group, pages[k], cursor);
    if step.Page? && step.more {
      var r := Activity(group, pages, k + 1, step.cursor);
      if r.0.Ok? {
        assert found + (step.found + r.0.value) == (found + step.found) + r.0.value;
      }
      assert sent + ([cursor] + r.1) == (sent + [cursor]) + r.1;
    }
  }

  /** Request `j + 1` of `sent` carries the end cursor of page `k + j`,
      which announced another page. */
  predicate Chained(pages: seq<Result<GroupQueryResponse, string>>, k: nat, sent: seq<Option<string>>, j: nat)
    requires k + j < |pages| && j + 1 < |sent|
  {
    HasMore(pages[k + j]) && sent[j + 1] == NextCursor(pages[k + j], sent[j])
  }

  /** The requests: the first carries `cursor`, each following one the end
      cursor of the page before, which announced another page; the last
      page requested announces none (or failed). */
  lemma {:induction false} ActivityRequests(group: string, pages: seq<Result<GroupQueryResponse, string>>, k: nat,
                                            cursor: Option<string>)
    requires EndsWithLastPage(pages) && k < |pages|
    decreases |pages| - k
    ensures var sent := Activity(group, pages, k, cursor).1;
            k + |sent| <= |pages|
            && (forall j: nat :: j + 1 < |sent| ==> Chained(pages, k, sent, j))
            && !HasMore(pages[k + |sent| - 1])
  {
    var step := PageStep(group, pages[k], cursor);
    if step.Page? && step.more {
      ActivityRequests(group, pages, k + 1, step.cursor);
      var sent := Activity(group, pages, k, cursor).1;
      var tail := Activity(group, pages, k + 1, step.cursor).1;
      assert sent == [cursor] + tail;
      forall j: nat | j + 1 < |sent|
        ensures Chained(pages, k, sent, j)
      {
        if j > 0 {
          assert Chained(pages, k + 1, tail, j - 1);
        }
      }
    }
  }

  /** How the loop ends: with the error of the last page requested when
      that page failed, otherwise with a result. */
  lemma {:induction false} ActivityOutcome(group: string, pages: seq<Result<GroupQueryResponse, string>>, k: nat,
                                           cursor: Option<string>)
    requires EndsWithLastPage(pages) && k < |pages|
    decreases |pages| - k
    ensures var a := Activity(group, pages, k, cursor);
            var last := pages[k + |a.1| - 1];
            (a.0.Err? <==> last.Err? || GroupMissing(last))
            && (last.Err? ==> a.0 == Err(last.error))
            && (GroupMissing(last) ==> a.0 == Err("Group not found: " + group))
  {
    var step := PageStep(group, pages[k], cursor);
    if step.Page? && step.more {
      ActivityOutcome(group, pages, k + 1, step.cursor);
    }
  }

  /** Project `q` is among the active projects of page `j`. */
  predicate ReportedAt(pages: seq<Result<GroupQueryResponse, string>>, j: nat, q: ProjectPipelineInfo)
    requires j < |pages|
  {
    q in ActiveProjects(PageNodes(pages[j]))
  }

  /** A successful loop reports exactly the active projects of the pages it
      requested. */
  lemma {:induction false} ActivityProjects(group: string, pages: seq<Result<GroupQueryResponse, string>>, k: nat,
                                            cursor: Option<string>, q: ProjectPipelineInfo)
    requires EndsWithLastPage(pages) && k < |pages|
    decreases |pages| - k
    ensures var a := Activity(group, pages, k, cursor);
            a.0.Ok? ==> (q in a.0.value <==> exists j: nat :: k <= j < k + |a.1| && ReportedAt(pages, j, q))
  {
    var a := Activity(group, pages, k, cursor);
    var step := PageStep(group, pages[k], cursor);
    if a.0.Ok? {
      assert step.Page?;
      if step.more {
        ActivityProjects(group, pages, k + 1, step.cursor, q);
        var tail := Activity(group, pages, k + 1, step.cursor);
        assert a.0.value == step.found + tail.0.value;
        assert |a.1| == 1 + |tail.1|;
        if q in step.found {
          assert ReportedAt(pages, k, q);
        }
        if exists j: nat :: k <= j < k + |a.1| && ReportedAt(pages, j, q) {
          var j: nat :| k <= j < k + |a.1| && ReportedAt(pages, j, q);
          if j == k {
            assert q in step.found;
          }
        }
      } else {
        assert a.0.value == step.found && |a.1| == 1;
        if q in step.found {
          assert ReportedAt(pages, k, q);
        }
      }
    }
  }

  /** Every reported project has pipelines, each pointed at its project. */
  lemma ActivityWellFormed(group: string, pages: seq<Result<GroupQueryResponse, string>>, q: ProjectPipelineInfo)
    requires EndsWithLastPage(pages)
    requires Activity(group, pages, 0, None).0.Ok? && q in Activity(group, pages, 0, None).0.value
    ensures |q.pipelines| > 0
    ensures forall i :: 0 <= i < |q.pipelines| ==> q.pipelines[i].webUrl == Some(PipelineUrl(q.webUrl.GetOr(""), q.pipelines[i].id))
  {
    ActivityProjects(group, pages, 0, None, q);
    var a := Activity(group, pages, 0, None);
    var j: nat :| j < |a.1| && ReportedAt(pages, j, q);
    ActiveProjectsExactly(PageNodes(pages[j]), q);
  }

  /** The inner loop over a project's pipelines: each one's web URL is
      rewritten in place. */
  method RewriteUrls(base: string, pipes: seq<PipelineInfo>) returns (out: seq<PipelineInfo>)
    ensures out == WithUrls(base, pipes)
  {
    out := pipes;
    var i := 0;
    while i < |out|
      invariant 0 <= i <= |out| == |pipes|
      invariant forall k :: 0 <= k < i ==> out[k] == pipes[k].(webUrl := Some(PipelineUrl(base, pipes[k].id)))
      invariant forall k :: i <= k < |out| ==> out[k] == pipes[k]
    {
      out := out[i := out[i].(webUrl := Some(PipelineUrl(base, out[i].id)))];
      i := i + 1;
    }
  }

  /** The loop over a page's project nodes, pushing the active ones. */
  method PushActive(active: seq<ProjectPipelineInfo>, nodes: seq<ProjectNode>) returns (out: seq<ProjectPipelineInfo>)
    ensures out == active + ActiveProjects(nodes)
  {
    out := active;
    var i := 0;
    while i < |nodes|
      invariant 0 <= i <= |nodes|
      invariant out == active + ActiveProjects(nodes[..i])
    {
      var p := nodes[i];
      assert nodes[..i + 1][..i] == nodes[..i];
      if p.pipelines.Some? && p.pipelines.value.nodes.Some? && p.pipelines.value.nodes.value != [] {
        var pipes := RewriteUrls(p.webUrl.GetOr(""), p.pipelines.value.nodes.value);
        out := out + [ProjectPipelineInfo(p.id, p.name, p.fullPath, p.webUrl, pipes)];
      }
      i := i + 1;
    }
    assert nodes[..i] == nodes;
  }

  /** The variables of the requests carrying `cursors`, in order. */
  function RequestsFor(group: string, cursors: seq<Option<string>>, updatedAfter: int): (rs: seq<PageRequest>)
    ensures |rs| == |cursors|
    ensures forall i :: 0 <= i < |rs| ==> rs[i] == PageRequest(group, cursors[i], updatedAfter)
  {
    if cursors == [] then []
    else RequestsFor(group, cursors[..|cursors| - 1], updatedAfter) + [PageRequest(group, cursors[|cursors| - 1], updatedAfter)]
  }

  lemma RequestsSnoc(group: string, cursors: seq<Option<string>>, c: Option<string>, updatedAfter: int)
    ensures RequestsFor(group, cursors + [c], updatedAfter) ==
            RequestsFor(group, cursors, updatedAfter) + [PageRequest(group, c, updatedAfter)]
  {
    assert (cursors + [c])[..|cursors|] == cursors;
  }

  /** The body of the page loop for one answer: a failure ends the loop,
      otherwise the page's active projects are pushed and the loop goes on
      as the page info says. */
  method TakePage(group: string, page: Result<GroupQueryResponse, string>, cursor: Option<string>,
                  active: seq<ProjectPipelineInfo>)
    returns (failure: Option<string>, hasNextPage: bool, next: Option<string>, out: seq<ProjectPipelineInfo>)
    ensures var step := PageStep(group, page, cursor);
            (failure.Some? <==> step.Failed?)
            && (step.Failed? ==> failure.value == step.error)
            && (step.Page? ==> hasNextPage == step.more && next == step.cursor && out == active + step.found)
  {
    hasNextPage, next, out := false, cursor, active;
    if page.Err? {
      return Some(page.error), hasNextPage, next, out;
    }
    var response := page.value;
    if response.data.None? || response.data.value.group.None? {
      return Some("Group not found: " + group), hasNextPage, next, out;
    }
    failure := None;
    var projects := response.data.value.group.value.projects;
    if projects.Some? {
      var c := projects.value;
      if c.pageInfo.Some? {
        hasNextPage := c.pageInfo.value.hasNextPage;
        next := c.pageInfo.value.endCursor;
      } else {
        hasNextPage := false;
      }
      if c.nodes.Some? {
        out := PushActive(active, c.nodes.value);
      }
    } else {
      hasNextPage := false;
    }
  }

  /** `fetch_incremental_activity`: pages are requested while the last one
      announced another, each with the end cursor of the one before; a
      failed request or a missing group ends it with an error. The k-th
      `post_graphql` call answers `pages[k]` (see `GroupPage`). */
  method FetchIncrementalActivity(group: string, since: int, pages: seq<Result<GroupQueryResponse, string>>)
    returns (r: Result<seq<ProjectPipelineInfo>, string>, requests: seq<PageRequest>)
    requires EndsWithLastPage(pages)
    ensures var a := Activity(group, pages, 0, None);
            r == a.0 && requests == RequestsFor(group, a.1, QueryTime(since))
  {
    ghost var spec := Activity(group, pages, 0, None);
    var queryTime := QueryTime(since);
    var active: seq<ProjectPipelineInfo> := [];
    var cursor: Option<string> := None;
    var hasNextPage := true;
    ghost var sent: seq<Option<string>> := [];
    requests := [];
    var k := 0;
    assert spec.0.Ok? ==> active + spec.0.value == spec.0.value;
    assert sent + spec.1 == spec.1;
    while hasNextPage
      invariant 0 <= k <= |pages|
      invariant requests == RequestsFor(group, sent, queryTime)
      invariant hasNextPage ==> k < |pages| && spec == Prefixed(active, sent, Activity(group, pages, k, cursor))
      invariant !hasNextPage ==> spec == (Ok(active), sent)
      decreases |pages| - k
    {
      ActivityStep(group, pages, k, cursor, active, sent);
      RequestsSnoc(group, sent, cursor, queryTime);
      requests := requests + [PageRequest(group, cursor, queryTime)];
      sent := sent + [cursor];
      var failure;
      failure, hasNextPage, cursor, active := TakePage(group, pages[k], cursor, active);
      if failure.Some? {
        r := Err(failure.value);
        return;
      }
      k := k + 1;
    }
    r := Ok(active);
  }
}
