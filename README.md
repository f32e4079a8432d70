# gitlab-ci-exporter: the ingestion bookkeeping, in Dafny

gitlab-ci-exporter polls a GitLab instance for CI pipelines. It stores them in SQLite and serves statistics over HTTP. This project models the part of it that keeps the stored data right, and proves what it promises:

- **the store** (`Db`, src/db.rs):
  - the `pipelines` table, a map from pipeline id to row;
  - the `daily_stats` counter table, keyed by (day, project id, status);
  - the singleton `poll_state` watermark;
  - the "only if none" write at start-up;
  - the full rebuild of `daily_stats` from `pipelines`.
- **the conversions** (`GitlabTypes`, src/gitlab_types.rs):
  - the numeric id extracted from a GraphQL global id;
  - the derived duration;
  - the two record conversions (GraphQL node and REST object) into a stored row, including the two's-complement `as i64` cast.
- **the GitLab clients**:
  - `GitlabOps`, src/gitlab_ops.rs: project discovery across groups, the retry loop with exponential backoff, and the folding of concurrent task results;
  - `GitlabGraphql`, src/gitlab_graphql.rs: the client constructor, the error checks of `post_graphql`, the two user-name lookups, and the paged activity query.
- **ingestion** (`Monitor`, src/monitor.rs):
  - `insert_pipeline` as one transaction over both tables: upsert the row and adjust the counters;
  - one polling cycle with its watermark;
  - one pass of the user-name backfill;
  - the initial REST backfill.
- **the read side** (`Api`, src/api.rs):
  - what each filter parameter means;
  - the conditions each handler pushes onto its query builder;
  - the fast-path choice;
  - the row selection, order and limit of `list_pipelines`;
  - the integer parts of the summary;
  - the trend window;
  - `list_projects`.

`Wrappers` (Option, Result), `Text` (Rust's `split`, `trim`, `trim_end_matches`, `to_ascii_lowercase`, `u64` parsing and printing, the byte-wise string order), `Models` (src/models.rs) and `Ids` (the least id of a set) support them.

Outside effects are parameters or step outcomes. The model does not perform them.

- **Database statements:** every statement that can fail takes a boolean outcome — `readOk`, `writeOk`, the `TxOutcomes` of a transaction. An SQL `UPDATE`/`INSERT` is a map update.
- **HTTP replies:** these are values (`HttpReply`). The typed JSON decoders the model cannot see are functions passed in.
- **Regular expressions, RFC 3339 parsing/formatting and range checks on timestamps:** these are predicates and functions passed in.
- **The clock:** "now" and the cycle's start are arguments.

The stateful parts are imperative Dafny:

- `Db.Store` is a class whose fields are the three tables.
- `Monitor.App` adds the list of monitored projects.
- `Api.QueryBuilder` holds the conditions pushed so far.
- Each loop of the source is a method.
- Each method is proved against a function on the old state, and the lemmas state what the source promises about that function.

## Model

| member | source | states |
|---|---|---|
| Text.NatToString | src/gitlab_graphql.rs:182 | decimal printing of an id: at least one digit, all digits, no leading zero |
| Text.NatToStringValue | src/gitlab_graphql.rs:182 | the printed digits denote the number printed |
| Text.ParseU64 | src/gitlab_types.rs:62 | `str::parse::<u64>`: succeeds exactly on an optional `+` followed by a non-empty run of digits whose value is at most 2^64-1, and then yields the number those digits denote |
| Text.LeadingZeroValue | src/gitlab_types.rs:62 | a leading `0` does not change the number a digit string denotes |
| Text.ParseLeadingZero | src/gitlab_types.rs:62 | `0042` parses as `42` does, and `+7` as `7`: a leading zero or a single leading `+` changes nothing |
| Text.ParsePrinted | src/gitlab_types.rs:62 | parsing the decimal form of any u64 gives it back |
| Text.AfterLast | src/gitlab_types.rs:59-61 | the first item of `rsplit(sep)`: the longest suffix free of the separator, preceded by the separator when it is not the whole string |
| Text.Split | src/api.rs:161 | `split(',')`: at least one part, no part contains the separator, and joining the parts with it gives the string back |
| Text.Join | src/gitlab_graphql.rs:232 | joining no parts gives the empty string, one part gives that part |
| Text.JoinSnoc | src/gitlab_graphql.rs:232 | joining one more message appends the separator and that message |
| Text.TrimStart | src/api.rs:161 | removes exactly the leading Unicode white space |
| Text.TrimEnd | src/api.rs:161 | removes exactly the trailing Unicode white space |
| Text.Trim | src/api.rs:161 | the result neither starts nor ends with white space; a string without white space is kept; an all-white-space string becomes empty |
| Text.TrimCuts | src/api.rs:161 | the trimmed text is a slice of the input, and everything cut from either side of it is white space |
| Text.TrimEndMatches | src/gitlab_graphql.rs:51 | removes exactly the trailing run of the given character |
| Text.ToAsciiLower | src/gitlab_types.rs:109 | maps `A`..`Z` to `a`..`z` and keeps every other character, position by position |
| Text.AsciiLowerIdempotent | src/gitlab_types.rs:109 | the lower-cased status has no upper-case ASCII letter, and lower-casing again changes nothing |
| Text.StrLessIrreflexive | src/api.rs:641 | the string order of `sort` is irreflexive |
| Text.StrLessTransitive | src/api.rs:641 | the string order is transitive |
| Text.StrLessTotal | src/api.rs:641 | any two different strings are ordered one way or the other |
| Db.Contribution | src/monitor.rs:373-379 | one new pipeline adds 1 to `count`, its duration or 0 to `total_duration`, and 1 to `count_with_duration` exactly when it has a duration |
| Db.Removal | src/monitor.rs:347-349 | removing a pipeline subtracts 1, its duration or 0, and 1 exactly when it had a duration |
| Db.Bump | src/monitor.rs:373 | the counter upsert creates the bucket if absent, adds one pipeline to it, renames it, and adds no other bucket |
| Db.BumpAt | src/monitor.rs:373 | the counter upsert changes no other bucket |
| Db.Adjust | src/monitor.rs:333 | `UPDATE daily_stats .. WHERE` changes the named bucket by the given amounts when it exists, and changes nothing when it does not |
| Db.AdjustAt | src/monitor.rs:347 | an update of one bucket changes no other bucket |
| Db.BumpCommute | src/monitor.rs:373-379 | two counter upserts give the same counters in either order |
| Db.AggregateOverCounts | src/db.rs:92 | in the aggregation, each bucket's `count` is the number of its rows, and a bucket exists exactly when it has a row |
| Db.AggregateOverTimedCounts | src/db.rs:94 | each bucket's `count_with_duration` is the number of its rows that have a duration |
| Db.AggregateOverFrame | src/db.rs:95 | the aggregation depends only on the rows it reads |
| Db.AggregateOverRemove | src/db.rs:96 | the aggregation of a set of rows is that of the set without one row, plus that row |
| Db.AggregateAnyOrder | src/db.rs:92-96 | counting the rows one by one in any order gives the aggregation's counters, whatever order the engine scans them in |
| Db.BumpAllTotal | src/db.rs:93 | counting rows one by one gives each bucket the sum of its rows' durations as `total_duration` |
| Db.Rebuild | src/db.rs:86-102 | after the rebuild, the buckets are the stored ones plus the aggregated ones; an aggregated bucket takes the aggregated counters, and any other bucket is kept as stored |
| Db.RebuildIdempotent | src/db.rs:80-108 | rebuilding twice is rebuilding once |
| Db.RebuildCounts | src/db.rs:86-102 | after a rebuild, a bucket with pipelines holds the exact number of them and the exact number with a duration |
| Db.RebuildKeepsEmptyBuckets | src/db.rs:97-101 | a bucket without pipelines is neither created nor changed by the rebuild |
| Db.RebuildTotalDuration | src/db.rs:93 | after a rebuild, a bucket's `total_duration` is the sum of its pipelines' durations, a missing one counting 0 |
| Db.GroupRows | src/db.rs:96 | a group of the SELECT as written is a set of stored rows |
| Db.GroupCounters | src/db.rs:88-94 | a group's row carries the group's name, the number of its rows and the number of them with a duration |
| Db.GroupCountersTotal | src/db.rs:93 | a group's `total_duration` is the sum of the durations of its own rows, a missing one counting 0, in any listing of them |
| Db.Buckets | src/db.rs:96-97 | the buckets of a list of groups are exactly those some group of the list names |
| Db.WriteGroups | src/db.rs:97-101 | after the upserts of a list of groups, the last group's bucket holds that group's row |
| Db.WriteGroupsKeys | src/db.rs:97-101 | the upserts leave the stored buckets plus the buckets of the groups |
| Db.WriteGroupsAt | src/db.rs:97-101 | a bucket ends with the row of the last group that names it, since each upsert overwrites the earlier one |
| Db.WriteGroupsElsewhere | src/db.rs:97-101 | a stored bucket no group names is kept as it was |
| Db.BucketsOfGroups | src/db.rs:88-96 | the groups the SELECT emits name exactly the buckets that hold pipelines |
| Db.LastGroupsExist | src/db.rs:88-96 | every bucket that holds pipelines has a last emitted group |
| Db.RebuildAsWritten | src/db.rs:86-102 | the statement as written, over the groups the SELECT emits (each group with a row, once, in any order): the table holds the stored buckets plus those with pipelines; every bucket with pipelines has a last group and holds that group's counters alone; a stored bucket without pipelines is kept |
| Db.AggregateOverBucket | src/db.rs:88-96 | a bucket's counters depend only on the pipelines in that bucket |
| Db.AggregateOverNamed | src/db.rs:90 | when all pipelines of a bucket carry one project name, the aggregated bucket carries that name |
| Db.AgreeAt | src/db.rs:86-102 | if no bucket mixes two project names, the statement as written and the rebuild by bucket agree on each bucket, names included |
| Db.RebuildAsWrittenAgrees | src/db.rs:86-102 | if no bucket mixes two project names, the statement as written produces exactly the table of the rebuild by bucket |
| Db.RenamedProjectUndercounted | src/db.rs:96-98 | two pipelines of one bucket stored under two project names, for either order of the two emitted groups: as written the bucket counts 1; the rebuild by bucket counts 2 |
| Db.Store.constructor | src/db.rs:4-39 | a new database has empty tables and no watermark |
| Db.Store.GetLastPoll | src/db.rs:65-70 | reports the watermark, or `None` when there is none, unless the read fails |
| Db.Store.SetLastPoll | src/db.rs:72-78 | a successful write makes the watermark the given time, whether or not one existed; a failed write changes nothing |
| Db.Store.InitDb | src/db.rs:58-61 | the start-up time is written only when no watermark exists; an existing watermark is never overwritten; the call fails exactly when the read fails, or when the needed write fails |
| Db.Store.BackfillDailyStats | src/db.rs:80-108 | if begin, statement and commit all succeed, `daily_stats` becomes what the statement as written writes over the groups the SELECT emits; when no bucket mixes two project names that is the rebuild by key; otherwise it is unchanged and the call fails |
| GitlabTypes.AsI64 | src/gitlab_types.rs:102 | `u64 as i64`: the two's-complement value, equal to the input below 2^63 and negative from there on |
| GitlabTypes.ParseGid | src/gitlab_types.rs:54-64 | an extracted id fits in a u64; a global id without `/` is parsed whole; one ending in `/` is rejected, because the empty last part does not parse |
| GitlabTypes.GidLastSegment | src/gitlab_types.rs:59-63 | whatever precedes the last `/`, a global id yields what its last segment parses to |
| GitlabTypes.GidRoundTrip | src/gitlab_types.rs:54-64 | a global id `<prefix>/<n>` yields `n` for every prefix |
| GitlabTypes.DeriveDuration | src/gitlab_types.rs:92-99 | a reported duration is kept (cast to i64); otherwise the duration is the finish minus the start, present only when positive |
| GitlabTypes.InfoToDb | src/gitlab_types.rs:84-115 | the GraphQL conversion, field by field: the cast id, the given project, the lower-cased status, the start time (0 when it does not parse), the finish time (when it parses), the derived duration, the author's name |
| GitlabTypes.RestToDb | src/gitlab_types.rs:133-161 | the REST conversion, field by field: the author's name empty, finish taken from `updated_at`, the derived duration |
| GitlabTypes.ConversionsAgree | src/gitlab_types.rs:84-161 | for the same pipeline, the two conversions give the same row apart from the author's name |
| GitlabTypes.GidToStoredId | src/gitlab_types.rs:54-115 | a pipeline id below 2^63 travels from the global id to the stored row unchanged |
| GitlabOps.FirstErr | src/gitlab_ops.rs:28-30 | the first failed group reply: none exactly when every reply succeeded |
| GitlabOps.DiscoverProjects | src/gitlab_ops.rs:8-38 | the loop over groups gives the concatenated projects, or the first error; it stops asking after the first failed group |
| GitlabOps.DiscoveredFirstErr | src/gitlab_ops.rs:28-30 | a failure after successes is the error returned |
| GitlabOps.DiscoveredOk | src/gitlab_ops.rs:18-37 | discovery succeeds exactly when every group succeeds; a project is discovered exactly when some group lists it; a failure reports the first failing group's error |
| GitlabOps.Backoff | src/gitlab_ops.rs:94 | the delay before attempt n+1 doubles with each failed attempt and fits in a u64 |
| GitlabOps.BackoffSchedule | src/gitlab_ops.rs:93-94 | the delays are 500, 1000 and 2000 ms |
| GitlabOps.AttemptsUsed | src/gitlab_ops.rs:83-99 | between 1 and 4 attempts: the first success, or all four when every attempt fails |
| GitlabOps.FirstOkFrom | src/gitlab_ops.rs:85-98 | from attempt k on, the first successful attempt, or 4 when none succeeds |
| GitlabOps.AttemptsUsedIs | src/gitlab_ops.rs:83-99 | the number of attempts is determined by which attempts fail |
| GitlabOps.FetchWithRetry | src/gitlab_ops.rs:83-99 | the retry loop returns the first successful reply, or the fourth failure; it sleeps once before each retry, with the backoff delays |
| GitlabOps.CollectedEntries | src/gitlab_ops.rs:103-115 | one result per task that joined; a project that failed yields an empty list; a task that failed to join yields nothing |
| GitlabOps.CollectResults | src/gitlab_ops.rs:103-117 | the join loop always succeeds, with the collected entries |
| GitlabOps.TaskOutcomes | src/gitlab_ops.rs:73-101 | one task per project id, in order: a task fails to join exactly when it panicked; otherwise it reports its own project id and the reply of its last attempt |
| GitlabOps.FetchPipelinesConcurrent | src/gitlab_ops.rs:60-118 | the concurrent fetch always succeeds, with the collected results of the retrying tasks |
| GitlabGraphql.NewClient | src/gitlab_graphql.rs:42-54 | the stored base URL is the given one without its trailing slashes; the token is kept |
| GitlabGraphql.NewClientIdempotent | src/gitlab_graphql.rs:51 | building a client from a client's base URL changes nothing |
| GitlabGraphql.NewClientIgnoresSlashes | src/gitlab_graphql.rs:51 | any number of trailing slashes gives the same client |
| GitlabGraphql.Reserialized | src/gitlab_graphql.rs:238 | the re-serialised response is an object with exactly the keys `data` and `errors` |
| GitlabGraphql.Checked | src/gitlab_graphql.rs:208-240 | `post_graphql` succeeds exactly on a 2xx reply that decodes and has no errors; it gives the four error messages of the source for the send failure, the HTTP status, bad JSON and a non-empty API error list |
| GitlabGraphql.TwoApiErrors | src/gitlab_graphql.rs:230-233 | two API errors are reported joined by `, ` |
| GitlabGraphql.EmptyErrorsAccepted | src/gitlab_graphql.rs:230-235 | an empty error list is treated as no errors |
| GitlabGraphql.OptField | src/gitlab_graphql.rs:72-85 | an optional field is present exactly when its key exists with a non-null value |
| GitlabGraphql.DecodeUserNode | src/gitlab_graphql.rs:82-85 | a user object decodes when its name is absent, null or a string |
| GitlabGraphql.DecodePipelineNode | src/gitlab_graphql.rs:77-80 | a node without a user decodes to no user |
| GitlabGraphql.DecodePipelineResp | src/gitlab_graphql.rs:72-75 | a response object without `node` decodes to no node |
| GitlabGraphql.GidLookupNeverNames | src/gitlab_graphql.rs:56-90 | as written, the lookup by global id succeeds exactly when the reply passes the checks, and then always reports no name |
| GitlabGraphql.GidLookupMissesName | src/gitlab_graphql.rs:88-89 | a reply carrying the author's name is still reported as having none |
| GitlabGraphql.LookupByGidFixed | src/gitlab_graphql.rs:56-90 | the corrected lookup decodes the reply's `data`, and passes on the errors of the checks |
| GitlabGraphql.GidLookupFixedNames | src/gitlab_graphql.rs:89 | the corrected lookup reports the author's name, and reports none for a null node or a null user |
| GitlabGraphql.UserNameOf | src/gitlab_graphql.rs:108 | the REST name is found exactly when `user.name` is a string |
| GitlabGraphql.LookupViaRest | src/gitlab_graphql.rs:92-110 | the REST lookup succeeds exactly on a 2xx reply with JSON, with the name found; it gives the source's three error messages otherwise |
| GitlabGraphql.RestNameMustBeString | src/gitlab_graphql.rs:108 | a numeric or null name counts as no name |
| GitlabGraphql.QueryTime | src/gitlab_graphql.rs:118 | the query asks for activity from 60 seconds before the watermark |
| GitlabGraphql.DecodeGroupNode | src/gitlab_graphql.rs:36-39 | a group with projects decodes to the decoded connection, or to its error |
| GitlabGraphql.DecodeGroupData | src/gitlab_graphql.rs:31-34 | data without a group decodes to no group |
| GitlabGraphql.DecodeGroupQuery | src/gitlab_graphql.rs:26-29 | a response without data decodes to no data |
| GitlabGraphql.GroupPageReadsData | src/gitlab_graphql.rs:164 | the page query does see the data of the reply, unlike the lookup by global id |
| GitlabGraphql.Promote | src/gitlab_graphql.rs:185-191 | an active project keeps its id, name, path and URL, and carries all its pipelines with rewritten URLs |
| GitlabGraphql.ActiveProjectsExactly | src/gitlab_graphql.rs:175-196 | a project is reported from a page exactly when one of its nodes has a non-empty pipeline list |
| GitlabGraphql.Activity | src/gitlab_graphql.rs:153-205 | the page loop sends at least one request and no more requests than there are answered pages; its first request carries the starting cursor |
| GitlabGraphql.ActivityStep | src/gitlab_graphql.rs:157-203 | one turn of the loop: an error or a missing group ends it with that error; a last page ends it with the projects so far; otherwise it continues with the next cursor |
| GitlabGraphql.ActivityRequests | src/gitlab_graphql.rs:157-170 | each request after the first carries the cursor of the previous page; the loop stops at the first page that announces no next one |
| GitlabGraphql.ActivityOutcome | src/gitlab_graphql.rs:164-202 | the loop fails exactly when its last page is an error or lacks the group, with the matching message |
| GitlabGraphql.ActivityProjects | src/gitlab_graphql.rs:175-196 | on success, a project is returned exactly when some page read reported it |
| GitlabGraphql.ActivityWellFormed | src/gitlab_graphql.rs:176-192 | every returned project has pipelines, each with its URL rewritten into the project's |
| GitlabGraphql.RewriteUrls | src/gitlab_graphql.rs:180-183 | the rewriting loop gives each pipeline the URL `<project url>/-/pipelines/<id>`, as `WithUrls` does |
| GitlabGraphql.PushActive | src/gitlab_graphql.rs:176-195 | the node loop appends the active projects of the page |
| GitlabGraphql.RequestsFor | src/gitlab_graphql.rs:158-162 | each request names the group, the page's cursor and the shifted time |
| GitlabGraphql.TakePage | src/gitlab_graphql.rs:166-202 | one page: it fails exactly as the step says; otherwise it sets the next-page flag and cursor, and appends the page's projects |
| GitlabGraphql.FetchIncrementalActivity | src/gitlab_graphql.rs:112-206 | the whole loop returns the outcome of `Activity` and sends the requests it lists |
| Monitor.MergeRow | src/monitor.rs:251-266 | the conflict update, column by column: identity columns and the start time keep their stored values; sha and user name are replaced; a finished stored status survives an unfinished report; present finish time, duration and URL win; absent ones never erase |
| Monitor.MergeNeverErases | src/monitor.rs:256-265 | a stored finish time, duration or URL is never lost |
| Monitor.MergeIdempotent | src/monitor.rs:251-266 | applying the same report twice is applying it once |
| Monitor.Existing | src/monitor.rs:239-244 | the existing row is found exactly when the id is stored |
| Monitor.Upsert | src/monitor.rs:247-267 | a new id inserts the row; a stored id merges into it; the set of ids grows by the row's id |
| Monitor.UpsertFrame | src/monitor.rs:247-267 | other rows are unchanged |
| Monitor.UpsertKeyed | src/monitor.rs:247-250 | every row stays stored under its own id |
| Monitor.Change | src/monitor.rs:294-370 | replacing a row's duration changes its bucket by the new contribution minus the old one |
| Monitor.DurationUpdateIsChange | src/monitor.rs:303-344 | the four same-status branches execute a statement exactly when the duration changed, and that statement applies exactly the change |
| Monitor.StatementsNeeded | src/monitor.rs:294-384 | no counter statement when status and duration are unchanged, two when the status changed, one otherwise |
| Monitor.NewRowBucket | src/monitor.rs:371-384 | a new pipeline adds one to its bucket, named with the project path, and leaves the others alone |
| Monitor.SameStatusBucket | src/monitor.rs:301-344 | a same-status update changes only the pipeline's bucket, by the duration change, and creates no bucket |
| Monitor.StatusChangeBuckets | src/monitor.rs:345-370 | a status change takes one pipeline out of the old day and status (if that bucket exists), adds it to the new one, and leaves other buckets alone |
| Monitor.ReinsertIdentical | src/monitor.rs:294-344 | re-inserting a stored row executes no counter statement and changes neither table |
| Monitor.InsertUnseenAgrees | src/monitor.rs:371-384 | inserting an unseen pipeline keeps `daily_stats` equal to the aggregation of `pipelines` |
| Monitor.InsertAtomic | src/monitor.rs:231-389 | a failed step leaves both tables unchanged; a commit applies the upsert and the counter statements together |
| Monitor.InsertPipeline | src/monitor.rs:231-389 | the transaction commits exactly when every statement it needs succeeds; the tables then become `InsertStep` of the old ones |
| Monitor.InsertAllKeys | src/monitor.rs:203-211 | inserting rows stores no id other than the old ones and theirs |
| Monitor.InsertStepUnseenAgrees | src/monitor.rs:371-384 | one insert of an unseen pipeline, committed or not, keeps the counters equal to the aggregation |
| Monitor.InsertAllUnseenAgrees | src/monitor.rs:231-389 | inserting distinct unseen pipelines keeps the counters equal to the aggregation, whatever the outcome of each transaction |
| Monitor.ProjectRowsExactly | src/monitor.rs:204-211 | a project contributes a row exactly for each of its pipelines the branch filter admits, converted with the project's id, name and path |
| Monitor.PollRowsExactly | src/monitor.rs:203-212 | the rows of a poll are those of its projects |
| Monitor.GroupStep | src/monitor.rs:185-217 | after a successful fetch the watermark becomes the cycle's start if the write succeeds; after a failed fetch nothing changes |
| Monitor.CycleMarks | src/monitor.rs:181-218 | a cycle's watermark depends only on the groups' fetch and write outcomes |
| Monitor.CycleAppend | src/monitor.rs:181-218 | polling groups a then b is polling a, then b |
| Monitor.FailedGroupSkipped | src/monitor.rs:214-216 | a group whose fetch always fails changes nothing in the cycle |
| Monitor.MarksWatermark | src/monitor.rs:197-202 | after a cycle, the watermark is the cycle's start if some group advanced it; otherwise it is unchanged |
| Monitor.LaterGroupSince | src/monitor.rs:185-194 | once one group has advanced the watermark, every later group of the cycle reads the cycle's start as its `since` |
| Monitor.InsertRow | src/monitor.rs:208-209 | one insert extends the fold of inserts by one row |
| Monitor.InsertProject | src/monitor.rs:204-211 | the pipeline loop inserts exactly the project's admitted rows, in order |
| Monitor.InsertFetched | src/monitor.rs:203-212 | the project loop inserts exactly the poll's rows, in order |
| Monitor.PollGroup | src/monitor.rs:185-217 | one group's poll reads `since` as the watermark (or the poll time when it is unreadable or out of range), and changes the store as `GroupStep` says |
| Monitor.PollCycle | src/monitor.rs:178-218 | one cycle over the groups changes the store as `Cycle` says |
| Monitor.ResolveName | src/monitor.rs:114-136 | a GraphQL name wins; otherwise the REST name is used, or no name when REST fails; a name always comes from one of the two lookups |
| Monitor.ClientLookups | src/monitor.rs:110-137 | the backfill's lookups are the GraphQL lookup by global id as written and the REST lookup of the clients |
| Monitor.ClientLookupsFixed | src/monitor.rs:110-137 | the same lookups with the corrected GraphQL lookup |
| Monitor.ClientNamesFromRest | src/monitor.rs:110-137 | with the clients as written, every pipeline of a batch gets the name REST reports for it, or none |
| Monitor.NamesComeFromRest | src/monitor.rs:114-125 | with the GraphQL lookup as written, every name comes from the REST fallback |
| Monitor.FillName | src/monitor.rs:144-153 | the guarded update sets a found name only on a row whose name is empty, and only when the update succeeds; other rows are unchanged |
| Monitor.LookedChunk | src/monitor.rs:107-140 | a chunk is the first 50 rows, of which only the first 10 are looked up |
| Monitor.LookedIndex | src/monitor.rs:107-140 | the k-th lookup is of row `50*(k/10) + k%10`, one of the first ten of its chunk |
| Monitor.LookedCovers | src/monitor.rs:139 | each row among the first ten of its chunk is looked up |
| Monitor.FillAllOnlyEmptyNames | src/monitor.rs:145 | a pass keeps all ids; it changes only user names, never a non-empty one; a changed row had an empty name, a successful update, and a name found for it |
| Monitor.FillAllFills | src/monitor.rs:142-153 | a non-empty name found for a row with a successful update leaves that row named |
| Monitor.NoNamesNoChange | src/monitor.rs:154 | when no name is found or no update succeeds, the pass changes nothing |
| Monitor.FillAllKeys | src/monitor.rs:145 | a pass neither adds nor removes rows |
| Monitor.FillUserName | src/monitor.rs:144-153 | one guarded update extends the pass by one row |
| Monitor.StartLookups | src/monitor.rs:109-140 | at most ten lookups are started per chunk, one for each of its first rows |
| Monitor.ApplyNames | src/monitor.rs:142-157 | the join loop applies the started lookups' names in order |
| Monitor.ProcessChunk | src/monitor.rs:107-161 | a chunk of the first min(50, rest) rows is processed, and its first ten are looked up |
| Monitor.UsernameBatch | src/monitor.rs:87-162 | one batch stops on a failed query, ends when nothing is missing, and otherwise applies the names of the looked-up rows to `pipelines` |
| Monitor.App.constructor | src/monitor.rs:36-43 | the application state starts with no monitored projects |
| Monitor.IdIndexKeys | src/monitor.rs:50-55 | a project id is in `id_to_project` exactly when some discovered project has it |
| Monitor.IdIndexLast | src/monitor.rs:52-53 | a duplicated id maps to the last project discovered with it |
| Monitor.ProjectIds | src/monitor.rs:51-55 | the project ids are those of the discovered projects, in order |
| Monitor.UpdatedAfter | src/monitor.rs:45-46 | `backfill_days` days before now, or the epoch when that instant is out of range |
| Monitor.BackfillRowsExactly | src/monitor.rs:59-73 | a row is stored exactly for each admitted pipeline of an entry whose project is known, converted with that project's data |
| Monitor.InsertResult | src/monitor.rs:66-72 | one entry's pipeline loop inserts exactly that entry's rows |
| Monitor.BackfillRowsStep | src/monitor.rs:60-64 | an entry of an unknown project inserts nothing |
| Monitor.InsertResults | src/monitor.rs:58-76 | the result loop inserts exactly the backfill rows, in order |
| Monitor.IndexProjects | src/monitor.rs:50-55 | the indexing loop builds `id_to_project` and the id list |
| Monitor.InitialBackfill | src/monitor.rs:11-79 | a failed discovery changes nothing; otherwise the monitored projects become the discovered ones and the tables become `BackfillTables` of the old ones |
| Monitor.StartUp | src/main.rs:41-49 | the install is fresh exactly when the pipeline count fails or is 0, since a failed count reads as 0; a fresh install runs the initial backfill (src/main.rs:89-91) with its whole effect, any other start changes nothing |
| Api.TrimAll | src/api.rs:161 | each listed value trimmed, in order |
| Api.UseFastPath | src/api.rs:112 | the fast path is taken exactly when the ref filter is absent or `All` |
| Api.FastPathSkipsNoConstraint | src/api.rs:177-196 | the ref filter the fast path skips would admit every ref; an empty ref filter takes the slow path and admits every ref |
| Api.ExactFilter | src/api.rs:170-173 | a filter without a comma matches only its exact value |
| Api.ListFilter | src/api.rs:160-169 | a filter with a comma matches exactly the trimmed comma-separated values |
| Api.ListFilterTrims | src/api.rs:161 | the listed values are trimmed, but a single value is not |
| Api.RowOf | src/models.rs:4-18 | the columns a condition can read come from the stored row, with the day of its start |
| Api.ChoiceMeaning | src/api.rs:158-175 | the conditions pushed for a project or ref filter hold exactly when the filter matches the column |
| Api.ExclusionMeaning | src/api.rs:198-210 | the exclusion condition holds exactly when the path is none of the untrimmed parts |
| Api.WindowMeaning | src/api.rs:212-232 | the window conditions hold exactly when the start is within inclusive bounds; on the fast path the bounds are days |
| Api.QueryBuilder.constructor | src/api.rs:130-156 | a new builder has no conditions |
| Api.QueryBuilder.Push | src/api.rs:171-172 | a push appends one condition |
| Api.QueryBuilder.PushChoice | src/api.rs:158-175 | the project/ref code appends exactly the filter's conditions |
| Api.QueryBuilder.PushExclusion | src/api.rs:198-210 | the exclusion code appends exactly its condition |
| Api.QueryBuilder.PushWindow | src/api.rs:212-232 | the window code appends exactly its bounds |
| Api.BindAll | src/api.rs:164-167 | every listed value is bound, in order |
| Api.StatsFilter | src/api.rs:108-232 | the stats handlers choose the fast path as `UseFastPath` says; on it no condition reads `ref_name`; a row is selected exactly when it matches the project, ref and exclusion filters and lies in the window; a condition reads `project_full_path` exactly when the filter constrains the path |
| Api.PathClauses | src/api.rs:158-212 | the project choice and exclusion conditions read `project_full_path` exactly when the filter chooses projects or excludes some |
| Api.ProjectStats | src/api.rs:108-246 | `get_project_stats`: on the fast path, whose statement selects and groups by a column `daily_stats` lacks (src/db.rs:24-33), the answer is always an empty list; on the slow path the outcome of the grouped statement, or an empty list when it fails |
| Api.StatsClausesMeaning | src/api.rs:158-232 | the stats conditions mean what the filter means |
| Api.RunningIgnoresWindow | src/api.rs:447-457 | asking for running pipelines ignores the time bounds and selects only running pipelines |
| Api.ListFilterClauses | src/api.rs:389-457 | `list_pipelines` selects exactly the rows the filters, the status and (unless `running`) the window admit |
| Api.ListClausesMeaning | src/api.rs:392-457 | the list conditions mean what the filter means |
| Api.Where | src/api.rs:390 | the selection keeps each row exactly as often as it occurs when it satisfies the conditions, and drops it otherwise |
| Api.InsertByCreated | src/api.rs:459 | inserting into a newest-first list keeps it newest first and adds exactly one row |
| Api.SortByCreated | src/api.rs:459 | `ORDER BY created_at DESC` orders a permutation of the rows newest first |
| Api.Newest | src/api.rs:459 | `LIMIT 100`: at most 100 rows, newest first, taken from the selection; all of them when there are at most 100; no dropped row is newer than a kept one |
| Api.ToResponse | src/api.rs:478-495 | the response copies every stored field (id, project id, name and path, ref, sha, user name, status, duration, web URL) and formats the times; the start shows as empty text when it does not format; a finish time is shown, formatted, exactly when it exists and formats |
| Api.Responses | src/api.rs:477-496 | one response per row, in order |
| Api.ListPipelines | src/api.rs:383-497 | the handler selects by the filter meaning, and answers the newest ≤100 selected rows, or nothing when the query fails |
| Api.ListedRows | src/api.rs:389-476 | every listed row is stored and admitted; an admitted row left out is no newer than any listed one |
| Api.Summarize | src/api.rs:282-285 | the slow summary counts every selected row; its success numerator is 100 times the number of `success` rows |
| Api.EmptySummary | src/api.rs:369-373 | no rows gives the all-zero summary |
| Api.UnfinishedRowCounts | src/api.rs:285 | a running pipeline adds to the count but not to the successes |
| Api.SummaryStats | src/api.rs:248-381 | the summary handler builds the stats conditions; it answers the slow summary over the selected rows, or zeros when that query fails; on the fast path any project or exclusion condition makes the statement over `daily_stats` fail and the answer is zeros, otherwise the fast outcome or zeros |
| Api.TrendWindow | src/api.rs:504-511 | the window ends at `to_ts` or now; it starts at `from_ts` or 30 days before now when that leaves at least a day, and otherwise 7 days before the end; it spans at least a day |
| Api.TrendDefaults | src/api.rs:505-506 | without bounds the window is the last 30 days |
| Api.TrendBounds | src/api.rs:505-511 | given bounds are kept when a day or more apart, and widened to a week otherwise |
| Api.TrendFilter | src/api.rs:500-602 | the trend handler selects by the window it computed and by the project, ref (slow path only) and exclusion filters |
| Api.TrendClausesMeaning | src/api.rs:525-602 | the trend conditions mean what the filter means |
| Api.StatsTrend | src/api.rs:500-633 | `get_stats_trend` selects by the computed window and the filter; on the fast path any project or exclusion condition makes the statement over `daily_stats` fail and the answer is an empty list, otherwise the grouped outcome, or an empty list when the statement fails |
| Api.InsertDistinct | src/api.rs:636 | inserting into a strictly ascending list keeps it strictly ascending |
| Api.DistinctPaths | src/api.rs:636 | `SELECT DISTINCT .. ORDER BY`: strictly ascending, and a path is listed exactly when a stored row has it |
| Api.InsertSorted | src/api.rs:641 | inserting into an ascending list keeps it ascending and adds exactly that value |
| Api.SortStrings | src/api.rs:641 | `sort` gives an ascending permutation |
| Api.SortSortedIsIdentity | src/api.rs:641 | sorting an already ascending list changes nothing |
| Api.ListProjects | src/api.rs:635-643 | the project list is strictly ascending and holds exactly the stored paths; a failed query gives an empty list |

## Left out

- I/O, HTTP, the tokio runtime, the connection pool, the typed JSON decoders and the SQL engine. Replies and decodings are parameters; statements are map updates with an outcome flag.
- Concurrency:
  - the JoinSet and semaphore of the concurrent REST fetch and of the name backfill are modelled as their results, in spawn order;
  - interleavings and the order tasks finish in are not modelled.
- The endless loops of `start_monitor_loop` and `backfill_usernames`: the model gives one cycle and one batch. The sleeps between them (the poll interval, the 200 ms pause, the backoff sleeps) are returned as delays or left out. The refresh notification is left out.
- The `LIMIT 500` selection of the name backfill: the rows missing a name are a parameter.
- Regular expressions (the branch filter) and RFC 3339 parsing and formatting are functions passed in. So is whether a timestamp is in chrono's range.
- The moka cache and its keys in src/api.rs; the HTTP router; the configuration; `main` beyond its fresh-install decision (`Monitor.StartUp`), including its start-up rebuild of an empty `daily_stats` (src/main.rs:107-119).
- Floating point: the average durations and the division of the success rate.
- Api.SummaryStats: the fast-path statement over `daily_stats` is not evaluated when it can run; its outcome is a parameter.
- Api.TrendFilter, Api.StatsTrend: the selection is modelled, the per-day grouping is not; the grouped rows are a parameter.
- Api.ProjectStats: the slow path's grouping by path, average, last status and order by average are not evaluated; its outcome is a parameter. `list_refs` is left out for the same reason.
- Api.SortByCreated: SQLite leaves the order among equal `created_at` values unspecified; the model fixes one.
- Api.QueryBuilder.PushChoice: `split` always yields at least one part. The model keeps the `!projects.is_empty()` guard and `BindAll`, but the empty branch is unreachable.
- GitlabGraphql.FetchIncrementalActivity: the loop runs for as long as GitLab announces another page. The model takes the finite list of answered pages and requires that the last one announces none.
- Monitor.UpdatedAfter, GitlabTypes.DeriveDuration: the i64 overflow of `backfill_days * 86400` and of finish minus start is not modelled (integers are unbounded).
- Api.TrendWindow: the i64 overflow of `now - 30 * 86400`, `end_ts - start_ts` and `end_ts - 7 * 86400` (src/api.rs:506-510) is not modelled (integers are unbounded).
- Db.Day: the day is a number, not the `YYYY-MM-DD` text, and the `1970-01-01` fallback for an unformattable date is not modelled.
- The `count_with_duration` column migration of `init_db`.
- The filter code, written out separately in each of the four handlers of src/api.rs, is modelled once.

## Notes

- The fast-path statements of src/api.rs read a `project_full_path` column of `daily_stats`, but the schema at src/db.rs:24-33 has no such column, so SQLite rejects every such statement and each handler answers with its fallback:
  - `get_summary_stats` and `get_stats_trend` push the project choice and the exclusion as conditions on that column (src/api.rs:297, 305, 336 and 555, 563, 594). On the fast path any project or exclusion filter therefore gives zeros (src/api.rs:369-373) or an empty trend (src/api.rs:626). `Api.SummaryStats` and `Api.StatsTrend` state this; `Api.PathClauses` says when such a condition is pushed.
  - `get_project_stats` selects and groups by that column on the fast path (src/api.rs:133-138, 234), so whenever the ref filter is absent or `All` it answers an empty list (src/api.rs:237). `Api.ProjectStats` states this.
- `insert_pipeline` writes the project path into `daily_stats.project_name` (src/monitor.rs:362). The rebuild writes the project name (src/db.rs:90). Agreement between the two (`Monitor.InsertUnseenAgrees`) is therefore stated on the counters only.
- This model follows the code where the project's documentation says otherwise:
  - the success rate divides by every selected row, finished or not;
  - on conflict, the stored user name is always replaced, because the excluded value is never NULL.

- `main` decides a fresh install by `SELECT COUNT(*) FROM pipelines`, reading a failed count as 0 (src/main.rs:42-46), and runs `perform_initial_backfill` only on a fresh install (src/main.rs:90-91). A failed count on a populated database therefore re-runs the initial backfill. `Monitor.StartUp` states this.
- `Db.Store.InitDb` writes the start-up time only when no watermark exists, but `main` then calls `set_last_poll` with the current time unconditionally (src/main.rs:37). In the running program the watermark is therefore reset at every start, and the guard of `init_db` has no lasting effect. This reset is not part of this model.

## Findings

| source | as written | input that shows it | evidently intended | confidence | as-written member | corrected member |
|---|---|---|---|---|---|---|
| src/gitlab_graphql.rs:88 | `post_graphql` decodes its result from the whole re-serialised response (`data` and `errors`), so `PipelineResp.node` is never found and the lookup by global id returns no name | a 200 reply with `data = {"node": {"user": {"name": "alice"}}}` and no errors | decode `PipelineResp` from `data`, giving `Some("alice")` | not executed | GitlabGraphql.GidLookupMissesName | GitlabGraphql.GidLookupFixedNames |
| src/db.rs:96 | `backfill_daily_stats` groups by `project_name` as well as by the key (date, project_id, status); `ON CONFLICT .. SET count = excluded.count` then makes the later group overwrite the earlier one | two pipelines of one project, day and status, stored under the project's names before and after a rename | the bucket counts both pipelines, as `insert_pipeline` keeps it | not executed | Db.RenamedProjectUndercounted | Db.RebuildCounts |

On the first finding:
- As written, the lookup by global id is `GitlabGraphql.LookupByGid`. `GitlabGraphql.GidLookupNeverNames` proves it never names an author. `Monitor.NamesComeFromRest` proves every backfilled name then comes from REST.
- The corrected lookup is `GitlabGraphql.LookupByGidFixed`. `Monitor.ClientLookupsFixed` wires it into the backfill; `Monitor.ClientLookups` wires the lookup as written, and `Monitor.ClientNamesFromRest` proves its names all come from REST.

On the second finding:
- As written, the rebuild is `Db.RebuildAsWritten`. `Db.RebuildAsWrittenAgrees` proves it matches the rebuild by bucket whenever no bucket mixes two project names, so the loss needs a rename.
- The corrected rebuild is `Db.Rebuild`, which groups by the table's key; the counter agreement of the incremental inserts (`Monitor.InsertAllUnseenAgrees`) is stated against it.
- `Db.Store.BackfillDailyStats` runs the statement as written, and ensures the corrected rebuild whenever no bucket mixes two project names.
