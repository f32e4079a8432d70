/** The read side of src/api.rs: what the filter parameters of the HTTP
    handlers mean, the WHERE clauses the handlers push onto their query
    builders, the choice between the pre-aggregated `daily_stats` table
    (the fast path) and the `pipelines` table (the slow path), the row
    selection and order of `list_pipelines`, the integer parts of the
    slow summary, the trend window and `list_projects`. SQL evaluation is
    modelled on an in-memory table; the cache, HTTP and floating point are
    not modelled. */
module Api {
  import opened Wrappers
  import opened Text
  import opened Models
  import Db

  const PageLimit: nat := 100
  const DefaultSpanDays: int := 30
  const ShortSpanDays: int := 7

  /** The query string of every handler; absent parameters are `None`. */
  datatype PipelineFilter = PipelineFilter(
    projectName: Option<string>,
    refName: Option<string>,
    excludeProjects: Option<string>,
    status: Option<string>,
    fromTs: Option<int>,
    toTs: Option<int>)

  // ---------------------------------------------------------------------
  // What a filter means

  /** A project or ref filter that is absent, empty or `All` selects everything. */
  predicate Unconstrained(v: Option<string>) {
    v.None? || v.value == "All" || v.value == ""
  }

  /** `split(',').map(|s| s.trim())`. */
  function TrimAll(parts: seq<string>): (r: seq<string>)
    ensures |r| == |parts|
    ensures forall i :: 0 <= i < |parts| ==> r[i] == Trim(parts[i])
  {
    if parts == [] then [] else [Trim(parts[0])] + TrimAll(parts[1..])
  }

  /** The meaning of a project or ref filter for a column value `x`: no
      constraint, or, when the value holds a comma, equality with one of
      its comma-separated parts after trimming, or else equality with the
      whole value, untrimmed. */
  predicate Matches(v: Option<string>, x: string) {
    Unconstrained(v) ||
    if ',' in v.value then exists i :: 0 <= i < |Split(v.value, ',')| && Trim(Split(v.value, ',')[i]) == x
    else x == v.value
  }

  /** The meaning of `exclude_projects`: the path is none of the
      comma-separated parts, which are not trimmed; an absent or empty
      parameter excludes nothing. */
  predicate NotExcluded(ex: Option<string>, x: string) {
    ex.None? || ex.value == "" || x !in Split(ex.value, ',')
  }

  /** Both bounds of a time window are inclusive and each may be absent. */
  predicate InWindow(from: Option<int>, to: Option<int>, t: int) {
    (from.None? || from.value <= t) && (to.None? || t <= to.value)
  }

  /** The fast path is taken when the ref filter is absent or `All`. */
  function UseFastPath(f: PipelineFilter): (fast: bool)
    ensures fast <==> f.refName.None? || f.refName.value == "All"
    ensures fast ==> Unconstrained(f.refName)
  {
    f.refName.GetOr("All") == "All"
  }

  /** Taking the fast path loses nothing: the ref filter it skips would
      have admitted every ref. The converse fails for an empty ref filter,
      which takes the slow path and there imposes no constraint either. */
  lemma FastPathSkipsNoConstraint(f: PipelineFilter, x: string)
    ensures UseFastPath(f) ==> Matches(f.refName, x)
    ensures f.refName == Some("") ==> !UseFastPath(f) && Matches(f.refName, x)
  {
  }

  /** Without a comma a filter is an exact, untrimmed match. */
  lemma ExactFilter(v: string, x: string)
    requires v != "All" && v != "" && ',' !in v
    ensures Matches(Some(v), x) <==> x == v
  {
  }

  /** A value holding a comma is neither empty nor `All`. */
  lemma CommaConstrains(v: string)
    requires ',' in v
    ensures !Unconstrained(Some(v))
  {
    assert ',' !in "All" by {
      forall k | 0 <= k < 3 ensures "All"[k] != ',' {
        assert "All"[k] in {'A', 'l'};
      }
    }
  }

  /** With a comma a filter matches each part after trimming, and nothing else. */
  lemma {:induction false} ListFilter(v: string, x: string)
    requires ',' in v
    ensures Matches(Some(v), x) <==> x in TrimAll(Split(v, ','))
  {
    var parts := Split(v, ',');
    var trimmed := TrimAll(parts);
    CommaConstrains(v);
    assert Matches(Some(v), x) <==> exists i :: 0 <= i < |parts| && Trim(parts[i]) == x;
    if x in trimmed {
      var i :| 0 <= i < |trimmed| && trimmed[i] == x;
      assert Trim(parts[i]) == x;
    }
    if exists i :: 0 <= i < |parts| && Trim(parts[i]) == x {
      var i :| 0 <= i < |parts| && Trim(parts[i]) == x;
      assert trimmed[i] == x;
    }
  }

  lemma SplitExample()
    ensures Split("a, b", ',') == ["a", " b"]
  {
    assert Split("", ',') == [[]];
    assert Split("b", ',') == ["b"] by { assert "b"[1..] == []; }
    assert Split(" b", ',') == [" b"] by { assert " b"[1..] == "b"; }
    assert Split(", b", ',') == ["", " b"] by { assert ", b"[1..] == " b"; }
    var rest := Split(", b", ',');
    assert "a, b"[1..] == ", b";
    assert Split("a, b", ',') == [['a'] + rest[0]] + rest[1..];
    assert ['a'] + rest[0] == "a" && rest[1..] == [" b"];
  }

  lemma TrimExample()
    ensures Trim(" b") == "b"
  {
    assert TrimStart("b") == "b";
    assert TrimStart(" b") == TrimStart("b") by { assert " b"[1..] == "b"; }
    assert TrimEnd("b") == "b";
  }

  /** `a, b` selects `b` even though the part is written ` b`; without a
      comma ` b` does not. */
  lemma ListFilterTrims()
    ensures Matches(Some("a, b"), "b")
    ensures !Matches(Some(" b"), "b")
  {
    SplitExample();
    TrimExample();
    assert ',' in "a, b" by { assert "a, b"[1] == ','; }
    assert Trim(Split("a, b", ',')[1]) == "b";
  }

  // ---------------------------------------------------------------------
  // The WHERE clauses of a query builder

  datatype TextColumn = ProjectFullPath | RefName | Status
  datatype TimeColumn = CreatedAt | Date

  /** One `AND ...` condition pushed onto a builder. `Date` is the day
      column of `daily_stats`; its bounds are already days. */
  datatype Clause =
    | In(col: TextColumn, values: seq<string>)
    | NotIn(col: TextColumn, values: seq<string>)
    | Equals(col: TextColumn, value: string)
    | AtLeast(tcol: TimeColumn, bound: int)
    | AtMost(tcol: TimeColumn, bound: int)

  /** The columns a condition can read, of either table. */
  datatype Row = Row(path: string, refName: string, status: string, createdAt: int, date: int)

  /** A stored pipeline as a row of `pipelines`. */
  function RowOf(p: Pipeline): (r: Row)
    ensures r.path == p.projectFullPath && r.refName == p.refName && r.status == p.status
    ensures r.createdAt == p.createdAt && r.date == Db.Day(p.createdAt)
  {
    Row(p.projectFullPath, p.refName, p.status, p.createdAt, Db.Day(p.createdAt))
  }

  function TextOf(col: TextColumn, r: Row): string {
    match col
    case ProjectFullPath => r.path
    case RefName => r.refName
    case Status => r.status
  }

  function TimeOf(col: TimeColumn, r: Row): int {
    match col
    case CreatedAt => r.createdAt
    case Date => r.date
  }

  predicate Holds(c: Clause, r: Row) {
    match c
    case In(col, values) => TextOf(col, r) in values
    case NotIn(col, values) => TextOf(col, r) !in values
    case Equals(col, value) => TextOf(col, r) == value
    case AtLeast(col, bound) => TimeOf(col, r) >= bound
    case AtMost(col, bound) => TimeOf(col, r) <= bound
  }

  /** A row is selected when every condition holds (`WHERE 1=1 AND ...`). */
  predicate Satisfies(cs: seq<Clause>, r: Row) {
    forall i :: 0 <= i < |cs| ==> Holds(cs[i], r)
  }

  predicate ReadsRef(c: Clause) {
    (c.In? || c.NotIn? || c.Equals?) && c.col == RefName
  }

  /** No condition reads `ref_name`. */
  predicate RefFree(cs: seq<Clause>) {
    forall i :: 0 <= i < |cs| ==> !ReadsRef(cs[i])
  }

  predicate ReadsPath(c: Clause) {
    (c.In? || c.NotIn? || c.Equals?) && c.col == ProjectFullPath
  }

  /** No condition reads `project_full_path`, a column `daily_stats` does
      not have (src/db.rs:24-33). */
  predicate PathFree(cs: seq<Clause>) {
    forall i :: 0 <= i < |cs| ==> !ReadsPath(cs[i])
  }

  lemma PathFreeAppend(a: seq<Clause>, b: seq<Clause>)
    ensures PathFree(a + b) <==> PathFree(a) && PathFree(b)
  {
    if PathFree(a) && PathFree(b) {
      forall i | 0 <= i < |a + b| ensures !ReadsPath((a + b)[i]) {
        if i >= |a| { assert (a + b)[i] == b[i - |a|]; }
      }
    }
    if PathFree(a + b) {
      forall i | 0 <= i < |a| ensures !ReadsPath(a[i]) {
        assert (a + b)[i] == a[i];
      }
      forall i | 0 <= i < |b| ensures !ReadsPath(b[i]) {
        assert (a + b)[|a| + i] == b[i];
      }
    }
  }

  lemma SatisfiesAppend(a: seq<Clause>, b: seq<Clause>, r: Row)
    ensures Satisfies(a + b, r) <==> Satisfies(a, r) && Satisfies(b, r)
  {
    if Satisfies(a, r) && Satisfies(b, r) {
      forall i | 0 <= i < |a + b| ensures Holds((a + b)[i], r) {
        if i >= |a| { assert (a + b)[i] == b[i - |a|]; }
      }
    }
    if Satisfies(a + b, r) {
      forall i | 0 <= i < |a| ensures Holds(a[i], r) {
        assert (a + b)[i] == a[i];
      }
      forall i | 0 <= i < |b| ensures Holds(b[i], r) {
        assert (a + b)[|a| + i] == b[i];
      }
    }
  }

  lemma SatisfiesThree(a: seq<Clause>, b: seq<Clause>, c: seq<Clause>, r: Row)
    ensures Satisfies(a + b + c, r) <==> Satisfies(a, r) && Satisfies(b, r) && Satisfies(c, r)
  {
    SatisfiesAppend(a + b, c, r);
    SatisfiesAppend(a, b, r);
  }

  lemma SatisfiesFour(a: seq<Clause>, b: seq<Clause>, c: seq<Clause>, d: seq<Clause>, r: Row)
    ensures Satisfies(a + b + c + d, r) <==> Satisfies(a, r) && Satisfies(b, r) && Satisfies(c, r) && Satisfies(d, r)
  {
    SatisfiesAppend(a + b + c, d, r);
    SatisfiesThree(a, b, c, r);
  }

  /** The conditions a project or ref filter adds. */
  function ChoiceClauses(col: TextColumn, v: Option<string>): seq<Clause> {
    if Unconstrained(v) then []
    else if ',' in v.value then [In(col, TrimAll(Split(v.value, ',')))]
    else [Equals(col, v.value)]
  }

  /** The conditions `exclude_projects` adds. */
  function ExclusionClauses(ex: Option<string>): seq<Clause> {
    if ex.None? || ex.value == "" then [] else [NotIn(ProjectFullPath, Split(ex.value, ','))]
  }

  /** A filter that constrains the project path, by a choice or by an
      exclusion. */
  predicate FiltersByPath(f: PipelineFilter) {
    !Unconstrained(f.projectName) || (f.excludeProjects.Some? && f.excludeProjects.value != "")
  }

  /** The choice and exclusion conditions of the stats handlers read
      `project_full_path` exactly when the filter constrains the path. */
  lemma PathClauses(f: PipelineFilter, fast: bool)
    ensures PathFree(ChoiceClauses(ProjectFullPath, f.projectName) +
                     (if fast then [] else ChoiceClauses(RefName, f.refName)) +
                     ExclusionClauses(f.excludeProjects))
            <==> !FiltersByPath(f)
  {
    var a := ChoiceClauses(ProjectFullPath, f.projectName);
    var b: seq<Clause> := if fast then [] else ChoiceClauses(RefName, f.refName);
    var c := ExclusionClauses(f.excludeProjects);
    PathFreeAppend(a, b);
    PathFreeAppend(a + b, c);
    assert PathFree(b);
    assert PathFree(a) <==> Unconstrained(f.projectName) by {
      if !Unconstrained(f.projectName) { assert ReadsPath(a[0]); }
    }
    assert PathFree(c) <==> !(f.excludeProjects.Some? && f.excludeProjects.value != "") by {
      if c != [] { assert ReadsPath(c[0]); }
    }
  }

  /** The conditions a time window adds: on `Date` the bound is the day of
      the given instant (`date(ts, 'unixepoch')`). */
  function WindowClauses(col: TimeColumn, from: Option<int>, to: Option<int>): seq<Clause> {
    (if from.Some? then [AtLeast(col, Bound(col, from.value))] else []) +
    (if to.Some? then [AtMost(col, Bound(col, to.value))] else [])
  }

  function Bound(col: TimeColumn, ts: int): int {
    if col == Date then Db.Day(ts) else ts
  }

  /** The conditions of a filter mean what the filter means. */
  lemma SatisfiesOne(c: Clause, r: Row)
    ensures Satisfies([c], r) <==> Holds(c, r)
  {
    assert [c][0] == c;
  }

  lemma {:induction false} ChoiceMeaning(col: TextColumn, v: Option<string>, r: Row)
    ensures Satisfies(ChoiceClauses(col, v), r) <==> Matches(v, TextOf(col, r))
  {
    if Unconstrained(v) {
      assert ChoiceClauses(col, v) == [];
    } else if ',' in v.value {
      var c := In(col, TrimAll(Split(v.value, ',')));
      assert ChoiceClauses(col, v) == [c];
      SatisfiesOne(c, r);
      ListFilter(v.value, TextOf(col, r));
    } else {
      var c := Equals(col, v.value);
      assert ChoiceClauses(col, v) == [c];
      SatisfiesOne(c, r);
    }
  }

  lemma ExclusionMeaning(ex: Option<string>, r: Row)
    ensures Satisfies(ExclusionClauses(ex), r) <==> NotExcluded(ex, r.path)
  {
    if !(ex.None? || ex.value == "") {
      SatisfiesOne(NotIn(ProjectFullPath, Split(ex.value, ',')), r);
    }
  }

  lemma {:induction false} WindowMeaning(col: TimeColumn, from: Option<int>, to: Option<int>, r: Row)
    ensures col == CreatedAt ==> (Satisfies(WindowClauses(col, from, to), r) <==> InWindow(from, to, r.createdAt))
    ensures col == Date ==> (Satisfies(WindowClauses(col, from, to), r) <==> DayWindow(from, to, r.date))
  {
    var lo: seq<Clause> := if from.Some? then [AtLeast(col, Bound(col, from.value))] else [];
    var hi: seq<Clause> := if to.Some? then [AtMost(col, Bound(col, to.value))] else [];
    SatisfiesAppend(lo, hi, r);
    assert from.Some? ==> (Satisfies(lo, r) <==> Holds(lo[0], r));
    assert to.Some? ==> (Satisfies(hi, r) <==> Holds(hi[0], r));
  }

  /** A window compared by calendar day, as the fast path compares it. */
  predicate DayWindow(from: Option<int>, to: Option<int>, day: int) {
    (from.None? || Db.Day(from.value) <= day) && (to.None? || day <= Db.Day(to.value))
  }

  /** A query builder reduced to the conditions pushed onto it so far. */
  class QueryBuilder {
    var clauses: seq<Clause>

    constructor ()
      ensures clauses == []
    {
      clauses := [];
    }

    /** `push(" AND ...")` with its bound values. */
    method Push(c: Clause)
      modifies this
      ensures clauses == old(clauses) + [c]
    {
      clauses := clauses + [c];
    }

    /** A project or ref filter: nothing when unconstrained, an `IN` list
        of the trimmed comma-separated parts bound one at a time, or an
        equality. */
    method PushChoice(col: TextColumn, v: Option<string>)
      modifies this
      ensures clauses == old(clauses) + ChoiceClauses(col, v)
    {
      if v.Some? {
        var p := v.value;
        if p != "All" && p != "" {
          if ',' in p {
            var parts := TrimAll(Split(p, ','));
            if |parts| > 0 {
              var values := BindAll(parts);
              Push(In(col, values));
            }
          } else {
            Push(Equals(col, p));
          }
        }
      }
    }

    /** `exclude_projects`: a `NOT IN` list of the untrimmed parts. */
    method PushExclusion(ex: Option<string>)
      modifies this
      ensures clauses == old(clauses) + ExclusionClauses(ex)
    {
      if ex.Some? && ex.value != "" {
        var parts := Split(ex.value, ',');
        if |parts| > 0 {
          var values := BindAll(parts);
          Push(NotIn(ProjectFullPath, values));
        }
      }
    }

    /** The optional lower and upper time bounds, in that order. */
    method PushWindow(col: TimeColumn, from: Option<int>, to: Option<int>)
      modifies this
      ensures clauses == old(clauses) + WindowClauses(col, from, to)
    {
      if from.Some? {
        Push(AtLeast(col, Bound(col, from.value)));
      }
      if to.Some? {
        Push(AtMost(col, Bound(col, to.value)));
      }
    }
  }

  /** The `push_bind` loop of a separated list: every part, in order. */
  method BindAll(parts: seq<string>) returns (values: seq<string>)
    ensures values == parts
  {
    values := [];
    for i := 0 to |parts|
      invariant values == parts[..i]
    {
      values := values + [parts[i]];
    }
  }

  // ---------------------------------------------------------------------
  // The filters of the handlers

  /** What the statistics handlers select: the project and exclusion
      filters, the ref filter off the fast path, and the window, by day on
      `daily_stats` and by instant on `pipelines`. */
  predicate StatsAdmits(f: PipelineFilter, fast: bool, r: Row) {
    Matches(f.projectName, r.path) && Matches(f.refName, r.refName) && NotExcluded(f.excludeProjects, r.path) &&
    if fast then DayWindow(f.fromTs, f.toTs, r.date) else InWindow(f.fromTs, f.toTs, r.createdAt)
  }

  /** The WHERE part of `get_project_stats` and `get_summary_stats`, which
      build it with the same code. */
  method StatsFilter(f: PipelineFilter) returns (fast: bool, clauses: seq<Clause>)
    ensures fast == UseFastPath(f)
    ensures fast ==> RefFree(clauses)
    ensures forall r :: Satisfies(clauses, r) <==> StatsAdmits(f, fast, r)
    ensures PathFree(clauses) <==> !FiltersByPath(f)
  {
    fast := f.refName.GetOr("All") == "All";
    var qb := new QueryBuilder();
    qb.PushChoice(ProjectFullPath, f.projectName);
    ghost var a := qb.clauses;
    if !fast {
      qb.PushChoice(RefName, f.refName);
    }
    ghost var b := qb.clauses[|a|..];
    qb.PushExclusion(f.excludeProjects);
    var col := if fast then Date else CreatedAt;
    qb.PushWindow(col, f.fromTs, f.toTs);
    clauses := qb.clauses;
    assert clauses == a + b + ExclusionClauses(f.excludeProjects) + WindowClauses(col, f.fromTs, f.toTs);
    StatsClausesMeaning(f, fast, a, b, clauses);
    PathClauses(f, fast);
    PathFreeAppend(a + b + ExclusionClauses(f.excludeProjects), WindowClauses(col, f.fromTs, f.toTs));
  }

  lemma StatsClausesMeaning(f: PipelineFilter, fast: bool, a: seq<Clause>, b: seq<Clause>, clauses: seq<Clause>)
    requires fast == UseFastPath(f)
    requires a == ChoiceClauses(ProjectFullPath, f.projectName)
    requires b == if fast then [] else ChoiceClauses(RefName, f.refName)
    requires clauses == a + b + ExclusionClauses(f.excludeProjects) +
                        WindowClauses(if fast then Date else CreatedAt, f.fromTs, f.toTs)
    ensures fast ==> RefFree(clauses)
    ensures forall r :: Satisfies(clauses, r) <==> StatsAdmits(f, fast, r)
  {
    var c := ExclusionClauses(f.excludeProjects);
    var d := WindowClauses(if fast then Date else CreatedAt, f.fromTs, f.toTs);
    forall r ensures Satisfies(clauses, r) <==> StatsAdmits(f, fast, r) {
      SatisfiesFour(a, b, c, d, r);
      ChoiceMeaning(ProjectFullPath, f.projectName, r);
      ChoiceMeaning(RefName, f.refName, r);
      ExclusionMeaning(f.excludeProjects, r);
      WindowMeaning(if fast then Date else CreatedAt, f.fromTs, f.toTs, r);
      FastPathSkipsNoConstraint(f, r.refName);
    }
  }

  // ---------------------------------------------------------------------
  // list_pipelines

  /** What `list_pipelines` selects: the project, ref and exclusion
      filters, an exact status when one is given, and the window unless
      the status asked for is `running`. There is no fast path. */
  predicate ListAdmits(f: PipelineFilter, r: Row) {
    Matches(f.projectName, r.path) && Matches(f.refName, r.refName) && NotExcluded(f.excludeProjects, r.path) &&
    (f.status.Some? ==> r.status == f.status.value) &&
    (f.status != Some("running") ==> InWindow(f.fromTs, f.toTs, r.createdAt))
  }

  /** Asking for running pipelines ignores the time bounds. */
  lemma RunningIgnoresWindow(f: PipelineFilter, r: Row)
    requires f.status == Some("running")
    ensures ListAdmits(f, r) <==> ListAdmits(f.(fromTs := None, toTs := None), r)
    ensures ListAdmits(f, r) ==> r.status == "running"
  {
  }

  /** The WHERE part of `list_pipelines`. */
  method ListFilterClauses(f: PipelineFilter) returns (clauses: seq<Clause>)
    ensures forall r :: Satisfies(clauses, r) <==> ListAdmits(f, r)
  {
    var qb := new QueryBuilder();
    qb.PushChoice(ProjectFullPath, f.projectName);
    qb.PushChoice(RefName, f.refName);
    qb.PushExclusion(f.excludeProjects);
    ghost var filters := qb.clauses;
    if f.status.Some? {
      qb.Push(Equals(Status, f.status.value));
    }
    ghost var status := qb.clauses[|filters|..];
    var running := f.status == Some("running");
    if !running {
      qb.PushWindow(CreatedAt, f.fromTs, f.toTs);
    }
    clauses := qb.clauses;
    ghost var window := clauses[|filters| + |status|..];
    assert clauses == filters + status + window;
    ListClausesMeaning(f, filters, status, window, clauses);
  }

  lemma ListClausesMeaning(f: PipelineFilter, filters: seq<Clause>, status: seq<Clause>, window: seq<Clause>,
                           clauses: seq<Clause>)
    requires filters == ChoiceClauses(ProjectFullPath, f.projectName) + ChoiceClauses(RefName, f.refName) +
                        ExclusionClauses(f.excludeProjects)
    requires status == if f.status.Some? then [Equals(Status, f.status.value)] else []
    requires window == if f.status != Some("running") then WindowClauses(CreatedAt, f.fromTs, f.toTs) else []
    requires clauses == filters + status + window
    ensures forall r :: Satisfies(clauses, r) <==> ListAdmits(f, r)
  {
    var a := ChoiceClauses(ProjectFullPath, f.projectName);
    var b := ChoiceClauses(RefName, f.refName);
    var c := ExclusionClauses(f.excludeProjects);
    forall r ensures Satisfies(clauses, r) <==> ListAdmits(f, r) {
      SatisfiesThree(filters, status, window, r);
      SatisfiesThree(a, b, c, r);
      ChoiceMeaning(ProjectFullPath, f.projectName, r);
      ChoiceMeaning(RefName, f.refName, r);
      ExclusionMeaning(f.excludeProjects, r);
      WindowMeaning(CreatedAt, f.fromTs, f.toTs, r);
      if f.status.Some? {
        SatisfiesOne(Equals(Status, f.status.value), r);
      }
    }
  }

  /** The rows of `table` that satisfy `cs`, in table order. */
  function Where(table: seq<Pipeline>, cs: seq<Clause>): (r: seq<Pipeline>)
    ensures forall p :: multiset(r)[p] == if Satisfies(cs, RowOf(p)) then multiset(table)[p] else 0
  {
    if table == [] then []
    else
      assert table == [table[0]] + table[1..];
      (if Satisfies(cs, RowOf(table[0])) then [table[0]] else []) + Where(table[1..], cs)
  }

  /** Ordered by creation time, newest first (`ORDER BY created_at DESC`). */
  predicate NewestFirst(s: seq<Pipeline>) {
    forall i, j :: 0 <= i < j < |s| ==> s[i].createdAt >= s[j].createdAt
  }

  function InsertByCreated(p: Pipeline, s: seq<Pipeline>): (r: seq<Pipeline>)
    requires NewestFirst(s)
    ensures NewestFirst(r)
    ensures multiset(r) == multiset(s) + multiset{p}
  {
    if s == [] then [p]
    else if s[0].createdAt <= p.createdAt then
      ConsNewest(p, s);
      [p] + s
    else
      NewestTail(s);
      var rest := InsertByCreated(p, s[1..]);
      NoNewerThanHead(s, p, rest);
      ConsNewest(s[0], rest);
      [s[0]] + rest
  }

  lemma NewestTail(s: seq<Pipeline>)
    requires NewestFirst(s) && s != []
    ensures NewestFirst(s[1..])
    ensures s == [s[0]] + s[1..]
  {
    forall i, j | 0 <= i < j < |s[1..]| ensures s[1..][i].createdAt >= s[1..][j].createdAt {
      assert s[1..][i] == s[i + 1] && s[1..][j] == s[j + 1];
    }
  }

  lemma NoNewerThanHead(s: seq<Pipeline>, p: Pipeline, rest: seq<Pipeline>)
    requires NewestFirst(s) && s != [] && p.createdAt < s[0].createdAt
    requires multiset(rest) == multiset(s[1..]) + multiset{p}
    ensures forall q | q in rest :: q.createdAt <= s[0].createdAt
  {
    forall q | q in rest ensures q.createdAt <= s[0].createdAt {
      assert q in multiset(rest);
      if q != p {
        assert q in multiset(s[1..]);
        var j :| 0 <= j < |s[1..]| && s[1..][j] == q;
        assert s[j + 1] == q;
      }
    }
  }

  lemma ConsNewest(x: Pipeline, rest: seq<Pipeline>)
    requires NewestFirst(rest)
    requires forall q | q in rest :: q.createdAt <= x.createdAt
    ensures NewestFirst([x] + rest)
  {
    forall i, j | 0 <= i < j < |[x] + rest| ensures ([x] + rest)[i].createdAt >= ([x] + rest)[j].createdAt {
      if i > 0 {
        assert ([x] + rest)[i] == rest[i - 1];
      }
      assert ([x] + rest)[j] == rest[j - 1];
    }
  }

  /** Sorting a result set by creation time; the order among rows created
      in the same second is left to the database and fixed here. */
  function SortByCreated(s: seq<Pipeline>): (r: seq<Pipeline>)
    ensures NewestFirst(r)
    ensures multiset(r) == multiset(s)
  {
    if s == [] then []
    else
      assert s == [s[0]] + s[1..];
      InsertByCreated(s[0], SortByCreated(s[1..]))
  }

  /** `ORDER BY created_at DESC LIMIT 100`: at most 100 rows, newest
      first, all taken from `rows`; all of them when there are no more than
      100; and every row left out is no newer than any row kept. */
  function Newest(rows: seq<Pipeline>): (r: seq<Pipeline>)
    ensures |r| == if |rows| <= PageLimit then |rows| else PageLimit
    ensures NewestFirst(r)
    ensures multiset(r) <= multiset(rows)
    ensures |rows| <= PageLimit ==> multiset(r) == multiset(rows)
    ensures forall p | p in multiset(rows) - multiset(r) :: forall i | 0 <= i < |r| :: p.createdAt <= r[i].createdAt
  {
    var s := SortByCreated(rows);
    TakeNewest(rows, s);
    Take(s)
  }

  function Take(s: seq<Pipeline>): seq<Pipeline> {
    if |s| <= PageLimit then s else s[..PageLimit]
  }

  /** No row after position k of a newest-first list is newer than one before it. */
  lemma DroppedNoNewer(s: seq<Pipeline>, k: nat)
    requires NewestFirst(s) && k <= |s|
    ensures forall p | p in multiset(s[k..]) :: forall i | 0 <= i < k :: p.createdAt <= s[i].createdAt
  {
    forall p | p in multiset(s[k..])
      ensures forall i | 0 <= i < k :: p.createdAt <= s[i].createdAt
    {
      var j :| 0 <= j < |s[k..]| && s[k..][j] == p;
      assert s[k + j] == p;
    }
  }

  /** A prefix of a newest-first permutation of the rows keeps the order,
      is drawn from the rows, and leaves out no row newer than it holds. */
  lemma PrefixNewest(rows: seq<Pipeline>, s: seq<Pipeline>, k: nat)
    requires NewestFirst(s) && multiset(s) == multiset(rows) && k <= |s|
    ensures NewestFirst(s[..k])
    ensures multiset(s[..k]) <= multiset(rows)
    ensures forall p | p in multiset(rows) - multiset(s[..k]) :: forall i | 0 <= i < k :: p.createdAt <= s[i].createdAt
  {
    assert s == s[..k] + s[k..];
    assert multiset(rows) - multiset(s[..k]) == multiset(s[k..]);
    DroppedNoNewer(s, k);
  }

  lemma TakeNewest(rows: seq<Pipeline>, s: seq<Pipeline>)
    requires NewestFirst(s) && multiset(s) == multiset(rows)
    ensures |Take(s)| == if |rows| <= PageLimit then |rows| else PageLimit
    ensures NewestFirst(Take(s))
    ensures multiset(Take(s)) <= multiset(rows)
    ensures |rows| <= PageLimit ==> multiset(Take(s)) == multiset(rows)
    ensures forall p | p in multiset(rows) - multiset(Take(s)) :: forall i | 0 <= i < |Take(s)| :: p.createdAt <= Take(s)[i].createdAt
  {
    assert |s| == |rows| by { assert |multiset(s)| == |multiset(rows)|; }
    var k := |Take(s)|;
    assert Take(s) == s[..k];
    PrefixNewest(rows, s, k);
  }

  /** One row of the `list_pipelines` response; the times are RFC 3339 text. */
  datatype PipelineResponse = PipelineResponse(
    id: int,
    projectId: int,
    projectName: string,
    projectFullPath: string,
    refName: string,
    sha: string,
    userName: string,
    status: string,
    createdAt: string,
    finishedAt: Option<string>,
    duration: Option<int>,
    webUrl: Option<string>)

  /** The response of one row: a creation time that cannot be rendered
      becomes the empty string, a finish time that cannot be rendered is
      dropped. `rfc3339` renders a Unix time, or fails out of range. */
  function ToResponse(p: Pipeline, rfc3339: int -> Option<string>): (r: PipelineResponse)
    ensures r.id == p.id && r.projectId == p.projectId && r.status == p.status && r.duration == p.duration
    ensures r.projectName == p.projectName && r.projectFullPath == p.projectFullPath
    ensures r.refName == p.refName && r.sha == p.sha && r.userName == p.userName && r.webUrl == p.webUrl
    ensures r.createdAt == rfc3339(p.createdAt).GetOr("")
    ensures r.finishedAt.Some? <==> p.finishedAt.Some? && rfc3339(p.finishedAt.value).Some?
    ensures r.finishedAt.Some? ==> r.finishedAt == rfc3339(p.finishedAt.value)
  {
    PipelineResponse(
      p.id, p.projectId, p.projectName, p.projectFullPath, p.refName, p.sha, p.userName, p.status,
      rfc3339(p.createdAt).GetOr(""),
      match p.finishedAt
      case None => None
      case Some(t) => rfc3339(t),
      p.duration, p.webUrl)
  }

  function Responses(rows: seq<Pipeline>, rfc3339: int -> Option<string>): (r: seq<PipelineResponse>)
    ensures |r| == |rows|
    ensures forall i :: 0 <= i < |rows| ==> r[i] == ToResponse(rows[i], rfc3339)
  {
    if rows == [] then [] else [ToResponse(rows[0], rfc3339)] + Responses(rows[1..], rfc3339)
  }

  /** `list_pipelines`: the query it sends, and its response. A failed
      query answers with an empty list. */
  method ListPipelines(f: PipelineFilter, table: seq<Pipeline>, queryOk: bool, rfc3339: int -> Option<string>)
    returns (clauses: seq<Clause>, resp: seq<PipelineResponse>)
    ensures forall r :: Satisfies(clauses, r) <==> ListAdmits(f, r)
    ensures resp == if queryOk then Responses(Newest(Where(table, clauses)), rfc3339) else []
  {
    clauses := ListFilterClauses(f);
    var rows: seq<Pipeline> := [];
    if queryOk {
      rows := Newest(Where(table, clauses));
    }
    resp := Responses(rows, rfc3339);
  }

  /** The rows behind a `list_pipelines` response: each is a row of the
      table the filter admits, at most 100 of them, newest first, and no
      admitted row that is left out is newer than one returned. */
  lemma ListedRows(f: PipelineFilter, table: seq<Pipeline>, clauses: seq<Clause>, p: Pipeline)
    requires forall r :: Satisfies(clauses, r) <==> ListAdmits(f, r)
    ensures var listed := Newest(Where(table, clauses));
            |listed| <= PageLimit && NewestFirst(listed) &&
            (p in listed ==> p in table && ListAdmits(f, RowOf(p))) &&
            (p in table && ListAdmits(f, RowOf(p)) && p !in listed ==>
               forall i | 0 <= i < |listed| :: p.createdAt <= listed[i].createdAt)
  {
    var selected := Where(table, clauses);
    var listed := Newest(selected);
    if p in listed {
      assert p in multiset(listed);
      assert p in multiset(selected);
      assert p in multiset(table);
    }
    if p in table && ListAdmits(f, RowOf(p)) && p !in listed {
      assert p in multiset(table);
      assert multiset(selected)[p] == multiset(table)[p];
      assert p !in multiset(listed);
      assert p in multiset(selected) - multiset(listed);
    }
  }

  // ---------------------------------------------------------------------
  // get_project_stats

  /** The error SQLite reports for a statement over `daily_stats` that
      names `project_full_path`. */
  const NoPathColumn := "no such column: project_full_path"

  /** The integer parts of one row of `get_project_stats`; the average
      duration is out of scope. */
  datatype ProjectStat = ProjectStat(projectName: string, count: int, lastStatus: string)

  /** `get_project_stats`. The slow statement groups the selected pipelines
      by path; its outcome is a parameter. The fast statement selects and
      groups by `project_full_path` of `daily_stats`, which has no such
      column, so it always fails, and a failed statement answers with an
      empty list. */
  method ProjectStats(f: PipelineFilter, slowOutcome: Result<seq<ProjectStat>, string>)
    returns (fast: bool, clauses: seq<Clause>, stats: seq<ProjectStat>)
    ensures fast == UseFastPath(f)
    ensures forall r :: Satisfies(clauses, r) <==> StatsAdmits(f, fast, r)
    ensures fast ==> stats == []
    ensures !fast ==> stats == if slowOutcome.Ok? then slowOutcome.value else []
  {
    fast, clauses := StatsFilter(f);
    var fetched: Result<seq<ProjectStat>, string> := if fast then Err(NoPathColumn) else slowOutcome;
    stats := if fetched.Ok? then fetched.value else [];
  }

  // ---------------------------------------------------------------------
  // get_summary_stats

  /** The integer parts of a summary: the row count, and the success rate
      as a percentage fraction `successPercent / totalCount` (read as 0
      when there are no rows). The average duration is out of scope. */
  datatype Summary = Summary(totalCount: int, successPercent: int)

  function Statuses(rows: seq<Pipeline>): (r: seq<string>)
    ensures |r| == |rows|
    ensures forall i :: 0 <= i < |rows| ==> r[i] == rows[i].status
  {
    if rows == [] then [] else [rows[0].status] + Statuses(rows[1..])
  }

  /** The slow summary (`COUNT(*)` and `SUM(CASE WHEN status = 'success'
      THEN 1 ELSE 0 END) * 100 / COUNT(*)`): every selected row counts,
      finished or not, and only `success` rows count as successes. */
  function Summarize(rows: seq<Pipeline>): (s: Summary)
    ensures s.totalCount == |rows|
    ensures s.successPercent == 100 * multiset(Statuses(rows))["success"]
    ensures 0 <= s.successPercent <= 100 * s.totalCount
  {
    if rows == [] then Summary(0, 0)
    else
      var rest := Summarize(rows[1..]);
      assert Statuses(rows) == [rows[0].status] + Statuses(rows[1..]);
      Summary(rest.totalCount + 1, rest.successPercent + if rows[0].status == "success" then 100 else 0)
  }

  /** No selected row gives an all-zero summary. */
  lemma EmptySummary()
    ensures Summarize([]) == Summary(0, 0)
  {
  }

  /** A row that has not finished lowers the rate: it adds to the count but
      not to the successes. */
  lemma {:induction false} UnfinishedRowCounts(rows: seq<Pipeline>, p: Pipeline)
    requires p.status == "running"
    ensures Summarize(rows + [p]).totalCount == Summarize(rows).totalCount + 1
    ensures Summarize(rows + [p]).successPercent == Summarize(rows).successPercent
  {
    StatusesSnoc(rows, p);
  }

  lemma StatusesSnoc(rows: seq<Pipeline>, p: Pipeline)
    ensures multiset(Statuses(rows + [p])) == multiset(Statuses(rows)) + multiset{p.status}
  {
    assert Statuses(rows + [p]) == Statuses(rows) + [p.status];
  }

  /** `get_summary_stats`. On the slow path the summary of the selected
      pipelines. On the fast path the statement reads `daily_stats`: a
      condition on `project_full_path`, which that table lacks, makes it
      fail; otherwise its outcome, which is not evaluated here, is given.
      A failed statement answers with zeros. */
  method SummaryStats(f: PipelineFilter, table: seq<Pipeline>, slowOk: bool, fastOutcome: Result<Summary, string>)
    returns (fast: bool, clauses: seq<Clause>, s: Summary)
    ensures fast == UseFastPath(f)
    ensures fast ==> RefFree(clauses)
    ensures forall r :: Satisfies(clauses, r) <==> StatsAdmits(f, fast, r)
    ensures fast && FiltersByPath(f) ==> s == Summary(0, 0)
    ensures fast && !FiltersByPath(f) ==> s == if fastOutcome.Ok? then fastOutcome.value else Summary(0, 0)
    ensures !fast ==> s == if slowOk then Summarize(Where(table, clauses)) else Summary(0, 0)
  {
    fast, clauses := StatsFilter(f);
    var fetched: Result<Summary, string>;
    if fast {
      fetched := if PathFree(clauses) then fastOutcome else Err(NoPathColumn);
    } else if slowOk {
      fetched := Ok(Summarize(Where(table, clauses)));
    } else {
      fetched := Err("summary query failed");
    }
    s := if fetched.Ok? then fetched.value else Summary(0, 0);
  }

  // ---------------------------------------------------------------------
  // get_stats_trend

  /** The trend window: `end` is the upper bound or now, `start` the lower
      bound or 30 days before now; a window shorter than a day becomes the
      week ending at `end`. */
  function TrendWindow(f: PipelineFilter, now: int): (w: (int, int))
    ensures w.1 == f.toTs.GetOr(now)
    ensures w.1 - w.0 >= Db.SecondsPerDay
    // a window of a day or more is kept; a shorter one becomes the week before its end
    ensures var s0 := f.fromTs.GetOr(now - DefaultSpanDays * Db.SecondsPerDay);
            (w.1 - s0 >= Db.SecondsPerDay ==> w.0 == s0) &&
            (w.1 - s0 < Db.SecondsPerDay ==> w.0 == w.1 - ShortSpanDays * Db.SecondsPerDay)
  {
    var end := f.toTs.GetOr(now);
    var start := f.fromTs.GetOr(now - DefaultSpanDays * Db.SecondsPerDay);
    if end - start < Db.SecondsPerDay then (end - ShortSpanDays * Db.SecondsPerDay, end) else (start, end)
  }

  /** With no bounds the window is the last 30 days. */
  lemma TrendDefaults(f: PipelineFilter, now: int)
    requires f.fromTs.None? && f.toTs.None?
    ensures TrendWindow(f, now) == (now - 30 * 86400, now)
  {
  }

  /** Bounds at least a day apart are kept as given; closer or reversed
      bounds are replaced by the week ending at the upper bound. */
  lemma TrendBounds(f: PipelineFilter, now: int, from: int, to: int)
    requires f.fromTs == Some(from) && f.toTs == Some(to)
    ensures to - from >= 86400 ==> TrendWindow(f, now) == (from, to)
    ensures to - from < 86400 ==> TrendWindow(f, now) == (to - 7 * 86400, to)
  {
  }

  /** The WHERE part of `get_stats_trend`: the window first, then the
      project, ref and exclusion filters of the statistics handlers. */
  method TrendFilter(f: PipelineFilter, now: int) returns (fast: bool, start: int, end: int, clauses: seq<Clause>)
    ensures fast == UseFastPath(f)
    ensures (start, end) == TrendWindow(f, now)
    ensures fast ==> RefFree(clauses)
    ensures forall r :: Satisfies(clauses, r) <==> StatsAdmits(f.(fromTs := Some(start), toTs := Some(end)), fast, r)
    ensures PathFree(clauses) <==> !FiltersByPath(f)
  {
    end := f.toTs.GetOr(now);
    start := f.fromTs.GetOr(now - DefaultSpanDays * Db.SecondsPerDay);
    if end - start < Db.SecondsPerDay {
      start := end - ShortSpanDays * Db.SecondsPerDay;
    }
    fast := f.refName.GetOr("All") == "All";
    var qb := new QueryBuilder();
    if fast {
      qb.PushWindow(Date, Some(start), Some(end));
    } else {
      qb.PushWindow(CreatedAt, Some(start), Some(end));
    }
    var window := qb.clauses;
    qb.PushChoice(ProjectFullPath, f.projectName);
    if !fast {
      qb.PushChoice(RefName, f.refName);
    }
    qb.PushExclusion(f.excludeProjects);
    clauses := qb.clauses;
    TrendClausesMeaning(f, f.(fromTs := Some(start), toTs := Some(end)), fast, window, clauses);
    PathClauses(f, fast);
    var rest := ChoiceClauses(ProjectFullPath, f.projectName) +
                (if fast then [] else ChoiceClauses(RefName, f.refName)) +
                ExclusionClauses(f.excludeProjects);
    assert clauses == window + rest;
    PathFreeAppend(window, rest);
  }

  /** `get_stats_trend`. The grouped rows of the statement are a parameter.
      On the fast path the statement reads `daily_stats`, so a condition on
      `project_full_path` makes it fail; a failed statement answers with an
      empty list. */
  method StatsTrend(f: PipelineFilter, now: int, outcome: Result<seq<DailyStat>, string>)
    returns (fast: bool, clauses: seq<Clause>, days: seq<DailyStat>)
    ensures fast == UseFastPath(f)
    ensures var (start, end) := TrendWindow(f, now);
            forall r :: Satisfies(clauses, r) <==> StatsAdmits(f.(fromTs := Some(start), toTs := Some(end)), fast, r)
    ensures fast && FiltersByPath(f) ==> days == []
    ensures !(fast && FiltersByPath(f)) ==> days == if outcome.Ok? then outcome.value else []
  {
    var start, end;
    fast, start, end, clauses := TrendFilter(f, now);
    var fetched := if fast && !PathFree(clauses) then Err(NoPathColumn) else outcome;
    days := if fetched.Ok? then fetched.value else [];
  }

  lemma TrendClausesMeaning(f: PipelineFilter, g: PipelineFilter, fast: bool, window: seq<Clause>, clauses: seq<Clause>)
    requires g.projectName == f.projectName && g.refName == f.refName && g.excludeProjects == f.excludeProjects
    requires fast == UseFastPath(f)
    requires window == WindowClauses(if fast then Date else CreatedAt, g.fromTs, g.toTs)
    requires clauses == window + ChoiceClauses(ProjectFullPath, f.projectName) +
                        (if fast then [] else ChoiceClauses(RefName, f.refName)) +
                        ExclusionClauses(f.excludeProjects)
    ensures fast ==> RefFree(clauses)
    ensures forall r :: Satisfies(clauses, r) <==> StatsAdmits(g, fast, r)
  {
    var a := ChoiceClauses(ProjectFullPath, f.projectName);
    var b: seq<Clause> := if fast then [] else ChoiceClauses(RefName, f.refName);
    var c := ExclusionClauses(f.excludeProjects);
    forall r ensures Satisfies(clauses, r) <==> StatsAdmits(g, fast, r) {
      SatisfiesFour(window, a, b, c, r);
      ChoiceMeaning(ProjectFullPath, f.projectName, r);
      ChoiceMeaning(RefName, f.refName, r);
      ExclusionMeaning(f.excludeProjects, r);
      WindowMeaning(if fast then Date else CreatedAt, g.fromTs, g.toTs, r);
      FastPathSkipsNoConstraint(f, r.refName);
    }
  }

  // ---------------------------------------------------------------------
  // list_projects

  /** Strictly ascending in the string order, hence without repetition. */
  predicate StrictlyAscending(s: seq<string>) {
    forall i, j :: 0 <= i < j < |s| ==> StrLess(s[i], s[j])
  }

  /** Ascending in the string order, repetitions allowed. */
  predicate Ascending(s: seq<string>) {
    forall i, j :: 0 <= i < j < |s| ==> !StrLess(s[j], s[i])
  }

  lemma ConsAscendingStrict(x: string, s: seq<string>)
    requires StrictlyAscending(s)
    requires forall y | y in s :: StrLess(x, y)
    ensures StrictlyAscending([x] + s)
  {
    forall i, j | 0 <= i < j < |[x] + s| ensures StrLess(([x] + s)[i], ([x] + s)[j]) {
      assert ([x] + s)[j] == s[j - 1];
      if i > 0 { assert ([x] + s)[i] == s[i - 1]; }
    }
  }

  /** `x` added to a strictly ascending list, unless already there. */
  function InsertDistinct(x: string, s: seq<string>): (r: seq<string>)
    requires StrictlyAscending(s)
    ensures StrictlyAscending(r)
    ensures forall y :: y in r <==> y == x || y in s
  {
    if s == [] then [x]
    else if x == s[0] then s
    else if StrLess(x, s[0]) then
      forall y | y in s ensures StrLess(x, y) {
        var j :| 0 <= j < |s| && s[j] == y;
        if j > 0 { StrLessTransitive(x, s[0], y); }
      }
      ConsAscendingStrict(x, s);
      [x] + s
    else
      StrLessTotal(x, s[0]);
      var rest := InsertDistinct(x, s[1..]);
      forall y | y in rest ensures StrLess(s[0], y) {
        if y != x {
          var j :| 0 <= j < |s[1..]| && s[1..][j] == y;
          assert s[j + 1] == y;
        }
      }
      ConsAscendingStrict(s[0], rest);
      assert forall y :: y in s <==> y == s[0] || y in s[1..] by { assert s == [s[0]] + s[1..]; }
      [s[0]] + rest
  }

  /** Some row of `table` has project path `x`. */
  predicate HasPath(table: seq<Pipeline>, x: string) {
    exists i :: 0 <= i < |table| && table[i].projectFullPath == x
  }

  lemma HasPathCons(table: seq<Pipeline>, x: string)
    requires table != []
    ensures HasPath(table, x) <==> x == table[0].projectFullPath || HasPath(table[1..], x)
  {
    if HasPath(table, x) {
      var i :| 0 <= i < |table| && table[i].projectFullPath == x;
      if i > 0 { assert table[1..][i - 1] == table[i]; }
    }
    if HasPath(table[1..], x) {
      var i :| 0 <= i < |table[1..]| && table[1..][i].projectFullPath == x;
      assert table[i + 1] == table[1..][i];
    }
  }

  /** `SELECT DISTINCT project_full_path FROM pipelines ORDER BY project_full_path`. */
  function DistinctPaths(table: seq<Pipeline>): (r: seq<string>)
    ensures StrictlyAscending(r)
    ensures forall x :: x in r <==> HasPath(table, x)
  {
    if table == [] then []
    else
      var rest := DistinctPaths(table[1..]);
      forall x ensures HasPath(table, x) <==> x == table[0].projectFullPath || HasPath(table[1..], x) {
        HasPathCons(table, x);
      }
      InsertDistinct(table[0].projectFullPath, rest)
  }

  /** `x` placed before the first element not less than it. */
  function InsertSorted(x: string, s: seq<string>): (r: seq<string>)
    requires Ascending(s)
    ensures Ascending(r)
    ensures multiset(r) == multiset(s) + multiset{x}
  {
    if s == [] || !StrLess(s[0], x) then
      NotBelow(x, s);
      ConsAscending(x, s);
      [x] + s
    else
      AscendingTail(s);
      var rest := InsertSorted(x, s[1..]);
      NotBelowHead(s, x, rest);
      ConsAscendingLoose(s[0], rest);
      [s[0]] + rest
  }

  lemma AscendingTail(s: seq<string>)
    requires Ascending(s) && s != []
    ensures Ascending(s[1..])
    ensures s == [s[0]] + s[1..]
  {
    forall i, j | 0 <= i < j < |s[1..]| ensures !StrLess(s[1..][j], s[1..][i]) {
      assert s[1..][j] == s[j + 1] && s[1..][i] == s[i + 1];
    }
  }

  lemma NotBelow(x: string, s: seq<string>)
    requires Ascending(s)
    requires s == [] || !StrLess(s[0], x)
    ensures forall j :: 0 <= j < |s| ==> !StrLess(s[j], x)
  {
    forall j | 0 <= j < |s| ensures !StrLess(s[j], x) {
      if StrLess(s[j], x) {
        StrLessTotal(s[0], x);
        if StrLess(x, s[0]) { StrLessTransitive(s[j], x, s[0]); }
      }
    }
  }

  lemma NotBelowHead(s: seq<string>, x: string, rest: seq<string>)
    requires Ascending(s) && s != [] && StrLess(s[0], x)
    requires multiset(rest) == multiset(s[1..]) + multiset{x}
    ensures forall y | y in rest :: !StrLess(y, s[0])
  {
    forall y | y in rest ensures !StrLess(y, s[0]) {
      assert y in multiset(rest);
      if y == x {
        if StrLess(x, s[0]) {
          StrLessTransitive(s[0], x, s[0]);
          StrLessIrreflexive(s[0]);
        }
      } else {
        assert y in multiset(s[1..]);
        var j :| 0 <= j < |s[1..]| && s[1..][j] == y;
        assert s[j + 1] == y;
      }
    }
  }

  lemma ConsAscending(x: string, s: seq<string>)
    requires Ascending(s)
    requires forall j :: 0 <= j < |s| ==> !StrLess(s[j], x)
    ensures Ascending([x] + s)
  {
    forall i, j | 0 <= i < j < |[x] + s| ensures !StrLess(([x] + s)[j], ([x] + s)[i]) {
      assert ([x] + s)[j] == s[j - 1];
      if i > 0 { assert ([x] + s)[i] == s[i - 1]; }
    }
  }

  lemma ConsAscendingLoose(x: string, s: seq<string>)
    requires Ascending(s)
    requires forall y | y in s :: !StrLess(y, x)
    ensures Ascending([x] + s)
  {
    forall j | 0 <= j < |s| ensures !StrLess(s[j], x) {
      assert s[j] in s;
    }
    ConsAscending(x, s);
  }

  /** `Vec::sort` on strings: ascending, and a permutation of its input. */
  function SortStrings(s: seq<string>): (r: seq<string>)
    ensures Ascending(r)
    ensures multiset(r) == multiset(s)
  {
    if s == [] then []
    else
      assert s == [s[0]] + s[1..];
      InsertSorted(s[0], SortStrings(s[1..]))
  }

  /** Sorting what is already in order changes nothing. */
  lemma {:induction false} SortSortedIsIdentity(s: seq<string>)
    requires Ascending(s)
    ensures SortStrings(s) == s
  {
    if s != [] {
      AscendingTail(s);
      SortSortedIsIdentity(s[1..]);
      assert SortStrings(s) == InsertSorted(s[0], s[1..]);
      if |s| > 1 {
        assert !StrLess(s[1], s[0]);
      }
    }
  }

  lemma StrictIsAscending(s: seq<string>)
    requires StrictlyAscending(s)
    ensures Ascending(s)
  {
    forall i, j | 0 <= i < j < |s| ensures !StrLess(s[j], s[i]) {
      if StrLess(s[j], s[i]) {
        StrLessTransitive(s[i], s[j], s[i]);
        StrLessIrreflexive(s[i]);
      }
    }
  }

  /** `list_projects`: every stored project path once, in ascending order;
      a failed query gives the empty list. The sort after the ordered query
      changes nothing. */
  function ListProjects(table: seq<Pipeline>, queryOk: bool): (names: seq<string>)
    ensures StrictlyAscending(names)
    ensures queryOk ==> forall x :: x in names <==> HasPath(table, x)
    ensures !queryOk ==> names == []
  {
    var projects := if queryOk then DistinctPaths(table) else [];
    StrictIsAscending(projects);
    SortSortedIsIdentity(projects);
    SortStrings(projects)
  }
}
