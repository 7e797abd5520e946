/** The `jobs` table of `models/Job.js`: postings by clients, their
    search with filters, sorting and paging, and the count that goes with
    it.  `LIKE` matching is a predicate given by the caller. */
module Jobs {
  import opened Common
  import opened Schema
  import opened Queries
  import Text
  import Users
  import Proposals

  /** `status` has no CHECK and defaults to `open`. */
  datatype Job = Job(id: nat, clientId: int, title: string, description: string, durationMinutes: Option<int>,
                     budgetMin: Option<int>, budgetMax: Option<int>, status: string, createdAt: Time)

  /** The `JOIN users` on the client that every lookup but `searchCount`
      makes. */
  predicate Listed(accounts: map<nat, Users.User>, j: Job) {
    Users.Present(accounts, j.clientId)
  }

  function NewestFirst(j: Job): seq<Term> {
    [Desc(Int(j.createdAt))]
  }

  /** A numeric search filter: absent (`null`), or compared with a bound
      parameter.  `parseInt` may give `NaN`, which SQLite binds as NULL, so
      the bound itself is optional. */
  datatype NumFilter = NoFilter | Against(bound: Option<int>)

  /** `column >= bound` in SQL: false as soon as either side is NULL. */
  predicate AtLeast(column: Option<int>, bound: Option<int>) {
    column.Some? && bound.Some? && column.value >= bound.value
  }

  /** The filters `search` and `searchCount` share. */
  datatype Criteria = Criteria(query: Option<string>, status: Option<string>, budgetMin: NumFilter,
                               budgetMax: NumFilter, durationMin: NumFilter, durationMax: NumFilter)

  /** The `WHERE` clause: the text in the title or the description, the
      exact status, a budget range that overlaps `[budgetMin, budgetMax]`,
      and inclusive duration bounds. */
  predicate Matches(j: Job, c: Criteria, like: (string, string) -> bool) {
    (!Truthy(c.query) || like(c.query.value, j.title) || like(c.query.value, j.description))
    && (!Truthy(c.status) || j.status == c.status.value)
    && (c.budgetMin.NoFilter? || AtLeast(j.budgetMax, c.budgetMin.bound))
    && (c.budgetMax.NoFilter? || AtLeast(c.budgetMax.bound, j.budgetMin))
    && (c.durationMin.NoFilter? || AtLeast(j.durationMinutes, c.durationMin.bound))
    && (c.durationMax.NoFilter? || AtLeast(c.durationMax.bound, j.durationMinutes))
  }

  /** With every bound given as a number, the budget filters keep exactly
      the jobs whose budget range overlaps the requested one, and the
      duration filters keep exactly the durations inside the requested
      range, both ends included. */
  lemma MatchesRanges(j: Job, query: Option<string>, status: Option<string>, bMin: int, bMax: int, dMin: int,
                      dMax: int, like: (string, string) -> bool)
    ensures var c := Criteria(query, status, Against(Some(bMin)), Against(Some(bMax)), Against(Some(dMin)),
                              Against(Some(dMax)));
      Matches(j, c, like) <==>
        (!Truthy(query) || like(query.value, j.title) || like(query.value, j.description))
        && (!Truthy(status) || j.status == status.value)
        && j.budgetMin.Some? && j.budgetMax.Some? && j.budgetMax.value >= bMin && j.budgetMin.value <= bMax
        && j.durationMinutes.Some? && dMin <= j.durationMinutes.value <= dMax
  {
  }

  /** A bound that did not parse excludes every job. */
  lemma NaNBoundExcludesAll(j: Job, c: Criteria, like: (string, string) -> bool)
    requires c.budgetMin == Against(None) || c.budgetMax == Against(None)
             || c.durationMin == Against(None) || c.durationMax == Against(None)
    ensures !Matches(j, c, like)
  {
  }

  /** The sortable columns. */
  datatype Column = CreatedAt | BudgetMinColumn | BudgetMaxColumn | DurationMinutes | Title | ProposalCount

  function ColumnName(c: Column): string {
    match c
    case CreatedAt => "created_at"
    case BudgetMinColumn => "budget_min"
    case BudgetMaxColumn => "budget_max"
    case DurationMinutes => "duration_minutes"
    case Title => "title"
    case ProposalCount => "proposal_count"
  }

  const SortColumns: seq<string> :=
    ["created_at", "budget_min", "budget_max", "duration_minutes", "title", "proposal_count"]

  /** The whitelist: a listed column name is used as given, anything else
      sorts by `created_at`. */
  function SortColumn(sortBy: string): (r: Column)
    ensures ColumnName(r) == if sortBy in SortColumns then sortBy else "created_at"
  {
    if sortBy == "budget_min" then BudgetMinColumn
    else if sortBy == "budget_max" then BudgetMaxColumn
    else if sortBy == "duration_minutes" then DurationMinutes
    else if sortBy == "title" then Title
    else if sortBy == "proposal_count" then ProposalCount
    else CreatedAt
  }

  /** The correlated `COUNT(*)` of the job's proposals. */
  function CountProposals(proposals: map<nat, Proposals.Proposal>, jobId: int): nat {
    |set k | k in proposals && proposals[k].jobId == jobId|
  }

  function ColumnValue(c: Column, j: Job, proposals: map<nat, Proposals.Proposal>): Value {
    match c
    case CreatedAt => Int(j.createdAt)
    case BudgetMinColumn => OptInt(j.budgetMin)
    case BudgetMaxColumn => OptInt(j.budgetMax)
    case DurationMinutes => OptInt(j.durationMinutes)
    case Title => Value.Text(j.title)
    case ProposalCount => Int(CountProposals(proposals, j.id))
  }

  /** `ORDER BY <column> <ASC|DESC>`. */
  function SortKey(sortBy: string, sortOrder: string, proposals: map<nat, Proposals.Proposal>): Job -> seq<Term> {
    var column := SortColumn(sortBy);
    var ascending := Text.AscendingOrder(sortOrder);
    (j: Job) => [Dir(ascending, ColumnValue(column, j, proposals))]
  }

  /** The `jobs` table. */
  class JobTable {
    var rows: map<nat, Job>
    var nextId: nat

    ghost predicate Valid()
      reads this
    {
      nextId >= 1 && forall id :: id in rows ==> rows[id].id == id && 1 <= id < nextId
    }

    constructor ()
      ensures Valid() && rows == map[]
    {
      rows := map[];
      nextId := 1;
    }

    /** `Job.findById`: a job whose client still has an account. */
    function FindById(accounts: map<nat, Users.User>, id: int): (r: Option<Job>)
      reads this
      ensures r.Some? <==> id >= 0 && id in rows && Listed(accounts, rows[id])
      ensures r.Some? ==> r.value == rows[id]
    {
      if id >= 0 && id in rows && Listed(accounts, rows[id]) then Some(rows[id]) else None
    }

    /** `Job.create`: title and description are NOT NULL; the stored job
        is open.  It is returned through `findById`, so not when its client
        has no account. */
    method Create(accounts: map<nat, Users.User>, clientId: int, title: Option<string>, description: Option<string>,
                  durationMinutes: Option<int>, budgetMin: Option<int>, budgetMax: Option<int>, now: Time)
      returns (r: Result<Option<Job>>)
      requires Valid()
      modifies this
      ensures Valid()
      ensures r.Err? <==> title.None? || description.None?
      ensures r.Err? ==> r.error.ConstraintError? && rows == old(rows) && nextId == old(nextId)
      ensures r.Ok? ==>
        var j := Job(old(nextId), clientId, title.value, description.value, durationMinutes, budgetMin, budgetMax,
                     "open", now);
        old(nextId) !in old(rows) && rows == old(rows)[j.id := j]
        && r.value == (if Users.Present(accounts, clientId) then Some(j) else None)
    {
      if title.None? || description.None? {
        return Err(ConstraintError("NOT NULL constraint failed: jobs"));
      }
      var j := Job(nextId, clientId, title.value, description.value, durationMinutes, budgetMin, budgetMax, "open", now);
      rows := rows[nextId := j];
      nextId := nextId + 1;
      return Ok(FindById(accounts, j.id));
    }

    /** `Job.findAll`: every listed job, newest first. */
    function FindAll(accounts: map<nat, Users.User>): (r: seq<Job>)
      requires Valid()
      reads this
      ensures forall j :: j in r <==> j in rows.Values && Listed(accounts, j)
      ensures Listing(r, Rows(rows, nextId), ListedFilter(accounts), NewestFirst)
    {
      SelectRows(rows, nextId, ListedFilter(accounts), NewestFirst)
    }

    static function ListedFilter(accounts: map<nat, Users.User>): Job -> bool {
      (j: Job) => Listed(accounts, j)
    }

    /** `Job.search`: the LIMIT/OFFSET window of the listed jobs that
        match, in the chosen order. */
    function Search(accounts: map<nat, Users.User>, proposals: map<nat, Proposals.Proposal>, c: Criteria,
                    like: (string, string) -> bool, sortBy: string, sortOrder: string, limit: int, offset: int)
      : (r: seq<Job>)
      reads this
      ensures forall j :: j in r ==> j in rows.Values && Listed(accounts, j) && Matches(j, c, like)
      ensures IsWindow(r, Rows(rows, nextId), SearchFilter(accounts, c, like), SortKey(sortBy, sortOrder, proposals),
                       limit, offset)
      ensures limit >= 0 ==> |r| <= limit
      ensures var n := Count(Rows(rows, nextId), SearchFilter(accounts, c, like));
        var start := if offset < 0 then 0 else if offset > n then n else offset;
        |r| == if 0 <= limit < n - start then limit else n - start
    {
      var all := Rows(rows, nextId);
      assert forall j :: j in all ==> j in rows.Values;
      Select(all, SearchFilter(accounts, c, like), SortKey(sortBy, sortOrder, proposals), limit, offset)
    }

    static function SearchFilter(accounts: map<nat, Users.User>, c: Criteria, like: (string, string) -> bool): Job -> bool {
      (j: Job) => Listed(accounts, j) && Matches(j, c, like)
    }

    static function CountFilter(c: Criteria, like: (string, string) -> bool): Job -> bool {
      (j: Job) => Matches(j, c, like)
    }

    static function UnlistedFilter(accounts: map<nat, Users.User>, c: Criteria, like: (string, string) -> bool)
      : Job -> bool
    {
      (j: Job) => !Listed(accounts, j) && Matches(j, c, like)
    }

    /** The matching jobs whose client has no account. */
    function UnlistedCount(accounts: map<nat, Users.User>, c: Criteria, like: (string, string) -> bool): nat
      reads this
    {
      Count(Rows(rows, nextId), UnlistedFilter(accounts, c, like))
    }

    /** `Job.searchCount`: the same filter over the table, without the
        join on the client. */
    function SearchCount(c: Criteria, like: (string, string) -> bool): nat
      reads this
    {
      Count(Rows(rows, nextId), CountFilter(c, like))
    }

    /** `Job.updateStatus`: that job's status alone changes; an unknown id
        changes nothing.  Reports whether a row changed. */
    method UpdateStatus(id: int, status: string) returns (changed: bool)
      requires Valid()
      modifies this
      ensures Valid() && nextId == old(nextId)
      ensures changed <==> id >= 0 && id in old(rows)
      ensures changed ==> rows == old(rows)[id := old(rows[id]).(status := status)]
      ensures !changed ==> rows == old(rows)
    {
      changed := id >= 0 && id in rows;
      if changed {
        rows := rows[id as nat := rows[id].(status := status)];
      }
    }
  }

  /** `searchCount` counts the rows an unpaged `search` lists plus the
      matching jobs whose client has no account, which `search` drops. */
  lemma SearchCountSplits(t: JobTable, accounts: map<nat, Users.User>, proposals: map<nat, Proposals.Proposal>,
                          c: Criteria, like: (string, string) -> bool, sortBy: string, sortOrder: string)
    ensures t.SearchCount(c, like)
      == |t.Search(accounts, proposals, c, like, sortBy, sortOrder, -1, 0)| + t.UnlistedCount(accounts, c, like)
  {
    var all := Rows(t.rows, t.nextId);
    CountDisjointUnion(all, t.CountFilter(c, like), t.SearchFilter(accounts, c, like),
                       t.UnlistedFilter(accounts, c, like));
  }

  /** When every job's client has an account, the count is exactly the
      number of rows `search` can page through. */
  lemma SearchCountExact(t: JobTable, accounts: map<nat, Users.User>, proposals: map<nat, Proposals.Proposal>,
                         c: Criteria, like: (string, string) -> bool, sortBy: string, sortOrder: string)
    requires forall id :: id in t.rows ==> Listed(accounts, t.rows[id])
    ensures t.SearchCount(c, like) == |t.Search(accounts, proposals, c, like, sortBy, sortOrder, -1, 0)|
  {
    SearchCountSplits(t, accounts, proposals, c, like, sortBy, sortOrder);
    var all := Rows(t.rows, t.nextId);
    var unlisted := t.UnlistedFilter(accounts, c, like);
    forall j | j in all ensures !unlisted(j) {
      var k :| k in t.rows && k < t.nextId && t.rows[k] == j;
    }
    CountNone(all, unlisted);
  }
}
