/** The handlers of `controllers/jobController.js`: clients post jobs,
    anyone lists, searches and opens them.  Every handler wraps its work
    in a `try` that turns a thrown error into a 500. */
module JobController {
  import opened Common
  import opened Schema
  import opened Queries
  import Text
  import Users
  import Jobs
  import Proposals

  const InternalError := HttpError(500, "Internal server error")

  /** The checks of `createJob`, in order. */
  function CreateJobGuard(role: Role, title: Option<string>, description: Option<string>): (r: Outcome)
    ensures r.Pass? <==>
      role == Client && title.Some? && |title.value| >= 10 && description.Some? && |description.value| >= 20
    ensures role != Client ==> r == Fail(HttpError(403, "Only clients can post jobs"))
    ensures role == Client && (!Truthy(title) || !Truthy(description)) ==>
      r == Fail(HttpError(400, "Title and description are required"))
    ensures r.Fail? ==> r.error.HttpError? && r.error.status in {400, 403}
  {
    if role != Client then Fail(HttpError(403, "Only clients can post jobs"))
    else if !Truthy(title) || !Truthy(description) then Fail(HttpError(400, "Title and description are required"))
    else if |title.value| < 10 then Fail(HttpError(400, "Title must be at least 10 characters"))
    else if |description.value| < 20 then Fail(HttpError(400, "Description must be at least 20 characters"))
    else Pass
  }

  /** `x || null` on a number from the request body: `0` is falsy and
      becomes NULL like a missing value. */
  function OrNull(x: Option<int>): (r: Option<int>)
    ensures r.Some? <==> x.Some? && x.value != 0
    ensures r.Some? ==> r == x
  {
    if x.Some? && x.value != 0 then x else None
  }

  /** `createJob`: a client's job with a title of at least 10 and a
      description of at least 20 characters is stored open, with zero
      budgets and durations stored as NULL; any refused request stores
      nothing. */
  method CreateJob(jobs: Jobs.JobTable, accounts: map<nat, Users.User>, callerId: int, role: Role,
                   title: Option<string>, description: Option<string>, durationMinutes: Option<int>,
                   budgetMin: Option<int>, budgetMax: Option<int>, now: Time)
    returns (r: Result<Option<Jobs.Job>>)
    requires jobs.Valid()
    modifies jobs
    ensures jobs.Valid()
    ensures r.Err? <==> CreateJobGuard(role, title, description).Fail?
    ensures r.Err? ==> r.error == CreateJobGuard(role, title, description).error && jobs.rows == old(jobs.rows)
    ensures r.Ok? ==>
      var j := Jobs.Job(old(jobs.nextId), callerId, title.value, description.value, OrNull(durationMinutes),
                        OrNull(budgetMin), OrNull(budgetMax), "open", now);
      jobs.rows == old(jobs.rows)[j.id := j]
      && r.value == (if Users.Present(accounts, callerId) then Some(j) else None)
  {
    var guard := CreateJobGuard(role, title, description);
    if guard.Fail? {
      return Err(guard.error);
    }
    r := jobs.Create(accounts, callerId, title, description, OrNull(durationMinutes), OrNull(budgetMin),
                     OrNull(budgetMax), now);
  }

  /** `getJobById`. */
  function GetJobById(jobs: Jobs.JobTable, accounts: map<nat, Users.User>, id: int): (r: Result<Jobs.Job>)
    reads jobs
    ensures r.Ok? <==> id >= 0 && id in jobs.rows && Jobs.Listed(accounts, jobs.rows[id])
    ensures r.Ok? ==> r.value == jobs.rows[id]
    ensures r.Err? ==> r.error == HttpError(404, "Job not found")
  {
    match jobs.FindById(accounts, id)
    case None => Err(HttpError(404, "Job not found"))
    case Some(job) => Ok(job)
  }

  /** The query string of `searchJobs`, every parameter as sent. */
  datatype SearchQuery = SearchQuery(q: Option<string>, status: Option<string>, budgetMin: Option<string>,
                                     budgetMax: Option<string>, durationMin: Option<string>,
                                     durationMax: Option<string>, sortBy: Option<string>,
                                     sortOrder: Option<string>, page: Option<string>, limit: Option<string>)

  /** `x ? parseInt(x) : null`. */
  function NumParam(s: Option<string>): (r: Jobs.NumFilter)
    ensures r.NoFilter? <==> !Truthy(s)
    ensures r.Against? ==> r.bound == Text.ParseInt(s.value)
  {
    if Truthy(s) then Jobs.Against(Text.ParseInt(s.value)) else Jobs.NoFilter
  }

  function SearchCriteria(query: SearchQuery): Jobs.Criteria {
    Jobs.Criteria(query.q, query.status, NumParam(query.budgetMin), NumParam(query.budgetMax),
                  NumParam(query.durationMin), NumParam(query.durationMax))
  }

  /** The answer of `searchJobs`, without the filter statistics. */
  datatype JobsPage = JobsPage(page: int, limit: int, total: nat, totalPages: JsNumber, count: nat,
                               jobs: seq<Jobs.Job>)

  /** `searchJobs`: `page` and `limit` default to 1 and 20, `sortBy` to
      `created_at` and `sortOrder` to `DESC`; the jobs are the window of
      page `page`.  A `page` or `limit` that
      does not parse reaches SQLite as NULL, which refuses it, and the
      handler answers 500. */
  function SearchJobs(jobs: Jobs.JobTable, accounts: map<nat, Users.User>, proposals: map<nat, Proposals.Proposal>,
                      query: SearchQuery, like: (string, string) -> bool): (r: Result<JobsPage>)
    reads jobs
    ensures r.Ok? <==> Text.IntParam(query.page, 1).Some? && Text.IntParam(query.limit, 20).Some?
    ensures r.Err? ==> r.error == InternalError
    ensures r.Ok? ==>
      var c := SearchCriteria(query);
      var sortBy := query.sortBy.GetOr("created_at");
      var sortOrder := query.sortOrder.GetOr("DESC");
      r.value.page == Text.IntParam(query.page, 1).value && r.value.limit == Text.IntParam(query.limit, 20).value
      && r.value.total == jobs.SearchCount(c, like)
      && r.value.totalPages == TotalPages(r.value.total, Some(r.value.limit))
      && r.value.count == |r.value.jobs|
      && (forall j :: j in r.value.jobs ==> j in jobs.rows.Values && Jobs.Listed(accounts, j) && Jobs.Matches(j, c, like))
      && IsWindow(r.value.jobs, Queries.Rows(jobs.rows, jobs.nextId), Jobs.JobTable.SearchFilter(accounts, c, like),
                  Jobs.SortKey(sortBy, sortOrder, proposals), r.value.limit, (r.value.page - 1) * r.value.limit)
      && (r.value.limit >= 0 ==> r.value.count <= r.value.limit)
  {
    var p := Text.IntParam(query.page, 1);
    var l := Text.IntParam(query.limit, 20);
    var offset := Offset(p, l);
    if offset.None? then Err(InternalError)
    else
      var c := SearchCriteria(query);
      var found := jobs.Search(accounts, proposals, c, like, query.sortBy.GetOr("created_at"),
                               query.sortOrder.GetOr("DESC"), l.value, offset.value);
      var total := jobs.SearchCount(c, like);
      Ok(JobsPage(p.value, l.value, total, TotalPages(total, l), |found|, found))
  }

  /** When every job's client has an account, `total` is the number of
      jobs the search can page through, and every page numbered from 1 to
      `totalPages` holds at least one job. */
  lemma SearchPagesCover(jobs: Jobs.JobTable, accounts: map<nat, Users.User>, proposals: map<nat, Proposals.Proposal>,
                         query: SearchQuery, like: (string, string) -> bool)
    requires forall id :: id in jobs.rows ==> Jobs.Listed(accounts, jobs.rows[id])
    ensures var r := SearchJobs(jobs, accounts, proposals, query, like);
      r.Ok? ==> r.value.total == Count(Queries.Rows(jobs.rows, jobs.nextId),
                                       Jobs.JobTable.SearchFilter(accounts, SearchCriteria(query), like))
    ensures var r := SearchJobs(jobs, accounts, proposals, query, like);
      r.Ok? && r.value.limit > 0 && r.value.totalPages.Finite? && 1 <= r.value.page <= r.value.totalPages.value ==>
      r.value.count > 0
  {
    var r := SearchJobs(jobs, accounts, proposals, query, like);
    if r.Ok? {
      var sortBy := query.sortBy.GetOr("created_at");
      var sortOrder := query.sortOrder.GetOr("DESC");
      Jobs.SearchCountExact(jobs, accounts, proposals, SearchCriteria(query), like, sortBy, sortOrder);
      if r.value.limit > 0 {
        TotalPagesCovers(r.value.total, r.value.limit, r.value.page);
      }
    }
  }
}
