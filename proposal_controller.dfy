/** The handlers of `controllers/proposalController.js`: editors apply to
    jobs, the job's client lists the applications and accepts one, which
    opens a project.  The handlers answer with `res.status(...).json`, so
    their refusals are `HttpError`s. */
module ProposalController {
  import opened Common
  import opened Schema
  import Users
  import Jobs
  import Proposals
  import Projects
  import Queries

  /** The checks of `applyToJob`, in order. */
  function ApplyGuard(jobs: Jobs.JobTable, proposals: Proposals.ProposalTable, accounts: map<nat, Users.User>,
                      callerId: int, role: Role, jobId: int): (r: Outcome)
    requires proposals.Valid()
    reads jobs, proposals
    ensures role != Editor ==> r == Fail(HttpError(403, "Only editors can apply"))
    ensures role == Editor && jobs.FindById(accounts, jobId).None? ==> r == Fail(HttpError(404, "Job not found"))
    ensures r.Pass? <==>
      (role == Editor && jobs.FindById(accounts, jobId).Some? && proposals.HasAcceptedForJob(jobId).None?
       && proposals.FindByJobAndEditor(jobId, callerId).None?)
    ensures r.Fail? ==> r.error.HttpError? && r.error.status in {400, 403, 404}
  {
    if role != Editor then Fail(HttpError(403, "Only editors can apply"))
    else if jobs.FindById(accounts, jobId).None? then Fail(HttpError(404, "Job not found"))
    else if proposals.HasAcceptedForJob(jobId).Some? then Fail(HttpError(400, "Job already assigned"))
    else if proposals.FindByJobAndEditor(jobId, callerId).Some? then Fail(HttpError(400, "Already applied"))
    else Pass
  }

  /** `applyToJob`: an editor's first application to a listed job that is
      not yet assigned creates exactly one pending proposal; anything else
      changes nothing.  Applications made this way never give an editor
      two proposals on one job. */
  method ApplyToJob(jobs: Jobs.JobTable, proposals: Proposals.ProposalTable, accounts: map<nat, Users.User>,
                    callerId: int, role: Role, jobId: int, price: Option<int>, message: Option<string>, now: Time)
    returns (r: Result<Proposals.Proposal>)
    requires proposals.Valid()
    modifies proposals
    ensures proposals.Valid()
    ensures r.Err? <==> old(ApplyGuard(jobs, proposals, accounts, callerId, role, jobId)).Fail?
    ensures r.Err? ==>
      r.error == old(ApplyGuard(jobs, proposals, accounts, callerId, role, jobId)).error
      && proposals.rows == old(proposals.rows)
    ensures r.Ok? ==>
      (r.value == Proposals.Proposal(old(proposals.nextId), jobId, callerId, price, None, message,
                                     ProposalPending, now)
       && proposals.rows == old(proposals.rows)[r.value.id := r.value])
    ensures old(Proposals.OnePerEditor(proposals.rows)) ==> Proposals.OnePerEditor(proposals.rows)
  {
    var guard := ApplyGuard(jobs, proposals, accounts, callerId, role, jobId);
    if guard.Fail? {
      return Err(guard.error);
    }
    var proposal := proposals.Create(jobId, callerId, price, message, now);
    if old(Proposals.OnePerEditor(proposals.rows)) {
      Proposals.AddKeepsOnePerEditor(old(proposals.rows), proposal);
    }
    r := Ok(proposal);
  }

  /** `getJobProposals`: only the client who posted the job sees its
      proposals. */
  function GetJobProposals(jobs: Jobs.JobTable, proposals: Proposals.ProposalTable, accounts: map<nat, Users.User>,
                           callerId: int, jobId: int): (r: Result<seq<Proposals.Proposal>>)
    requires proposals.Valid()
    reads jobs, proposals
    ensures jobs.FindById(accounts, jobId).None? ==> r == Err(HttpError(404, "Job not found"))
    ensures r.Ok? <==> jobs.FindById(accounts, jobId).Some? && jobs.rows[jobId].clientId == callerId
    ensures r.Err? && jobs.FindById(accounts, jobId).Some? ==> r.error == HttpError(403, "Not your job")
    ensures r.Ok? ==> forall p :: p in r.value <==>
      p in proposals.rows.Values && p.jobId == jobId && Users.Present(accounts, p.editorId)
    ensures r.Ok? ==> Queries.Listing(r.value, Queries.Rows(proposals.rows, proposals.nextId),
                                      Proposals.OfJob(accounts, jobId), Proposals.NewestFirst)
  {
    match jobs.FindById(accounts, jobId)
    case None => Err(HttpError(404, "Job not found"))
    case Some(job) =>
      if job.clientId != callerId then Err(HttpError(403, "Not your job"))
      else Ok(proposals.FindByJob(accounts, jobId))
  }

  /** `getMyProposalForJob`: the caller's own proposal for the job, if any. */
  function GetMyProposalForJob(proposals: Proposals.ProposalTable, callerId: int, jobId: int)
    : (r: Option<Proposals.Proposal>)
    requires proposals.Valid()
    reads proposals
    ensures r.Some? ==> r.value in proposals.rows.Values && r.value.editorId == callerId && r.value.jobId == jobId
    ensures r.None? ==> forall p :: p in proposals.rows.Values ==> !(p.editorId == callerId && p.jobId == jobId)
  {
    proposals.FindByJobAndEditor(jobId, callerId)
  }

  /** What accepting proposal `chosen` of job `jobId` does to one
      proposal: the chosen one is accepted, the job's other pending ones
      are rejected, and every other proposal is kept. */
  function AfterAccept(p: Proposals.Proposal, chosen: int, jobId: int): Proposals.Proposal {
    if p.id == chosen then p.(status := Accepted)
    else if p.jobId == jobId && p.status == ProposalPending then p.(status := Rejected)
    else p
  }

  /** `acceptProposal`: the proposal, then its job, then the caller must
      own the job.  A project is opened between the job's client and the
      proposal's editor with the proposed price in escrow; the proposal is
      accepted (whatever its status was) and the job's other pending
      proposals are rejected. */
  method AcceptProposal(jobs: Jobs.JobTable, proposals: Proposals.ProposalTable, projects: Projects.ProjectTable,
                        accounts: map<nat, Users.User>, callerId: int, proposalId: int, now: Time)
    returns (r: Result<Projects.Project>)
    requires jobs.Valid() && proposals.Valid() && projects.Valid()
    modifies proposals, projects
    ensures proposals.Valid() && projects.Valid()
    ensures old(proposals.FindById(proposalId)).None? ==> r == Err(HttpError(404, "Not found"))
    ensures old(proposals.FindById(proposalId)).Some?
            && jobs.FindById(accounts, old(proposals.rows[proposalId].jobId)).None? ==>
      r == Err(HttpError(404, "Job not found"))
    ensures r.Err? ==> proposals.rows == old(proposals.rows) && projects.rows == old(projects.rows)
    ensures r.Ok? <==>
      (old(proposals.FindById(proposalId)).Some?
       && jobs.FindById(accounts, old(proposals.rows[proposalId].jobId)).Some?
       && jobs.rows[old(proposals.rows[proposalId].jobId)].clientId == callerId)
    ensures r.Ok? ==>
      var p := old(proposals.rows[proposalId]);
      r.value == Projects.NewProject(old(projects.nextId), p.jobId, callerId, p.editorId, p.price, now)
      && projects.rows == old(projects.rows)[r.value.id := r.value]
      && proposals.rows.Keys == old(proposals.rows.Keys)
      && (forall k :: k in proposals.rows ==> proposals.rows[k] == AfterAccept(old(proposals.rows[k]), proposalId, p.jobId))
      && proposals.rows[proposalId].status == Accepted
      && (forall k :: k in proposals.rows && proposals.rows[k].jobId == p.jobId ==>
            proposals.rows[k].status != ProposalPending)
      && (forall k :: k in proposals.rows && proposals.rows[k].jobId != p.jobId ==>
            proposals.rows[k] == old(proposals.rows[k]))
  {
    var proposal := proposals.FindById(proposalId);
    if proposal.None? {
      return Err(HttpError(404, "Not found"));
    }
    var job := jobs.FindById(accounts, proposal.value.jobId);
    if job.None? {
      return Err(HttpError(404, "Job not found"));
    }
    if job.value.clientId != callerId {
      return Err(HttpError(403, "Forbidden"));
    }
    var project := projects.Create(job.value.id, job.value.clientId, proposal.value.editorId, proposal.value.price, now);
    proposals.MarkAccepted(proposalId);
    proposals.RejectOthers(job.value.id);
    return Ok(project);
  }
}
