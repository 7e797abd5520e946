/** The handlers of `controllers/projectController.js`: the older way of
    accepting a proposal, which opens a project without touching any
    proposal, and the project views of its two parties. */
module ProjectController {
  import opened Common
  import opened Schema
  import Users
  import Jobs
  import Proposals
  import Projects

  /** The checks of `acceptProposal`, in order: the proposal, its job, and
      the caller owning that job. */
  function AcceptGuard(jobs: Jobs.JobTable, proposals: Proposals.ProposalTable, accounts: map<nat, Users.User>,
                       callerId: int, proposalId: int): (r: Outcome)
    reads jobs, proposals
    ensures r.Pass? <==>
      proposals.FindById(proposalId).Some?
      && jobs.FindById(accounts, proposals.rows[proposalId].jobId).Some?
      && jobs.rows[proposals.rows[proposalId].jobId].clientId == callerId
    ensures proposals.FindById(proposalId).None? ==> r == Fail(HttpError(404, "Proposal not found"))
    ensures proposals.FindById(proposalId).Some? && jobs.FindById(accounts, proposals.rows[proposalId].jobId).None?
            ==> r == Fail(HttpError(404, "Job not found"))
    ensures r.Fail? ==> r.error.HttpError? && r.error.status in {403, 404}
  {
    match proposals.FindById(proposalId)
    case None => Fail(HttpError(404, "Proposal not found"))
    case Some(proposal) =>
      match jobs.FindById(accounts, proposal.jobId)
      case None => Fail(HttpError(404, "Job not found"))
      case Some(job) =>
        if callerId != job.clientId then Fail(HttpError(403, "Only the job owner can accept proposals"))
        else Pass
  }

  /** `acceptProposal`: opens a project between the job's client and the
      proposal's editor, with the proposed price in escrow.  Proposals are
      not written, so the same proposal can be accepted again and opens
      another project each time. */
  method AcceptProposal(jobs: Jobs.JobTable, proposals: Proposals.ProposalTable, projects: Projects.ProjectTable,
                        accounts: map<nat, Users.User>, callerId: int, proposalId: int, now: Time)
    returns (r: Result<Projects.Project>)
    requires jobs.Valid() && projects.Valid()
    modifies projects
    ensures projects.Valid()
    ensures r.Err? <==> AcceptGuard(jobs, proposals, accounts, callerId, proposalId).Fail?
    ensures r.Err? ==>
      r.error == AcceptGuard(jobs, proposals, accounts, callerId, proposalId).error
      && projects.rows == old(projects.rows)
    ensures r.Ok? ==>
      var p := proposals.rows[proposalId];
      r.value == Projects.NewProject(old(projects.nextId), p.jobId, callerId, p.editorId, p.price, now)
      && projects.rows == old(projects.rows)[r.value.id := r.value]
    ensures AcceptGuard(jobs, proposals, accounts, callerId, proposalId)
            == old(AcceptGuard(jobs, proposals, accounts, callerId, proposalId))
  {
    var guard := AcceptGuard(jobs, proposals, accounts, callerId, proposalId);
    if guard.Fail? {
      return Err(guard.error);
    }
    var proposal := proposals.rows[proposalId];
    var job := jobs.rows[proposal.jobId];
    var project := projects.Create(job.id, job.clientId, proposal.editorId, proposal.price, now);
    return Ok(project);
  }

  /** `getProjectById`: only the project's client or editor may see it. */
  function GetProjectById(projects: Projects.ProjectTable, callerId: int, id: int): (r: Result<Projects.Project>)
    reads projects
    ensures r.Ok? <==>
      id >= 0 && id in projects.rows && (projects.rows[id].clientId == callerId || projects.rows[id].editorId == callerId)
    ensures r.Ok? ==> r.value == projects.rows[id]
    ensures !(id >= 0 && id in projects.rows) ==> r == Err(HttpError(404, "Project not found"))
    ensures r.Err? && id >= 0 && id in projects.rows ==> r.error == HttpError(403, "Unauthorized")
  {
    match projects.FindById(id)
    case None => Err(HttpError(404, "Project not found"))
    case Some(project) =>
      if project.clientId != callerId && project.editorId != callerId then Err(HttpError(403, "Unauthorized"))
      else Ok(project)
  }

  /** A project seen through `getProjectById` is one the caller also finds
      among `getMyProjects`. */
  lemma VisibleProjectIsMine(projects: Projects.ProjectTable, callerId: int, id: int)
    requires projects.Valid()
    ensures GetProjectById(projects, callerId, id).Ok? <==>
      exists p :: p in projects.FindByUser(callerId) && p.id == id
  {
    var mine := projects.FindByUser(callerId);
    if GetProjectById(projects, callerId, id).Ok? {
      assert projects.rows[id] in projects.rows.Values;
      assert projects.rows[id] in mine;
    }
  }
}
