/** The project lifecycle of `models/Project.js`: the status transition
    table with its two queries, and the `projects` table with the row
    mutators.

    The mutators do not consult the transition table: each one writes its
    status whatever the current one is.  They are modelled that way, and
    `ProjectTable.Transition` is a separate, guarded entry point about which
    the lifecycle invariant is proved. */
module Projects {
  import opened Common
  import opened Schema
  import Queries

  // ------------------------------------------------------ transition table

  /** The row of `STATUS_TRANSITIONS` for a status. */
  function Row(s: ProjectStatus): seq<ProjectStatus> {
    match s
    case InProgress => [UnderReview, OnHold, Cancelled]
    case UnderReview => [RevisionRequested, Completed, Cancelled]
    case RevisionRequested => [UnderReview, OnHold, Cancelled]
    case OnHold => [InProgress, Cancelled]
    case Completed => []
    case Cancelled => []
  }

  predicate Terminal(s: ProjectStatus) {
    s == Completed || s == Cancelled
  }

  function Names(ss: seq<ProjectStatus>): (r: seq<string>)
    ensures |r| == |ss|
    ensures forall i :: 0 <= i < |ss| ==> r[i] == ProjectStatusName(ss[i])
  {
    if ss == [] then [] else [ProjectStatusName(ss[0])] + Names(ss[1..])
  }

  /** `canTransition(current, next)`: an unrecognised current status has no
      row and allows nothing. */
  function CanTransition(current: string, next: string): (r: bool)
    ensures r <==> exists a, b :: ProjectStatusName(a) == current && ProjectStatusName(b) == next && b in Row(a)
  {
    match ParseProjectStatus(current)
    case None => false
    case Some(a) => next in Names(Row(a))
  }

  /** `getAllowedTransitions(current)`: the row, or `[]` when there is none. */
  function GetAllowedTransitions(current: string): (r: seq<string>)
    ensures forall next :: next in r <==> CanTransition(current, next)
    ensures ParseProjectStatus(current).None? ==> r == []
  {
    match ParseProjectStatus(current)
    case None => []
    case Some(a) => Names(Row(a))
  }

  /** The shape of the table: exactly the terminal statuses have empty rows,
      no status lists itself, every other row offers cancellation, and only
      a project under review can be completed. */
  lemma TableShape(s: ProjectStatus)
    ensures Row(s) == [] <==> Terminal(s)
    ensures s !in Row(s)
    ensures !Terminal(s) ==> Cancelled in Row(s)
    ensures Completed in Row(s) <==> s == UnderReview
    ensures GetAllowedTransitions(ProjectStatusName(s)) == Names(Row(s))
  {
  }

  /** A chain of approved steps. */
  predicate IsPath(p: seq<ProjectStatus>) {
    forall i :: 0 <= i < |p| - 1 ==> p[i + 1] in Row(p[i])
  }

  /** No chain of approved steps leaves a terminal status. */
  lemma TerminalIsFinal(p: seq<ProjectStatus>)
    ensures |p| >= 1 && IsPath(p) && Terminal(p[0]) ==> |p| == 1
  {
    if |p| > 1 && IsPath(p) {
      assert p[1] in Row(p[0]);
    }
  }

  /** Every approved chain that ends in completed passes through review
      right before it. */
  lemma CompletionFollowsReview(p: seq<ProjectStatus>)
    requires |p| >= 2 && IsPath(p) && p[|p| - 1] == Completed
    ensures p[|p| - 2] == UnderReview
  {
    assert p[|p| - 1] in Row(p[|p| - 2]);
  }

  /** Every non-terminal status can still reach completed. */
  lemma CompletionReachable(s: ProjectStatus)
    requires !Terminal(s)
    ensures exists p :: |p| >= 2 && p[0] == s && p[|p| - 1] == Completed && IsPath(p)
  {
    var p := match s
      case InProgress => [InProgress, UnderReview, Completed]
      case UnderReview => [UnderReview, Completed]
      case RevisionRequested => [RevisionRequested, UnderReview, Completed]
      case OnHold => [OnHold, InProgress, UnderReview, Completed]
      case _ => [];
    assert IsPath(p);
  }

  // ------------------------------------------------------------------ rows

  datatype Project = Project(
    id: nat,
    jobId: int,
    clientId: int,
    editorId: int,
    status: ProjectStatus,
    escrowAmount: int,
    revisionCount: int,
    revisionNotes: Option<string>,
    holdReason: Option<string>,
    cancellationReason: Option<string>,
    completedAt: Option<Time>,
    cancelledAt: Option<Time>,
    createdAt: Time,
    updatedAt: Time)

  /** The six mutators, named by what they do to a row. */
  datatype Action =
    | SubmitForReview
    | RequestRevision(notes: Option<string>)
    | PutOnHold(reason: Option<string>)
    | Resume
    | Complete
    | Cancel(reason: Option<string>)

  function Target(a: Action): ProjectStatus {
    match a
    case SubmitForReview => UnderReview
    case RequestRevision(_) => RevisionRequested
    case PutOnHold(_) => OnHold
    case Resume => InProgress
    case Complete => Completed
    case Cancel(_) => Cancelled
  }

  /** The `UPDATE` each mutator issues, applied to one row as written: the
      current status is not consulted. */
  function Effect(p: Project, a: Action, now: Time): (r: Project)
    ensures r.status == Target(a) && r.updatedAt == now
    ensures r.id == p.id && r.jobId == p.jobId && r.clientId == p.clientId
      && r.editorId == p.editorId && r.escrowAmount == p.escrowAmount && r.createdAt == p.createdAt
    ensures r.revisionCount == if a.RequestRevision? then p.revisionCount + 1 else p.revisionCount
    ensures r.revisionNotes == if a.RequestRevision? then a.notes else p.revisionNotes
    ensures r.holdReason == if a.PutOnHold? then a.reason else p.holdReason
    ensures r.cancellationReason == if a.Cancel? then a.reason else p.cancellationReason
    ensures r.completedAt == if a.Complete? then Some(now) else p.completedAt
    ensures r.cancelledAt == if a.Cancel? then Some(now) else p.cancelledAt
  {
    match a
    case SubmitForReview => p.(status := UnderReview, updatedAt := now)
    case Resume => p.(status := InProgress, updatedAt := now)
    case RequestRevision(notes) =>
      p.(status := RevisionRequested, revisionNotes := notes,
         revisionCount := p.revisionCount + 1, updatedAt := now)
    case PutOnHold(reason) => p.(status := OnHold, holdReason := reason, updatedAt := now)
    case Complete => p.(status := Completed, completedAt := Some(now), updatedAt := now)
    case Cancel(reason) =>
      p.(status := Cancelled, cancellationReason := reason, cancelledAt := Some(now), updatedAt := now)
  }

  /** The lifecycle invariant: a project carries a completion stamp exactly
      when it is completed and a cancellation stamp exactly when it is
      cancelled. */
  predicate Stamped(p: Project) {
    (p.completedAt.Some? <==> p.status == Completed)
    && (p.cancelledAt.Some? <==> p.status == Cancelled)
  }

  /** Every step the transition table approves keeps the invariant. */
  lemma ApprovedStepKeepsStamps(p: Project, a: Action, now: Time)
    requires Stamped(p)
    requires CanTransition(ProjectStatusName(p.status), ProjectStatusName(Target(a)))
    ensures Stamped(Effect(p, a, now))
  {
    assert Target(a) in Row(p.status);
  }

  /** The unguarded mutators break it: completing and then cancelling a
      project leaves it cancelled with a completion stamp. */
  lemma UnguardedStepsBreakStamps()
    ensures var p := Project(1, 1, 1, 2, InProgress, 0, 0, None, None, None, None, None, 0, 0);
      Stamped(p) && !Stamped(Effect(Effect(p, Complete, 1), Cancel(None), 2))
  {
  }

  /** The fresh row an insert creates: the column defaults give status
      in_progress and revision_count 0; escrow is the amount given, or 0. */
  function NewProject(id: nat, jobId: int, clientId: int, editorId: int, escrowAmount: Option<int>, now: Time): (r: Project)
    ensures r.status == InProgress && r.revisionCount == 0 && Stamped(r)
    ensures r.escrowAmount == (if escrowAmount.Some? then escrowAmount.value else 0)
    ensures r.revisionNotes.None? && r.holdReason.None? && r.cancellationReason.None?
  {
    Project(id, jobId, clientId, editorId, InProgress, escrowAmount.GetOr(0), 0,
            None, None, None, None, None, now, now)
  }

  /** `WHERE client_id = ? OR editor_id = ?`. */
  function PartyOf(userId: int): Project -> bool {
    (p: Project) => p.clientId == userId || p.editorId == userId
  }

  /** `ORDER BY created_at DESC`. */
  function NewestFirst(p: Project): seq<Queries.Term> {
    [Queries.Desc(Queries.Int(p.createdAt))]
  }

  // ----------------------------------------------------------------- table

  /** The `projects` table. */
  class ProjectTable {
    var rows: map<nat, Project>
    var nextId: nat

    ghost predicate Valid()
      reads this
    {
      nextId >= 1 && forall id :: id in rows ==> rows[id].id == id && 1 <= id < nextId
    }

    constructor ()
      ensures Valid() && rows == map[]
    {
      rows := map[];
      nextId := 1;
    }

    /** `Project.findById` (the joined display columns are not modelled). */
    function FindById(id: int): (r: Option<Project>)
      reads this
      ensures r.Some? <==> id >= 0 && id in rows
      ensures r.Some? ==> r.value == rows[id]
    {
      if id >= 0 && id in rows then Some(rows[id]) else None
    }

    /** `Project.findByUser`: the projects the user is a party to, newest first. */
    function FindByUser(userId: int): (r: seq<Project>)
      requires Valid()
      reads this
      ensures forall p :: p in r <==> p in rows.Values && (p.clientId == userId || p.editorId == userId)
      ensures Queries.Listing(r, Queries.Rows(rows, nextId), PartyOf(userId), NewestFirst)
    {
      Queries.SelectRows(rows, nextId, PartyOf(userId), NewestFirst)
    }

    /** `Project.create`. */
    method Create(jobId: int, clientId: int, editorId: int, escrowAmount: Option<int>, now: Time)
      returns (p: Project)
      requires Valid()
      modifies this
      ensures Valid()
      ensures p == NewProject(old(nextId), jobId, clientId, editorId, escrowAmount, now)
      ensures rows == old(rows)[p.id := p] && p.id !in old(rows)
      ensures nextId == old(nextId) + 1
    {
      p := NewProject(nextId, jobId, clientId, editorId, escrowAmount, now);
      rows := rows[nextId := p];
      nextId := nextId + 1;
    }

    /** Applies one mutator's `UPDATE ... WHERE id = ?`; an unknown id
        updates nothing. */
    method Apply(id: int, a: Action, now: Time) returns (r: Option<Project>)
      requires Valid()
      modifies this
      ensures Valid() && nextId == old(nextId)
      ensures id >= 0 && id in old(rows) ==> rows == old(rows)[id := Effect(old(rows)[id], a, now)]
      ensures !(id >= 0 && id in old(rows)) ==> rows == old(rows)
      ensures r == FindById(id)
    {
      if id >= 0 && id in rows {
        rows := rows[id := Effect(rows[id], a, now)];
      }
      r := FindById(id);
    }

    /** `Project.updateStatus`: a value outside the six statuses throws
        and writes nothing; otherwise only status and updated_at change. */
    method UpdateStatus(id: int, status: string, now: Time) returns (r: Result<Option<Project>>)
      requires Valid()
      modifies this
      ensures Valid() && nextId == old(nextId)
      ensures ParseProjectStatus(status).None? ==> r.Err? && rows == old(rows)
      ensures ParseProjectStatus(status).Some? ==> r.Ok? && r.value == FindById(id)
      ensures ParseProjectStatus(status).Some? ==>
        rows == if id >= 0 && id in old(rows)
                then old(rows)[id := old(rows)[id].(status := ParseProjectStatus(status).value, updatedAt := now)]
                else old(rows)
    {
      match ParseProjectStatus(status)
      case None =>
        return Err(Failure("Invalid status: " + status));
      case Some(s) =>
        if id >= 0 && id in rows {
          rows := rows[id := rows[id].(status := s, updatedAt := now)];
        }
        return Ok(FindById(id));
    }

    /** `Project.complete`. */
    method Complete(id: int, now: Time) returns (r: Option<Project>)
      requires Valid()
      modifies this
      ensures Valid() && nextId == old(nextId)
      ensures rows == if id >= 0 && id in old(rows) then old(rows)[id := Effect(old(rows)[id], Action.Complete, now)] else old(rows)
      ensures r == FindById(id)
    {
      r := Apply(id, Action.Complete, now);
    }

    /** `Project.cancel`; the reason defaults to null. */
    method Cancel(id: int, reason: Option<string>, now: Time) returns (r: Option<Project>)
      requires Valid()
      modifies this
      ensures Valid() && nextId == old(nextId)
      ensures rows == if id >= 0 && id in old(rows) then old(rows)[id := Effect(old(rows)[id], Action.Cancel(reason), now)] else old(rows)
      ensures r == FindById(id)
    {
      r := Apply(id, Action.Cancel(reason), now);
    }

    /** `Project.submitForReview`: `updateStatus(id, 'under_review')`. */
    method SubmitForReview(id: int, now: Time) returns (r: Result<Option<Project>>)
      requires Valid()
      modifies this
      ensures Valid() && nextId == old(nextId)
      ensures rows == if id >= 0 && id in old(rows) then old(rows)[id := Effect(old(rows)[id], Action.SubmitForReview, now)] else old(rows)
      ensures r == Ok(FindById(id))
    {
      r := UpdateStatus(id, "under_review", now);
    }

    /** `Project.requestRevision`: the notes are overwritten and the
        revision count goes up by one. */
    method RequestRevision(id: int, notes: Option<string>, now: Time) returns (r: Option<Project>)
      requires Valid()
      modifies this
      ensures Valid() && nextId == old(nextId)
      ensures rows == if id >= 0 && id in old(rows) then old(rows)[id := Effect(old(rows)[id], Action.RequestRevision(notes), now)] else old(rows)
      ensures r == FindById(id)
    {
      r := Apply(id, Action.RequestRevision(notes), now);
    }

    /** `Project.putOnHold`. */
    method PutOnHold(id: int, reason: Option<string>, now: Time) returns (r: Option<Project>)
      requires Valid()
      modifies this
      ensures Valid() && nextId == old(nextId)
      ensures rows == if id >= 0 && id in old(rows) then old(rows)[id := Effect(old(rows)[id], Action.PutOnHold(reason), now)] else old(rows)
      ensures r == FindById(id)
    {
      r := Apply(id, Action.PutOnHold(reason), now);
    }

    /** `Project.resume`: `updateStatus(id, 'in_progress')`; the hold
        reason is kept. */
    method Resume(id: int, now: Time) returns (r: Result<Option<Project>>)
      requires Valid()
      modifies this
      ensures Valid() && nextId == old(nextId)
      ensures rows == if id >= 0 && id in old(rows) then old(rows)[id := Effect(old(rows)[id], Action.Resume, now)] else old(rows)
      ensures r == Ok(FindById(id))
    {
      r := UpdateStatus(id, "in_progress", now);
    }

    predicate AllStamped()
      reads this
    {
      forall id :: id in rows ==> Stamped(rows[id])
    }

    /** A mutator behind a `canTransition` guard: an unknown project is
        NotFound, a step the table does not list is refused, and every
        accepted step keeps the lifecycle invariant of every row. */
    method Transition(id: int, a: Action, now: Time) returns (r: Result<Project>)
      requires Valid() && AllStamped()
      modifies this
      ensures Valid() && AllStamped() && nextId == old(nextId)
      ensures r.Ok? <==> (id >= 0 && id in old(rows)
        && CanTransition(ProjectStatusName(old(rows)[id].status), ProjectStatusName(Target(a))))
      ensures r.Ok? ==> rows == old(rows)[id := Effect(old(rows)[id], a, now)] && r.value == rows[id]
      ensures r.Err? ==> rows == old(rows)
    {
      if !(id >= 0 && id in rows) {
        return Err(NotFoundError("Project not found"));
      }
      var p := rows[id];
      if !CanTransition(ProjectStatusName(p.status), ProjectStatusName(Target(a))) {
        return Err(ValidationError("Cannot change status from " + ProjectStatusName(p.status)
                                   + " to " + ProjectStatusName(Target(a))));
      }
      ApprovedStepKeepsStamps(p, a, now);
      var q := Effect(p, a, now);
      rows := rows[id := q];
      return Ok(q);
    }
  }
}
