/** The request handlers of `controllers/milestoneController.js`.  Each one
    runs its guards in order, performs at most one milestone mutation and
    then appends to the activity log on a best-effort basis.  Route
    parameters are taken as already-numeric ids; the clock and the date
    arithmetic of SQLite are parameters. */
module MilestoneController {
  import opened Common
  import opened Schema
  import Text
  import Projects
  import Milestones
  import Activities
  import Queries

  /** `checkProjectAccess`: the project must exist and the caller must be
      its client or its editor. */
  function CheckProjectAccess(project: Option<Projects.Project>, userId: int): (r: Outcome)
    ensures project.None? ==> r.Fail? && r.error.NotFoundError?
    ensures project.Some? && project.value.clientId != userId && project.value.editorId != userId ==>
      r.Fail? && r.error.ForbiddenError?
    ensures r.Pass? <==> project.Some? && (project.value.clientId == userId || project.value.editorId == userId)
  {
    if project.None? then Fail(NotFoundError("Project not found"))
    else if project.value.clientId != userId && project.value.editorId != userId then
      Fail(ForbiddenError("You don't have access to this project"))
    else Pass
  }

  /** The progress object as it is stored in activity metadata. */
  function ProgressJson(p: Milestones.Progress): Activities.Json {
    Activities.JObject([
      ("total", Activities.JInt(p.total)),
      ("completed", OptJson(p.completed)),
      ("in_progress", OptJson(p.inProgress)),
      ("pending", OptJson(p.pending)),
      ("progress_percentage", Activities.JInt(p.percentage))])
  }

  function OptJson(n: Option<nat>): Activities.Json {
    if n.Some? then Activities.JInt(n.value) else Activities.JNull
  }

  /** `logMilestoneActivity`: an insert whose failure is caught and
      dropped.  Either exactly the described activity is appended, or, when
      the insert is refused, the log is as it was. */
  method LogMilestoneActivity(log: Activities.ActivityLog, projectId: int, userId: int, activityType: string,
                              description: string, metadata: Activities.Json, now: Time)
    requires log.Valid()
    modifies log
    ensures log.Valid()
    ensures ParseActivityType(activityType).None? ==> log.rows == old(log.rows)
    ensures ParseActivityType(activityType).Some? ==>
      log.rows == old(log.rows) + [Activities.Activity(old(log.nextId), projectId, userId,
                                                       ParseActivityType(activityType).value, description, metadata, now)]
  {
    var _ := log.Create(projectId, userId, activityType, Some(description), Some(metadata), now);
  }

  /** `getProjectMilestones`: the guard, then the ordered milestones and
      the progress counts of the project. */
  function GetProjectMilestones(projects: Projects.ProjectTable, milestones: Milestones.MilestoneTable,
                                userId: int, projectId: int): (r: Result<(seq<Milestones.Milestone>, Milestones.Progress)>)
    requires milestones.Valid()
    reads projects, milestones
    ensures r.Err? <==> CheckProjectAccess(projects.FindById(projectId), userId).Fail?
    ensures r.Ok? ==>
      (r.value.1 == Milestones.ProgressOf(r.value.0)
       && (forall m :: m in r.value.0 <==> m in milestones.rows.Values && m.projectId == projectId)
       && Queries.Listing(r.value.0, Queries.Rows(milestones.rows, milestones.nextId),
                          Milestones.OfProject(projectId), Milestones.ByDisplayOrder))
  {
    var access := CheckProjectAccess(projects.FindById(projectId), userId);
    if access.Fail? then Err(access.error)
    else Ok((milestones.FindByProjectId(projectId), milestones.GetProjectProgress(projectId)))
  }

  /** `createMilestone`: access, then a truthy title; only then one
      milestone and one milestone_added activity are written. */
  method CreateMilestone(projects: Projects.ProjectTable, milestones: Milestones.MilestoneTable,
                         log: Activities.ActivityLog, userId: int, projectId: int, title: Option<string>,
                         description: Option<string>, dueDate: Option<string>, order: Option<int>, now: Time)
    returns (r: Result<Milestones.Milestone>)
    requires milestones.Valid() && log.Valid()
    modifies milestones, log
    ensures milestones.Valid() && log.Valid()
    ensures CheckProjectAccess(old(projects.FindById(projectId)), userId).Fail? ==>
      r.Err? && r.error == CheckProjectAccess(old(projects.FindById(projectId)), userId).error
    ensures CheckProjectAccess(old(projects.FindById(projectId)), userId).Pass? && !Truthy(title) ==>
      r == Err(ValidationError("Title is required"))
    ensures r.Ok? <==> CheckProjectAccess(old(projects.FindById(projectId)), userId).Pass? && Truthy(title)
    ensures r.Err? ==> milestones.rows == old(milestones.rows) && log.rows == old(log.rows)
    ensures r.Ok? ==>
      r.value == Milestones.Milestone(old(milestones.nextId), projectId, title.value, description, MilestonePending,
                                      dueDate, Some(order.GetOr(0)), None, now, now)
      && milestones.rows == old(milestones.rows)[r.value.id := r.value]
      && log.rows == old(log.rows) + [Activities.Activity(old(log.nextId), projectId, userId,
           MilestoneAdded, "Milestone added: " + title.value,
           Activities.JObject([("milestoneId", Activities.JInt(r.value.id)), ("title", Activities.JStr(title.value))]), now)]
  {
    var access := CheckProjectAccess(projects.FindById(projectId), userId);
    if access.Fail? {
      return Err(access.error);
    }
    if !Truthy(title) {
      return Err(ValidationError("Title is required"));
    }
    var created := milestones.Create(projectId, title, description, dueDate, order, now);
    var id := created.value;
    var m := milestones.FindById(id);
    ActivityTypeNameParses(MilestoneAdded);
    LogMilestoneActivity(log, projectId, userId, ActivityTypeName(MilestoneAdded), "Milestone added: " + title.value,
                         Activities.JObject([("milestoneId", Activities.JInt(id)), ("title", Activities.JStr(title.value))]),
                         now);
    return Ok(m.value);
  }

  /** `createDefaultMilestones`: access, then a project with no milestones
      yet receives the five-item template; a project that has any is
      refused and nothing is created. */
  method CreateDefaultMilestones(projects: Projects.ProjectTable, milestones: Milestones.MilestoneTable,
                                 userId: int, projectId: int, now: Time)
    returns (r: Result<seq<Milestones.Milestone>>)
    requires milestones.Valid()
    modifies milestones
    ensures milestones.Valid()
    ensures CheckProjectAccess(projects.FindById(projectId), userId).Fail? ==> r.Err?
    ensures (exists m :: m in old(milestones.rows.Values) && m.projectId == projectId) ==> r.Err?
    ensures r.Ok? <==> CheckProjectAccess(projects.FindById(projectId), userId).Pass?
                       && forall m :: m in old(milestones.rows.Values) ==> m.projectId != projectId
    ensures r.Err? ==> milestones.rows == old(milestones.rows)
    ensures r.Ok? ==>
      milestones.rows == old(milestones.rows) + Milestones.TemplateRows(projectId, old(milestones.nextId), now)
      && (forall m :: m in r.value <==> m in Milestones.TemplateRows(projectId, old(milestones.nextId), now).Values)
      && Queries.Listing(r.value, Queries.Rows(milestones.rows, milestones.nextId),
                         Milestones.OfProject(projectId), Milestones.ByDisplayOrder)
  {
    var access := CheckProjectAccess(projects.FindById(projectId), userId);
    if access.Fail? {
      return Err(access.error);
    }
    var existing := milestones.FindByProjectId(projectId);
    if |existing| > 0 {
      assert existing[0] in existing;
      return Err(ValidationError("Project already has milestones"));
    }
    var all := InsertTemplate(milestones, projectId, now);
    return Ok(all);
  }

  /** The template inserted into a project with no milestones, read back
      with `findByProjectId`. */
  method InsertTemplate(milestones: Milestones.MilestoneTable, projectId: int, now: Time)
    returns (all: seq<Milestones.Milestone>)
    requires milestones.Valid()
    requires forall m :: m in milestones.rows.Values ==> m.projectId != projectId
    modifies milestones
    ensures milestones.Valid()
    ensures milestones.rows == old(milestones.rows) + Milestones.TemplateRows(projectId, old(milestones.nextId), now)
    ensures forall m :: m in all <==> m in Milestones.TemplateRows(projectId, old(milestones.nextId), now).Values
    ensures Queries.Listing(all, Queries.Rows(milestones.rows, milestones.nextId),
                            Milestones.OfProject(projectId), Milestones.ByDisplayOrder)
  {
    milestones.CreateDefaultMilestones(projectId, now);
    all := milestones.FindByProjectId(projectId);
    DefaultsAreTheProject(old(milestones.rows), milestones.rows, projectId, old(milestones.nextId), now, all);
  }

  /** After the template is inserted into a project that had no
      milestones, the project's milestones are exactly the inserted ones. */
  lemma DefaultsAreTheProject(before: map<nat, Milestones.Milestone>, after: map<nat, Milestones.Milestone>,
                              projectId: int, first: nat, now: Time, found: seq<Milestones.Milestone>)
    requires forall m :: m in before.Values ==> m.projectId != projectId
    requires forall k :: k in before ==> k < first
    requires after == before + Milestones.DefaultRows(projectId, first, Milestones.Template, 5, now)
    requires forall m :: m in found <==> m in after.Values && m.projectId == projectId
    ensures forall m :: m in found <==> m in Milestones.DefaultRows(projectId, first, Milestones.Template, 5, now).Values
  {
    var d := Milestones.DefaultRows(projectId, first, Milestones.Template, 5, now);
    Milestones.DefaultRowsShape(projectId, first, Milestones.Template, 5, now);
    assert forall k :: k in before ==> before[k].projectId != projectId by {
      forall k | k in before ensures before[k].projectId != projectId {
        assert before[k] in before.Values;
      }
    }
    forall m ensures m in found <==> m in d.Values {
      if m in d.Values {
        var k :| k in d && d[k] == m;
        assert after[k] == m;
      }
    }
  }

  /** `getMilestoneById`: an unknown milestone is reported before access
      to its project is checked. */
  function GetMilestoneById(projects: Projects.ProjectTable, milestones: Milestones.MilestoneTable,
                            userId: int, id: int): (r: Result<Milestones.Milestone>)
    reads projects, milestones
    ensures milestones.FindById(id).None? ==> r.Err? && r.error.NotFoundError?
    ensures r.Ok? <==>
      (milestones.FindById(id).Some?
       && CheckProjectAccess(projects.FindById(milestones.FindById(id).value.projectId), userId).Pass?)
    ensures r.Ok? ==> r.value == milestones.rows[id]
  {
    var m :- Found(milestones.FindById(id));
    :- CheckProjectAccess(projects.FindById(m.projectId), userId);
    Ok(m)
  }

  function Found(m: Option<Milestones.Milestone>): (r: Result<Milestones.Milestone>)
    ensures r.Ok? <==> m.Some?
    ensures r.Ok? ==> r.value == m.value
    ensures r.Err? ==> r.error.NotFoundError?
  {
    if m.None? then Err(NotFoundError("Milestone not found")) else Ok(m.value)
  }

  /** `updateMilestone`: existence, then access, then the COALESCE update;
      an out-of-range status is refused by the table and nothing changes. */
  method UpdateMilestone(projects: Projects.ProjectTable, milestones: Milestones.MilestoneTable,
                         userId: int, id: int, title: Option<string>, description: Option<string>,
                         dueDate: Option<string>, order: Option<int>, status: Option<string>, now: Time)
    returns (r: Result<Milestones.Milestone>)
    requires milestones.Valid()
    modifies milestones
    ensures milestones.Valid()
    ensures old(GetMilestoneById(projects, milestones, userId, id)).Err? ==>
      r == old(GetMilestoneById(projects, milestones, userId, id)) && milestones.rows == old(milestones.rows)
    ensures r.Ok? <==> old(GetMilestoneById(projects, milestones, userId, id)).Ok?
                       && (status.None? || ParseMilestoneStatus(status.value).Some?)
    ensures r.Err? ==> milestones.rows == old(milestones.rows)
    ensures r.Ok? ==>
      r.value == Milestones.Patched(old(milestones.rows)[id], Milestones.Patch(title, description, dueDate, order,
           if status.Some? then ParseMilestoneStatus(status.value) else None), now)
      && milestones.rows == old(milestones.rows)[id := r.value]
  {
    var m :- GetMilestoneById(projects, milestones, userId, id);
    var changes :- milestones.Update(id, title, description, dueDate, order, status, now);
    return Ok(milestones.rows[id]);
  }

  /** `completeMilestone`: existence, then access, then completion; the
      milestone_completed activity carries the progress measured after the
      milestone was completed. */
  method CompleteMilestone(projects: Projects.ProjectTable, milestones: Milestones.MilestoneTable,
                           log: Activities.ActivityLog, userId: int, id: int, now: Time)
    returns (r: Result<(Milestones.Milestone, Milestones.Progress)>)
    requires milestones.Valid() && log.Valid()
    modifies milestones, log
    ensures milestones.Valid() && log.Valid()
    ensures r.Err? <==> old(GetMilestoneById(projects, milestones, userId, id)).Err?
    ensures r.Err? ==> milestones.rows == old(milestones.rows) && log.rows == old(log.rows)
    ensures r.Ok? ==>
      var m := old(milestones.rows)[id];
      r.value.0 == m.(status := MilestoneCompleted, completedAt := Some(now), updatedAt := now)
      && milestones.rows == old(milestones.rows)[id := r.value.0]
      && r.value.1 == milestones.GetProjectProgress(m.projectId)
      && log.rows == old(log.rows) + [Activities.Activity(old(log.nextId), m.projectId, userId,
           MilestoneCompletedActivity, "Milestone completed: " + m.title,
           Activities.JObject([("milestoneId", Activities.JStr(Text.IntToString(id))), ("title", Activities.JStr(m.title)),
                               ("progress", ProgressJson(r.value.1))]), now)]
  {
    var m :- GetMilestoneById(projects, milestones, userId, id);
    var _ := milestones.Complete(id, now);
    var progress := milestones.GetProjectProgress(m.projectId);
    ActivityTypeNameParses(MilestoneCompletedActivity);
    LogMilestoneActivity(log, m.projectId, userId, ActivityTypeName(MilestoneCompletedActivity),
                         "Milestone completed: " + m.title,
                         Activities.JObject([("milestoneId", Activities.JStr(Text.IntToString(id))),
                                             ("title", Activities.JStr(m.title)), ("progress", ProgressJson(progress))]),
                         now);
    return Ok((milestones.rows[id], progress));
  }

  /** `deleteMilestone`: existence, then access, then removal of that
      milestone only. */
  method DeleteMilestone(projects: Projects.ProjectTable, milestones: Milestones.MilestoneTable, userId: int, id: int)
    returns (r: Outcome)
    requires milestones.Valid()
    modifies milestones
    ensures milestones.Valid()
    ensures r.Fail? <==> old(GetMilestoneById(projects, milestones, userId, id)).Err?
    ensures r.Fail? ==> milestones.rows == old(milestones.rows)
    ensures r.Pass? ==> id >= 0 && milestones.rows == old(milestones.rows) - {id as nat}
  {
    var found := GetMilestoneById(projects, milestones, userId, id);
    if found.Err? {
      return Fail(found.error);
    }
    var _ := milestones.Delete(id);
    return Pass;
  }

  /** The upper date of `getUpcomingMilestones`: `days` defaults to 7 and
      is read with `parseInt`; `addDays(n)` stands for SQLite's
      `date('now', '+n days')`, and a `NaN` count gives a NULL bound. */
  function UpcomingHorizon(days: Option<string>, addDays: int -> Option<string>): (r: Option<string>)
    ensures days.None? ==> r == addDays(7)
    ensures days.Some? && Text.ParseInt(days.value).None? ==> r.None?
  {
    if days.None? then addDays(7)
    else
      match Text.ParseInt(days.value)
      case None => None
      case Some(n) => addDays(n)
  }

  /** `getUpcomingMilestones` as a handler: with an unreadable day count
      nothing is due. */
  function GetUpcomingMilestones(projects: Projects.ProjectTable, milestones: Milestones.MilestoneTable,
                                 userId: int, today: string, days: Option<string>,
                                 addDays: int -> Option<string>): (r: seq<Milestones.Milestone>)
    requires milestones.Valid()
    reads projects, milestones
    ensures days.Some? && Text.ParseInt(days.value).None? ==> r == []
    ensures forall m :: m in r ==> m in milestones.rows.Values && m.status != MilestoneCompleted
    ensures Queries.Listing(r, Queries.Rows(milestones.rows, milestones.nextId),
                            Milestones.Upcoming(projects.rows, userId, today, UpcomingHorizon(days, addDays)),
                            Milestones.ByDueDate)
  {
    milestones.GetUpcomingMilestones(projects, userId, today, UpcomingHorizon(days, addDays))
  }

  /** `reorderMilestones`: access, then an array check; the reorder always
      targets the project named in the URL. */
  method ReorderMilestones(projects: Projects.ProjectTable, milestones: Milestones.MilestoneTable,
                           userId: int, projectId: int, orders: Option<seq<Milestones.OrderItem>>)
    returns (r: Result<seq<Milestones.Milestone>>)
    requires milestones.Valid()
    modifies milestones
    ensures milestones.Valid()
    ensures CheckProjectAccess(projects.FindById(projectId), userId).Fail? ==> r.Err?
    ensures CheckProjectAccess(projects.FindById(projectId), userId).Pass? && orders.None? ==>
      r == Err(ValidationError("Orders must be an array"))
    ensures r.Ok? <==> CheckProjectAccess(projects.FindById(projectId), userId).Pass? && orders.Some?
                       && forall i :: 0 <= i < |orders.value| ==> !orders.value[i].Nullish?
    ensures r.Err? ==> milestones.rows == old(milestones.rows)
    ensures r.Ok? ==> milestones.rows == Milestones.Reordered(old(milestones.rows), projectId, orders.value)
                      && Queries.Listing(r.value, Queries.Rows(milestones.rows, milestones.nextId),
                                         Milestones.OfProject(projectId), Milestones.ByDisplayOrder)
    ensures forall k :: k in old(milestones.rows) && old(milestones.rows)[k].projectId != projectId ==>
      k in milestones.rows && milestones.rows[k] == old(milestones.rows)[k]
  {
    var access := CheckProjectAccess(projects.FindById(projectId), userId);
    if access.Fail? {
      return Err(access.error);
    }
    if orders.None? {
      return Err(ValidationError("Orders must be an array"));
    }
    var outcome := milestones.Reorder(projectId, orders.value);
    Milestones.ReorderScope(old(milestones.rows), projectId, orders.value);
    if outcome.Fail? {
      return Err(outcome.error);
    }
    return Ok(milestones.FindByProjectId(projectId));
  }
}
