/** The two read-only reports of `models/Project.js` that aggregate other
    tables: `getProgress` over a project's milestones and `getStats` over its
    milestones, files and activities. */
module ProjectStats {
  import opened Common
  import opened Schema
  import opened Queries
  import Projects
  import Milestones
  import ProjectFiles
  import Activities

  datatype ProgressReport = ProgressReport(total: nat, completed: nat, percentage: int)

  /** `Project.getProgress`: zeros for a project without milestones, else
      the completed count and its rounded percentage. */
  function GetProgress(milestones: Milestones.MilestoneTable, id: int): (r: ProgressReport)
    requires milestones.Valid()
    reads milestones
    ensures r.total == |milestones.FindByProjectId(id)|
    ensures r.completed <= r.total && 0 <= r.percentage <= 100
    ensures r.total == 0 ==> r == ProgressReport(0, 0, 0)
    ensures r.total > 0 ==>
      (r.completed == Milestones.CountStatus(milestones.FindByProjectId(id), MilestoneCompleted)
       && r.percentage == Percent(r.completed, r.total))
    ensures r.total > 0 && r.completed == r.total ==> r.percentage == 100
  {
    var p := milestones.GetProjectProgress(id);
    if p.total == 0 then ProgressReport(0, 0, 0)
    else
      PercentBounds(p.completed.value, p.total);
      ProgressReport(p.total, p.completed.value, p.percentage)
  }

  datatype Stats = Stats(
    project: Projects.Project,
    milestoneTotal: nat,
    milestoneCompleted: Option<nat>,
    totalFiles: nat,
    drafts: Option<nat>,
    finals: Option<nat>,
    activityCount: nat)

  /** `Project.getStats`: nothing for an unknown project; otherwise the
      milestone, file and activity counts.  The two `SUM`s over files are
      NULL when the project has no files, and otherwise add up to the file
      count. */
  function GetStats(projects: Projects.ProjectTable, milestones: Milestones.MilestoneTable,
                    files: ProjectFiles.FileTable, log: Activities.ActivityLog, id: int): (r: Option<Stats>)
    requires milestones.Valid() && files.Valid()
    reads projects, milestones, files, log
    ensures r.Some? <==> projects.FindById(id).Some?
    ensures r.Some? ==>
      (r.value.project == projects.rows[id]
       && r.value.milestoneTotal == |milestones.FindByProjectId(id)|
       && r.value.totalFiles == |files.FindByProject(id)|
       && r.value.activityCount == log.GetActivityCount(id)
       && r.value.milestoneCompleted
            == (if r.value.milestoneTotal == 0 then None
                else Some(Milestones.CountStatus(milestones.FindByProjectId(id), MilestoneCompleted)))
       && (r.value.totalFiles == 0 <==> r.value.drafts.None?)
       && (r.value.totalFiles == 0 <==> r.value.finals.None?)
       && (r.value.drafts.Some? ==>
             r.value.drafts.value == ProjectFiles.CountFileType(files.FindByProject(id), Draft)
             && r.value.finals.value == ProjectFiles.CountFileType(files.FindByProject(id), Final))
       && (r.value.drafts.Some? ==> r.value.finals.Some? && r.value.drafts.value + r.value.finals.value == r.value.totalFiles))
  {
    var project :- projects.FindById(id);
    var progress := milestones.GetProjectProgress(id);
    var fs := files.FindByProject(id);
    ProjectFiles.DraftsAndFinals(fs);
    Some(Stats(project, progress.total, progress.completed, |fs|,
               if fs == [] then None else Some(ProjectFiles.CountFileType(fs, Draft)),
               if fs == [] then None else Some(ProjectFiles.CountFileType(fs, Final)),
               log.GetActivityCount(id)))
  }
}
