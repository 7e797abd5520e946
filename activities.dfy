/** The per-project activity log of `models/ProjectActivity.js`: the
    `project_activities` table, appended to by `create` and trimmed only by
    `deleteByProjectId`, with its filter, page and group-count queries. */
module Activities {
  import opened Common
  import opened Schema
  import opened Queries
  import Projects
  import Users

  /** The metadata object, stored as its JSON text. */
  datatype Json = JNull | JInt(i: int) | JStr(s: string) | JObject(fields: seq<(string, Json)>)

  datatype Activity = Activity(
    id: nat,
    projectId: int,
    userId: int,
    activityType: ActivityType,
    description: string,
    metadata: Json,
    createdAt: Time)

  /** `ORDER BY created_at DESC`. */
  function NewestFirst(a: Activity): seq<Term> {
    [Desc(Int(a.createdAt))]
  }

  /** One row of `getProjectSummary`: a type, how often it occurs and
      `MAX(created_at)`. */
  datatype SummaryRow = SummaryRow(activityType: ActivityType, count: nat, lastActivity: Time)

  /** How many of `acts` have type `t`. */
  function CountType(acts: seq<Activity>, t: ActivityType): nat {
    if acts == [] then 0 else (if acts[0].activityType == t then 1 else 0) + CountType(acts[1..], t)
  }

  lemma {:induction false} CountTypePositive(acts: seq<Activity>, t: ActivityType)
    ensures CountType(acts, t) > 0 <==> exists a :: a in acts && a.activityType == t
  {
    if acts != [] {
      CountTypePositive(acts[1..], t);
      assert forall a :: a in acts <==> a == acts[0] || a in acts[1..];
    }
  }

  /** The latest time among the activities of type `t`. */
  function Latest(acts: seq<Activity>, t: ActivityType): (r: Option<Time>)
    ensures r.Some? <==> exists a :: a in acts && a.activityType == t
    ensures r.Some? ==> forall a :: a in acts && a.activityType == t ==> a.createdAt <= r.value
    ensures r.Some? ==> exists a :: a in acts && a.activityType == t && a.createdAt == r.value
  {
    if acts == [] then None
    else
      var rest := Latest(acts[1..], t);
      assert forall a :: a in acts <==> a == acts[0] || a in acts[1..];
      if acts[0].activityType != t then rest
      else if rest.Some? && rest.value >= acts[0].createdAt then rest
      else Some(acts[0].createdAt)
  }

  /** The group rows for the types `ts`, skipping types that do not occur. */
  function Groups(acts: seq<Activity>, ts: seq<ActivityType>): (r: seq<SummaryRow>)
    ensures forall g :: g in r ==> g.activityType in ts && g.count == CountType(acts, g.activityType) > 0
    ensures forall g :: g in r ==> Latest(acts, g.activityType) == Some(g.lastActivity)
    ensures forall a :: a in acts && a.activityType in ts ==> exists g :: g in r && g.activityType == a.activityType
  {
    if ts == [] then []
    else
      var rest := Groups(acts, ts[1..]);
      var last := Latest(acts, ts[0]);
      CountTypePositive(acts, ts[0]);
      if last.None? then rest else [SummaryRow(ts[0], CountType(acts, ts[0]), last.value)] + rest
  }

  function SumCounts(r: seq<SummaryRow>): nat {
    if r == [] then 0 else r[0].count + SumCounts(r[1..])
  }

  function SumOver(acts: seq<Activity>, ts: seq<ActivityType>): nat {
    if ts == [] then 0 else CountType(acts, ts[0]) + SumOver(acts, ts[1..])
  }

  predicate Distinct(ts: seq<ActivityType>) {
    forall i, j :: 0 <= i < j < |ts| ==> ts[i] != ts[j]
  }

  lemma {:induction false} GroupsSumOver(acts: seq<Activity>, ts: seq<ActivityType>)
    ensures SumCounts(Groups(acts, ts)) == SumOver(acts, ts)
  {
    if ts != [] {
      GroupsSumOver(acts, ts[1..]);
      CountTypePositive(acts, ts[0]);
    }
  }

  lemma {:induction false} SumOverCons(a: Activity, rest: seq<Activity>, ts: seq<ActivityType>)
    requires Distinct(ts)
    ensures SumOver([a] + rest, ts) == SumOver(rest, ts) + (if a.activityType in ts then 1 else 0)
  {
    if ts != [] {
      assert ([a] + rest)[1..] == rest;
      assert Distinct(ts[1..]) by {
        forall i, j | 0 <= i < j < |ts[1..]| ensures ts[1..][i] != ts[1..][j] {
          assert ts[1..][i] == ts[i + 1] && ts[1..][j] == ts[j + 1];
        }
      }
      SumOverCons(a, rest, ts[1..]);
      if a.activityType == ts[0] {
        assert a.activityType !in ts[1..] by {
          forall k | 0 <= k < |ts[1..]| ensures ts[1..][k] != ts[0] {
            assert ts[1..][k] == ts[k + 1];
          }
        }
      }
      assert a.activityType in ts <==> a.activityType == ts[0] || a.activityType in ts[1..];
    }
  }

  /** Over a list naming every type once, the per-type counts add up to the
      number of activities. */
  lemma {:induction false} SumOverAllTypes(acts: seq<Activity>)
    ensures SumOver(acts, AllActivityTypes) == |acts|
  {
    ActivityTypesEnumerated();
    if acts == [] {
      SumOverEmpty(AllActivityTypes);
    } else {
      SumOverAllTypes(acts[1..]);
      assert acts == [acts[0]] + acts[1..];
      SumOverCons(acts[0], acts[1..], AllActivityTypes);
    }
  }

  lemma {:induction false} SumOverEmpty(ts: seq<ActivityType>)
    ensures SumOver([], ts) == 0
  {
    if ts != [] {
      SumOverEmpty(ts[1..]);
    }
  }

  /** `JOIN users u ON pa.user_id = u.id WHERE pa.project_id = ?`. */
  function InProject(accounts: map<nat, Users.User>, projectId: int): Activity -> bool {
    (a: Activity) => a.projectId == projectId && Users.Present(accounts, a.userId)
  }

  /** The `findByUserId` join and filter: the activity's author exists and
      its project is one the user is client or editor of. */
  function OnProjectsOf(accounts: map<nat, Users.User>, ps: map<int, Projects.Project>, userId: int): Activity -> bool {
    (a: Activity) => Users.Present(accounts, a.userId) && a.projectId in ps
      && (ps[a.projectId].clientId == userId || ps[a.projectId].editorId == userId)
  }

  /** The `findByType` join and filter, the type compared as stored text. */
  function OfType(accounts: map<nat, Users.User>, projectId: int, activityType: string): Activity -> bool {
    (a: Activity) => a.projectId == projectId && ActivityTypeName(a.activityType) == activityType
      && Users.Present(accounts, a.userId)
  }

  /** `WHERE project_id = ?`, without a join. */
  function ProjectIs(projectId: int): Activity -> bool {
    (a: Activity) => a.projectId == projectId
  }

  /** The `project_activities` table, rows kept in rowid order. */
  class ActivityLog {
    var rows: seq<Activity>
    var nextId: nat

    ghost predicate Valid()
      reads this
    {
      nextId >= 1
      && forall a :: a in rows ==> 1 <= a.id < nextId
    }

    constructor ()
      ensures Valid() && rows == []
    {
      rows := [];
      nextId := 1;
    }

    /** `ProjectActivity.create`: an unknown type fails the CHECK and a
        missing description fails NOT NULL; either way nothing is stored.
        Otherwise one record is appended and no existing one changes. */
    method Create(projectId: int, userId: int, activityType: string, description: Option<string>,
                  metadata: Option<Json>, now: Time)
      returns (r: Result<nat>)
      requires Valid()
      modifies this
      ensures Valid()
      ensures ParseActivityType(activityType).None? || description.None? ==>
        r.Err? && r.error.ConstraintError? && rows == old(rows) && nextId == old(nextId)
      ensures ParseActivityType(activityType).Some? && description.Some? ==>
        r == Ok(old(nextId)) && nextId == old(nextId) + 1
        && rows == old(rows) + [Activity(old(nextId), projectId, userId, ParseActivityType(activityType).value,
                                         description.value, metadata.GetOr(JObject([])), now)]
    {
      var t := ParseActivityType(activityType);
      if t.None? {
        return Err(ConstraintError("CHECK constraint failed: activity_type"));
      }
      if description.None? {
        return Err(ConstraintError("NOT NULL constraint failed: project_activities.description"));
      }
      rows := rows + [Activity(nextId, projectId, userId, t.value, description.value, metadata.GetOr(JObject([])), now)];
      r := Ok(nextId);
      nextId := nextId + 1;
    }

    /** `ProjectActivity.findByProjectId` (limit 50, offset 0 by default):
        that project's activities whose author exists, newest first, the
        LIMIT/OFFSET window of them. */
    function FindByProjectId(accounts: map<nat, Users.User>, projectId: int, limit: int, offset: int): (r: seq<Activity>)
      reads this
      ensures forall a :: a in r ==> a in rows && a.projectId == projectId && Users.Present(accounts, a.userId)
      ensures IsWindow(r, rows, InProject(accounts, projectId), NewestFirst, limit, offset)
      ensures limit >= 0 ==> |r| <= limit
    {
      Select(rows, InProject(accounts, projectId), NewestFirst, limit, offset)
    }

    /** `ProjectActivity.findByUserId` (limit 20 by default): activities of
        the projects the user is client or editor of, newest first, the
        LIMIT/OFFSET window of them. */
    function FindByUserId(projects: Projects.ProjectTable, accounts: map<nat, Users.User>, userId: int, limit: int,
                          offset: int): (r: seq<Activity>)
      reads this, projects
      ensures forall a :: a in r ==> (a in rows && a.projectId in projects.rows
        && (projects.rows[a.projectId].clientId == userId || projects.rows[a.projectId].editorId == userId))
      ensures IsWindow(r, rows, OnProjectsOf(accounts, projects.rows, userId), NewestFirst, limit, offset)
      ensures limit >= 0 ==> |r| <= limit
    {
      Select(rows, OnProjectsOf(accounts, projects.rows, userId), NewestFirst, limit, offset)
    }

    /** `ProjectActivity.getActivityCount`. */
    function GetActivityCount(projectId: int): nat
      reads this
    {
      |OfProject(projectId)|
    }

    /** `ProjectActivity.findByType`: exactly the project's activities whose
        type is the given text, newest first. */
    function FindByType(accounts: map<nat, Users.User>, projectId: int, activityType: string): (r: seq<Activity>)
      reads this
      ensures forall a :: a in r <==> a in rows && a.projectId == projectId && ActivityTypeName(a.activityType) == activityType
                                      && Users.Present(accounts, a.userId)
      ensures Listing(r, rows, OfType(accounts, projectId, activityType), NewestFirst)
      ensures ParseActivityType(activityType).None? ==> r == []
    {
      var p := OfType(accounts, projectId, activityType);
      var r := Select(rows, p, NewestFirst, -1, 0);
      assert forall a :: a in r <==> a in Filter(rows, p) by {
        forall a ensures a in r <==> a in Filter(rows, p) {
          assert a in r <==> a in multiset(r);
        }
      }
      r
    }

    /** The project's activities, in rowid order. */
    function OfProject(projectId: int): (r: seq<Activity>)
      reads this
      ensures forall a :: a in r <==> a in rows && a.projectId == projectId
      ensures forall a :: multiset(r)[a] == if a.projectId == projectId then multiset(rows)[a] else 0
    {
      Filter(rows, ProjectIs(projectId))
    }

    /** `ProjectActivity.getProjectSummary`: one row per type that occurs in
        the project, carrying its count and latest time; the counts add up
        to `getActivityCount`. */
    function GetProjectSummary(projectId: int): (r: seq<SummaryRow>)
      reads this
      ensures forall g :: g in r ==> g.count == CountType(OfProject(projectId), g.activityType) > 0
      ensures forall g :: g in r ==>
        (exists a :: a in rows && a.projectId == projectId && a.activityType == g.activityType && a.createdAt == g.lastActivity)
        && forall a :: a in rows && a.projectId == projectId && a.activityType == g.activityType ==> a.createdAt <= g.lastActivity
      ensures forall a :: a in rows && a.projectId == projectId ==>
        exists g :: g in r && g.activityType == a.activityType
      ensures SumCounts(r) == GetActivityCount(projectId)
    {
      var mine := OfProject(projectId);
      ActivityTypesEnumerated();
      GroupsSumOver(mine, AllActivityTypes);
      SumOverAllTypes(mine);
      Groups(mine, AllActivityTypes)
    }

    /** `ProjectActivity.deleteByProjectId`: every activity of the project
        goes, every other one stays, in order; the result is the number of
        rows removed. */
    method DeleteByProjectId(projectId: int) returns (changes: nat)
      requires Valid()
      modifies this
      ensures Valid() && nextId == old(nextId)
      ensures rows == Filter(old(rows), (a: Activity) => a.projectId != projectId)
      ensures changes == old(GetActivityCount(projectId))
    {
      changes := GetActivityCount(projectId);
      rows := Filter(rows, (a: Activity) => a.projectId != projectId);
    }
  }

}
