/** The milestone tracker of `models/Milestone.js`: the `milestones` table,
    partial updates with COALESCE, per-project ordering, progress counts,
    date windows, the batch reorder and the five-item default template. */
module Milestones {
  import opened Common
  import opened Schema
  import opened Queries
  import Projects

  datatype Milestone = Milestone(
    id: nat,
    projectId: int,
    title: string,
    description: Option<string>,
    status: MilestoneStatus,
    dueDate: Option<string>,
    displayOrder: Option<int>,
    completedAt: Option<Time>,
    createdAt: Time,
    updatedAt: Time)

  /** `ORDER BY display_order ASC, due_date ASC`. */
  function ByDisplayOrder(m: Milestone): seq<Term> {
    [Asc(OptInt(m.displayOrder)), Asc(OptText(m.dueDate))]
  }

  /** `ORDER BY m.due_date ASC`. */
  function ByDueDate(m: Milestone): seq<Term> {
    [Asc(OptText(m.dueDate))]
  }

  /** The fields `update` receives; `None` is a null or missing field. */
  datatype Patch = Patch(
    title: Option<string>,
    description: Option<string>,
    dueDate: Option<string>,
    order: Option<int>,
    status: Option<MilestoneStatus>)

  function Coalesce<T>(given: Option<T>, current: T): T {
    if given.Some? then given.value else current
  }

  /** The row `update` writes: `COALESCE(?, column)` for each field. */
  function Patched(m: Milestone, p: Patch, now: Time): (r: Milestone)
    ensures r.id == m.id && r.projectId == m.projectId && r.completedAt == m.completedAt
      && r.createdAt == m.createdAt && r.updatedAt == now
    ensures r.title == (if p.title.Some? then p.title.value else m.title)
    ensures r.description == (if p.description.Some? then p.description else m.description)
    ensures r.dueDate == (if p.dueDate.Some? then p.dueDate else m.dueDate)
    ensures r.displayOrder == (if p.order.Some? then p.order else m.displayOrder)
    ensures r.status == (if p.status.Some? then p.status.value else m.status)
  {
    m.(title := Coalesce(p.title, m.title),
       description := if p.description.Some? then p.description else m.description,
       dueDate := if p.dueDate.Some? then p.dueDate else m.dueDate,
       displayOrder := if p.order.Some? then p.order else m.displayOrder,
       status := Coalesce(p.status, m.status),
       updatedAt := now)
  }

  /** An empty patch changes nothing but the update stamp, and applying the
      same patch twice is the same as applying it once. */
  lemma PatchLaws(m: Milestone, p: Patch, now: Time, later: Time)
    ensures Patched(m, Patch(None, None, None, None, None), now) == m.(updatedAt := now)
    ensures Patched(Patched(m, p, now), p, later) == Patched(m, p, later)
  {
  }

  /** One element of the `orders` array given to `reorder`: an object with
      `id` and `order` (either may be missing), or `null`/`undefined`,
      which cannot be destructured. */
  datatype OrderItem = Entry(id: Option<int>, order: Option<int>) | Nullish

  predicate Names(item: OrderItem, id: int) {
    item.Entry? && item.id == Some(id)
  }

  /** The effect of one `UPDATE milestones SET display_order = ? WHERE id = ?
      AND project_id = ?`. */
  function ReorderStep(rows: map<nat, Milestone>, projectId: int, item: OrderItem): map<nat, Milestone> {
    if item.Nullish? || item.id.None? then rows
    else
      var id := item.id.value;
      if id >= 0 && id in rows && rows[id].projectId == projectId
      then rows[id := rows[id].(displayOrder := item.order)]
      else rows
  }

  /** The statements of the reorder transaction, in order. */
  function Reordered(rows: map<nat, Milestone>, projectId: int, items: seq<OrderItem>): map<nat, Milestone> {
    if items == [] then rows
    else Reordered(ReorderStep(rows, projectId, items[0]), projectId, items[1..])
  }

  /** Reordering touches only display orders, only of the given project's
      milestones, and only of those whose id is listed. */
  lemma {:induction false} ReorderScope(rows: map<nat, Milestone>, projectId: int, items: seq<OrderItem>)
    ensures var r := Reordered(rows, projectId, items);
      r.Keys == rows.Keys
      && (forall k :: k in rows ==> r[k] == rows[k].(displayOrder := r[k].displayOrder))
      && (forall k :: k in rows && rows[k].projectId != projectId ==> r[k] == rows[k])
      && (forall k :: k in rows && (forall i :: 0 <= i < |items| ==> !Names(items[i], k))
            ==> r[k] == rows[k])
  {
    if items != [] {
      var next := ReorderStep(rows, projectId, items[0]);
      ReorderScope(next, projectId, items[1..]);
      assert forall k :: k in rows ==> next[k] == rows[k].(displayOrder := next[k].displayOrder);
      assert forall k :: k in rows && rows[k].projectId != projectId ==> next[k] == rows[k];
      assert forall i :: 0 <= i < |items[1..]| ==> items[1..][i] == items[i + 1];
    }
  }

  /** A listed milestone of the project ends with the order of the last
      entry naming it. */
  lemma {:induction false} ReorderLastWins(rows: map<nat, Milestone>, projectId: int, items: seq<OrderItem>, j: nat)
    requires j < |items| && items[j].Entry? && items[j].id.Some? && items[j].id.value >= 0
    requires items[j].id.value in rows && rows[items[j].id.value].projectId == projectId
    requires forall i :: j < i < |items| ==> !Names(items[i], items[j].id.value)
    ensures var r := Reordered(rows, projectId, items);
      items[j].id.value in r && r[items[j].id.value].displayOrder == items[j].order
  {
    var k := items[j].id.value;
    var next := ReorderStep(rows, projectId, items[0]);
    if j == 0 {
      assert next[k] == rows[k].(displayOrder := items[0].order);
      ReorderScope(next, projectId, items[1..]);
      assert forall i :: 0 <= i < |items[1..]| ==> items[1..][i] == items[i + 1];
    } else {
      ReorderScope(rows, projectId, items[..1]);
      assert next.Keys == rows.Keys && next[k].projectId == projectId by {
        assert Reordered(next, projectId, []) == next;
        assert Reordered(rows, projectId, items[..1]) == next;
      }
      ReorderLastWins(next, projectId, items[1..], j - 1);
    }
  }

  // ---------------------------------------------------------- the template

  /** The template of `createDefaultMilestones`: the title and the
      description of each of its five entries, which are given display
      orders 1 to 5. */
  const Template: seq<(string, string)> := [
    ("Project Kickoff", "Initial project setup and requirements gathering"),
    ("First Draft", "Initial draft delivery for review"),
    ("Revision Round 1", "Incorporate first round of feedback"),
    ("Final Delivery", "Final edited video delivery"),
    ("Project Approval", "Client approval and project completion")
  ]

  /** The row one INSERT of the template stores for `entry`. */
  function DefaultMilestone(id: nat, projectId: int, entry: (string, string), order: int, now: Time): Milestone {
    Milestone(id, projectId, entry.0, Some(entry.1), MilestonePending, None, Some(order), None, now, now)
  }

  /** The rows the first `n` entries of `template` insert when the next
      rowid is `first`. */
  function DefaultRows(projectId: int, first: nat, template: seq<(string, string)>, n: nat, now: Time)
    : map<nat, Milestone>
    requires n <= |template|
  {
    if n == 0 then map[]
    else DefaultRows(projectId, first, template, n - 1, now)[first + n - 1 :=
           DefaultMilestone(first + n - 1, projectId, template[n - 1], n, now)]
  }

  /** The rows the whole five-entry template inserts when the next rowid
      is `first`. */
  function TemplateRows(projectId: int, first: nat, now: Time): map<nat, Milestone> {
    DefaultRows(projectId, first, Template, 5, now)
  }

  /** The first `n` entries occupy exactly the rowids `first` to
      `first + n - 1`, entry `i` under rowid `first + i` with display order
      `i + 1`. */
  lemma {:induction false} DefaultRowsShape(projectId: int, first: nat, template: seq<(string, string)>, n: nat,
                                            now: Time)
    requires n <= |template|
    ensures forall k :: k in DefaultRows(projectId, first, template, n, now) <==> first <= k < first + n
    ensures forall k :: k in DefaultRows(projectId, first, template, n, now) ==>
      DefaultRows(projectId, first, template, n, now)[k]
        == DefaultMilestone(k, projectId, template[k - first], k - first + 1, now)
  {
    if n > 0 {
      var before := DefaultRows(projectId, first, template, n - 1, now);
      var m := DefaultMilestone(first + n - 1, projectId, template[n - 1], n, now);
      DefaultRowsShape(projectId, first, template, n - 1, now);
      assert DefaultRows(projectId, first, template, n, now) == before[first + n - 1 := m];
    }
  }

  /** The first `n` entries insert `n` distinct rows. */
  lemma {:induction false} DefaultRowsCount(projectId: int, first: nat, template: seq<(string, string)>, n: nat,
                                            now: Time)
    requires n <= |template|
    ensures |DefaultRows(projectId, first, template, n, now)| == n
  {
    if n > 0 {
      var before := DefaultRows(projectId, first, template, n - 1, now);
      DefaultRowsCount(projectId, first, template, n - 1, now);
      DefaultRowsShape(projectId, first, template, n - 1, now);
      assert first + n - 1 !in before;
      assert DefaultRows(projectId, first, template, n, now)
          == before[first + n - 1 := DefaultMilestone(first + n - 1, projectId, template[n - 1], n, now)];
    }
  }

  /** The template inserts five rows, from Project Kickoff to Project
      Approval. */
  lemma DefaultTemplateKeys(projectId: int, first: nat, now: Time)
    ensures |DefaultRows(projectId, first, Template, 5, now).Keys| == 5
    ensures first in DefaultRows(projectId, first, Template, 5, now)
            && DefaultRows(projectId, first, Template, 5, now)[first].title == "Project Kickoff"
    ensures first + 4 in DefaultRows(projectId, first, Template, 5, now)
            && DefaultRows(projectId, first, Template, 5, now)[first + 4].title == "Project Approval"
  {
    DefaultRowsCount(projectId, first, Template, 5, now);
    DefaultRowsShape(projectId, first, Template, 5, now);
    var d := DefaultRows(projectId, first, Template, 5, now);
    assert |d.Keys| == |d|;
    assert d[first] == DefaultMilestone(first, projectId, Template[0], 1, now);
    assert d[first + 4] == DefaultMilestone(first + 4, projectId, Template[4], 5, now);
  }

  /** Every templated milestone is a pending milestone of the project, with
      no due date, ordered 1 to 5 in insertion order. */
  lemma DefaultTemplateRows(projectId: int, first: nat, now: Time)
    ensures forall k :: k in DefaultRows(projectId, first, Template, 5, now) ==>
      (DefaultRows(projectId, first, Template, 5, now)[k].projectId == projectId
       && DefaultRows(projectId, first, Template, 5, now)[k].status == MilestonePending
       && DefaultRows(projectId, first, Template, 5, now)[k].dueDate.None?
       && DefaultRows(projectId, first, Template, 5, now)[k].displayOrder == Some(k - first + 1))
  {
    DefaultRowsShape(projectId, first, Template, 5, now);
  }

  // ----------------------------------------------------------- progress

  /** The counts of `getProjectProgress`.  On an empty project the three
      `SUM`s are NULL. */
  datatype Progress = Progress(total: nat, completed: Option<nat>, inProgress: Option<nat>,
                               pending: Option<nat>, percentage: int)

  function CountStatus(ms: seq<Milestone>, s: MilestoneStatus): nat {
    Count(ms, (m: Milestone) => m.status == s)
  }

  lemma {:induction false} StatusCountsPartition(ms: seq<Milestone>)
    ensures CountStatus(ms, MilestoneCompleted) + CountStatus(ms, MilestoneInProgress)
            + CountStatus(ms, MilestonePending) == |ms|
  {
    if ms != [] {
      StatusCountsPartition(ms[1..]);
    }
  }

  /** Progress over one project's milestones: the three status counts
      partition the total, and the percentage is the rounded share of
      completed ones, 0 for an empty project. */
  function ProgressOf(ms: seq<Milestone>): (r: Progress)
    ensures r.total == |ms|
    ensures r.total == 0 ==> r.completed.None? && r.inProgress.None? && r.pending.None? && r.percentage == 0
    ensures r.total > 0 ==>
      (r.completed.Some? && r.inProgress.Some? && r.pending.Some?
       && r.completed.value + r.inProgress.value + r.pending.value == r.total
       && r.completed.value == CountStatus(ms, MilestoneCompleted)
       && r.inProgress.value == CountStatus(ms, MilestoneInProgress)
       && r.pending.value == CountStatus(ms, MilestonePending)
       && r.percentage == Percent(r.completed.value, r.total)
       && 0 <= r.percentage <= 100)
  {
    if ms == [] then Progress(0, None, None, None, 0)
    else
      var c := CountStatus(ms, MilestoneCompleted);
      StatusCountsPartition(ms);
      PercentBounds(c, |ms|);
      Progress(|ms|, Some(c), Some(CountStatus(ms, MilestoneInProgress)),
               Some(CountStatus(ms, MilestonePending)), Percent(c, |ms|))
  }

  /** `WHERE project_id = ?`. */
  function OfProject(projectId: int): Milestone -> bool {
    (m: Milestone) => m.projectId == projectId
  }

  /** Whether the user is client or editor of the milestone's project. */
  predicate PartyTo(ps: map<int, Projects.Project>, userId: int, m: Milestone) {
    m.projectId in ps && (ps[m.projectId].clientId == userId || ps[m.projectId].editorId == userId)
  }

  /** The `getOverdueMilestones` join and filter. */
  function Overdue(ps: map<int, Projects.Project>, userId: int, today: string): Milestone -> bool {
    (m: Milestone) => PartyTo(ps, userId, m) && m.status != MilestoneCompleted
      && m.dueDate.Some? && StrLt(m.dueDate.value, today)
  }

  /** The `getUpcomingMilestones` join and filter; a NULL horizon matches
      nothing. */
  function Upcoming(ps: map<int, Projects.Project>, userId: int, today: string, horizon: Option<string>): Milestone -> bool {
    (m: Milestone) => PartyTo(ps, userId, m) && m.status != MilestoneCompleted
      && m.dueDate.Some? && horizon.Some?
      && !StrLt(m.dueDate.value, today) && !StrLt(horizon.value, m.dueDate.value)
  }

  // ----------------------------------------------------------------- table

  /** The `milestones` table. */
  class MilestoneTable {
    var rows: map<nat, Milestone>
    var nextId: nat

    ghost predicate Valid()
      reads this
    {
      nextId >= 1 && forall id :: id in rows ==> rows[id].id == id && 1 <= id < nextId
    }

    constructor ()
      ensures Valid() && rows == map[]
    {
      rows := map[];
      nextId := 1;
    }

    /** `Milestone.create`: a null title violates NOT NULL; the display
        order is the order given, or 0 when it is missing or 0. */
    method Create(projectId: int, title: Option<string>, description: Option<string>,
                  dueDate: Option<string>, order: Option<int>, now: Time)
      returns (r: Result<nat>)
      requires Valid()
      modifies this
      ensures Valid()
      ensures title.None? ==> r.Err? && r.error.ConstraintError? && rows == old(rows) && nextId == old(nextId)
      ensures title.Some? ==>
        (r == Ok(old(nextId)) && nextId == old(nextId) + 1 && old(nextId) !in old(rows)
         && rows == old(rows)[old(nextId) := Milestone(old(nextId), projectId, title.value, description,
                                                       MilestonePending, dueDate, Some(order.GetOr(0)), None, now, now)])
    {
      if title.None? {
        return Err(ConstraintError("NOT NULL constraint failed: milestones.title"));
      }
      rows := rows[nextId := Milestone(nextId, projectId, title.value, description, MilestonePending,
                                       dueDate, Some(order.GetOr(0)), None, now, now)];
      r := Ok(nextId);
      nextId := nextId + 1;
    }

    /** `Milestone.findById` (the joined project title is not modelled). */
    function FindById(id: int): (r: Option<Milestone>)
      reads this
      ensures r.Some? <==> id >= 0 && id in rows
      ensures r.Some? ==> r.value == rows[id]
    {
      if id >= 0 && id in rows then Some(rows[id]) else None
    }

    /** `Milestone.findByProjectId`: exactly the project's milestones, by
        display order and then due date. */
    function FindByProjectId(projectId: int): (r: seq<Milestone>)
      requires Valid()
      reads this
      ensures forall m :: m in r <==> m in rows.Values && m.projectId == projectId
      ensures Listing(r, Rows(rows, nextId), OfProject(projectId), ByDisplayOrder)
    {
      SelectRows(rows, nextId, OfProject(projectId), ByDisplayOrder)
    }

    /** `Milestone.getProjectProgress`. */
    function GetProjectProgress(projectId: int): (r: Progress)
      requires Valid()
      reads this
      ensures r == ProgressOf(FindByProjectId(projectId))
      ensures r.total == 0 <==> forall m :: m in rows.Values ==> m.projectId != projectId
    {
      var ms := FindByProjectId(projectId);
      assert ms != [] ==> ms[0] in ms;
      ProgressOf(ms)
    }

    /** `Milestone.updateStatus`: a status outside the CHECK list throws and
        writes nothing; otherwise status and completed_at are overwritten. */
    method UpdateStatus(id: int, status: string, completedAt: Option<Time>, now: Time) returns (r: Result<nat>)
      requires Valid()
      modifies this
      ensures Valid() && nextId == old(nextId)
      ensures !(id >= 0 && id in old(rows)) ==> r == Ok(0) && rows == old(rows)
      ensures id >= 0 && id in old(rows) && ParseMilestoneStatus(status).None? ==> r.Err? && rows == old(rows)
      ensures id >= 0 && id in old(rows) && ParseMilestoneStatus(status).Some? ==>
        r == Ok(1) && rows == old(rows)[id := old(rows)[id].(status := ParseMilestoneStatus(status).value,
                                                            completedAt := completedAt, updatedAt := now)]
    {
      if !(id >= 0 && id in rows) {
        return Ok(0);
      }
      var s := ParseMilestoneStatus(status);
      if s.None? {
        return Err(ConstraintError("CHECK constraint failed: status"));
      }
      rows := rows[id := rows[id].(status := s.value, completedAt := completedAt, updatedAt := now)];
      return Ok(1);
    }

    /** `Milestone.update`: COALESCE on every field; a status outside the
        CHECK list throws and writes nothing.  completed_at is untouched. */
    method Update(id: int, title: Option<string>, description: Option<string>, dueDate: Option<string>,
                  order: Option<int>, status: Option<string>, now: Time)
      returns (r: Result<nat>)
      requires Valid()
      modifies this
      ensures Valid() && nextId == old(nextId)
      ensures !(id >= 0 && id in old(rows)) ==> r == Ok(0) && rows == old(rows)
      ensures id >= 0 && id in old(rows) && status.Some? && ParseMilestoneStatus(status.value).None? ==>
        r.Err? && rows == old(rows)
      ensures id >= 0 && id in old(rows) && !(status.Some? && ParseMilestoneStatus(status.value).None?) ==>
        var p := Patch(title, description, dueDate, order,
                       if status.Some? then ParseMilestoneStatus(status.value) else None);
        r == Ok(1) && rows == old(rows)[id := Patched(old(rows)[id], p, now)]
    {
      if !(id >= 0 && id in rows) {
        return Ok(0);
      }
      var s: Option<MilestoneStatus> := None;
      if status.Some? {
        s := ParseMilestoneStatus(status.value);
        if s.None? {
          return Err(ConstraintError("CHECK constraint failed: status"));
        }
      }
      rows := rows[id := Patched(rows[id], Patch(title, description, dueDate, order, s), now)];
      return Ok(1);
    }

    /** `Milestone.complete`: that milestone only becomes completed and is
        stamped. */
    method Complete(id: int, now: Time) returns (changes: nat)
      requires Valid()
      modifies this
      ensures Valid() && nextId == old(nextId)
      ensures id >= 0 && id in old(rows) ==>
        (changes == 1
         && rows == old(rows)[id := old(rows)[id].(status := MilestoneCompleted, completedAt := Some(now), updatedAt := now)])
      ensures !(id >= 0 && id in old(rows)) ==> changes == 0 && rows == old(rows)
    {
      if id >= 0 && id in rows {
        rows := rows[id := rows[id].(status := MilestoneCompleted, completedAt := Some(now), updatedAt := now)];
        changes := 1;
      } else {
        changes := 0;
      }
    }

    /** `Milestone.delete`. */
    method Delete(id: int) returns (changes: nat)
      requires Valid()
      modifies this
      ensures Valid() && nextId == old(nextId)
      ensures id >= 0 ==> rows == old(rows) - {id as nat}
      ensures id < 0 ==> rows == old(rows)
      ensures changes == if id >= 0 && id in old(rows) then 1 else 0
    {
      changes := if id >= 0 && id in rows then 1 else 0;
      if id >= 0 {
        rows := rows - {id as nat};
      }
    }

    /** `Milestone.getOverdueMilestones`: unfinished milestones of the
        user's projects whose due date is before `today`
        (`date('now')`), earliest first.  A NULL due date never matches. */
    function GetOverdueMilestones(projects: Projects.ProjectTable, userId: int, today: string): (r: seq<Milestone>)
      requires Valid()
      reads this, projects
      ensures forall m :: m in r <==> (m in rows.Values && PartyTo(projects.rows, userId, m)
        && m.status != MilestoneCompleted && m.dueDate.Some? && StrLt(m.dueDate.value, today))
      ensures Listing(r, Rows(rows, nextId), Overdue(projects.rows, userId, today), ByDueDate)
    {
      SelectRows(rows, nextId, Overdue(projects.rows, userId, today), ByDueDate)
    }

    /** `Milestone.getUpcomingMilestones`: unfinished milestones of the
        user's projects due between `today` and `horizon` inclusive
        (`date('now', '+N days')`, NULL when N is not a number). */
    function GetUpcomingMilestones(projects: Projects.ProjectTable, userId: int, today: string,
                                   horizon: Option<string>): (r: seq<Milestone>)
      requires Valid()
      reads this, projects
      ensures forall m :: m in r <==> (m in rows.Values && PartyTo(projects.rows, userId, m)
        && m.status != MilestoneCompleted && m.dueDate.Some? && horizon.Some?
        && !StrLt(m.dueDate.value, today) && !StrLt(horizon.value, m.dueDate.value))
      ensures Listing(r, Rows(rows, nextId), Upcoming(projects.rows, userId, today, horizon), ByDueDate)
      ensures horizon.None? ==> r == []
    {
      var r := SelectRows(rows, nextId, Upcoming(projects.rows, userId, today, horizon), ByDueDate);
      assert r != [] ==> r[0] in r;
      r
    }

    /** `Milestone.reorder`: the updates run in one transaction; an element
        that cannot be destructured throws, and the transaction rolls back
        every update made before it. */
    method Reorder(projectId: int, orders: seq<OrderItem>) returns (r: Outcome)
      requires Valid()
      modifies this
      ensures Valid() && nextId == old(nextId)
      ensures r.Fail? <==> exists i :: 0 <= i < |orders| && orders[i].Nullish?
      ensures r.Fail? ==> rows == old(rows)
      ensures r.Pass? ==> rows == Reordered(old(rows), projectId, orders)
    {
      var saved := rows;
      var i := 0;
      while i < |orders|
        invariant 0 <= i <= |orders|
        invariant forall j :: 0 <= j < i ==> orders[j].Entry?
        invariant rows == Reordered(saved, projectId, orders[..i])
        invariant Valid() && nextId == old(nextId)
      {
        if orders[i].Nullish? {
          rows := saved;
          return Fail(Failure("Cannot destructure an undefined or null order entry"));
        }
        ReorderPrefix(saved, projectId, orders, i);
        rows := ReorderStep(rows, projectId, orders[i]);
        i := i + 1;
      }
      assert orders[..i] == orders;
      return Pass;
    }

    /** `Milestone.createDefaultMilestones`: the template's five inserts,
        in one transaction. */
    method CreateDefaultMilestones(projectId: int, now: Time)
      requires Valid()
      modifies this
      ensures Valid() && nextId == old(nextId) + 5
      ensures rows == old(rows) + DefaultRows(projectId, old(nextId), Template, 5, now)
      ensures forall k :: k in DefaultRows(projectId, old(nextId), Template, 5, now) ==> k !in old(rows)
    {
      var first := nextId;
      ghost var initial := rows;
      var i := 0;
      while i < 5
        invariant 0 <= i <= 5 && nextId == first + i
        invariant rows == Inserted(initial, projectId, first, Template, i, now)
        invariant Valid()
      {
        rows := rows[nextId := DefaultMilestone(nextId, projectId, Template[i], i + 1, now)];
        nextId := nextId + 1;
        i := i + 1;
      }
      InsertedIsMerge(initial, projectId, first, Template, 5, now);
      DefaultRowsShape(projectId, first, Template, 5, now);
    }
  }

  /** `base` after the INSERT statements of the first `n` entries of
      `template`, from rowid `first` on. */
  function Inserted(base: map<nat, Milestone>, projectId: int, first: nat, template: seq<(string, string)>, n: nat,
                    now: Time): map<nat, Milestone>
    requires n <= |template|
  {
    if n == 0 then base
    else Inserted(base, projectId, first, template, n - 1, now)[first + n - 1 :=
           DefaultMilestone(first + n - 1, projectId, template[n - 1], n, now)]
  }

  /** Running the INSERT statements one by one adds exactly the template's
      rows. */
  lemma {:induction false} InsertedIsMerge(base: map<nat, Milestone>, projectId: int, first: nat,
                                           template: seq<(string, string)>, n: nat, now: Time)
    requires n <= |template|
    ensures Inserted(base, projectId, first, template, n, now) == base + DefaultRows(projectId, first, template, n, now)
  {
    if n == 0 {
      assert base + DefaultRows(projectId, first, template, 0, now) == base;
    } else {
      var m := DefaultMilestone(first + n - 1, projectId, template[n - 1], n, now);
      var rows := DefaultRows(projectId, first, template, n - 1, now);
      InsertedIsMerge(base, projectId, first, template, n - 1, now);
      MergeInsert(base, rows, first + n - 1, m);
      assert Inserted(base, projectId, first, template, n, now)
          == Inserted(base, projectId, first, template, n - 1, now)[first + n - 1 := m];
      assert DefaultRows(projectId, first, template, n, now) == rows[first + n - 1 := m];
    }
  }

  /** Inserting a key after a merge is merging after inserting it. */
  lemma MergeInsert<T>(a: map<nat, T>, b: map<nat, T>, k: nat, v: T)
    ensures (a + b)[k := v] == a + b[k := v]
  {
  }

  lemma ReorderPrefix(rows: map<nat, Milestone>, projectId: int, items: seq<OrderItem>, i: nat)
    requires i < |items|
    ensures Reordered(rows, projectId, items[..i + 1])
         == ReorderStep(Reordered(rows, projectId, items[..i]), projectId, items[i])
  {
    ReorderSnoc(rows, projectId, items[..i], items[i]);
    assert items[..i] + [items[i]] == items[..i + 1];
  }

  lemma {:induction false} ReorderSnoc(rows: map<nat, Milestone>, projectId: int, items: seq<OrderItem>, last: OrderItem)
    ensures Reordered(rows, projectId, items + [last]) == ReorderStep(Reordered(rows, projectId, items), projectId, last)
  {
    if items != [] {
      assert (items + [last])[1..] == items[1..] + [last];
      ReorderSnoc(ReorderStep(rows, projectId, items[0]), projectId, items[1..], last);
    }
  }
}
