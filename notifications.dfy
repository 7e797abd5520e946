/** The `notifications` table of `models/Notification.js`: per-user
    messages with a read flag, and the helpers that announce job
    invitations, proposals and project updates.  Every change is scoped to
    one user: a notification is read, marked or deleted only through the
    id of its owner. */
module Notifications {
  import opened Common
  import opened Schema
  import opened Queries

  /** A stored notification.  `referenceType`/`referenceId` point at the
      job or project it is about. */
  datatype Notification = Notification(id: nat, userId: int, kind: string, title: string, message: string,
                                       referenceType: Option<string>, referenceId: Option<int>, isRead: bool,
                                       createdAt: Time)

  /** The values `Notification.create` receives; the reference defaults to
      NULL. */
  datatype Notice = Notice(userId: int, kind: string, title: string, message: string,
                         referenceType: Option<string>, referenceId: Option<int>)

  function NewestFirst(n: Notification): seq<Term> {
    [Desc(Int(n.createdAt))]
  }

  /** `WHERE user_id = ?`, with `AND is_read = 0` when only unread ones are
      asked for. */
  function ForUser(userId: int, unreadOnly: bool): Notification -> bool {
    (n: Notification) => n.userId == userId && (!unreadOnly || !n.isRead)
  }

  /** `WHERE user_id = ? AND is_read = 0`. */
  function Unread(userId: int): Notification -> bool {
    (n: Notification) => n.userId == userId && !n.isRead
  }

  /** The row `markAsRead(id, userId)` leaves: read if it is that id and
      belongs to that user, untouched otherwise. */
  function ReadOne(n: Notification, id: int, userId: int): Notification {
    if n.id == id && n.userId == userId then n.(isRead := true) else n
  }

  /** The row `markAllAsRead(userId)` leaves. */
  function ReadAll(n: Notification, userId: int): Notification {
    if n.userId == userId then n.(isRead := true) else n
  }

  /** `is_read = 1 AND created_at < cutoff`: what `cleanup` removes. */
  predicate Expired(n: Notification, cutoff: Time) {
    n.isRead && n.createdAt < cutoff
  }

  /** Marking the same notification twice is marking it once. */
  lemma ReadOneIdempotent(n: Notification, id: int, userId: int)
    ensures ReadOne(ReadOne(n, id, userId), id, userId) == ReadOne(n, id, userId)
    ensures ReadOne(n, id, userId) != n <==> n.id == id && n.userId == userId && !n.isRead
  {
  }

  // ---------------------------------------------------------------- helpers

  /** `notifyJobInvitation`: tells the editor which client wants to hire
      them, pointing at the job. */
  function JobInvitation(editorId: int, jobId: int, jobTitle: string, clientName: string): (d: Notice)
    ensures d.userId == editorId && d.kind == "job_invitation"
    ensures d.referenceType == Some("job") && d.referenceId == Some(jobId)
  {
    Notice(editorId, "job_invitation", "\U{1F3AF} New Job Invitation",
          clientName + " wants to hire you for \"" + jobTitle + "\"", Some("job"), Some(jobId))
  }

  /** `notifyProposalReceived`: tells the client which editor applied,
      pointing at the job. */
  function ProposalReceived(clientId: int, jobId: int, jobTitle: string, editorName: string): (d: Notice)
    ensures d.userId == clientId && d.kind == "proposal_received"
    ensures d.referenceType == Some("job") && d.referenceId == Some(jobId)
  {
    Notice(clientId, "proposal_received", "\U{1F4E8} New Proposal",
          editorName + " submitted a proposal for \"" + jobTitle + "\"", Some("job"), Some(jobId))
  }

  /** `notifyProposalAccepted`: tells the editor their proposal won,
      pointing at the project it opened. */
  function ProposalAccepted(editorId: int, projectId: int, jobTitle: string): (d: Notice)
    ensures d.userId == editorId && d.kind == "proposal_accepted"
    ensures d.referenceType == Some("project") && d.referenceId == Some(projectId)
  {
    Notice(editorId, "proposal_accepted", "\U{1F389} Proposal Accepted",
          "Your proposal for \"" + jobTitle + "\" has been accepted!", Some("project"), Some(projectId))
  }

  /** `notifyProjectUpdate`: the caller's title and message, pointing at
      the project. */
  function ProjectUpdate(userId: int, projectId: int, title: string, message: string): (d: Notice)
    ensures d.userId == userId && d.kind == "project_update" && d.title == title && d.message == message
    ensures d.referenceType == Some("project") && d.referenceId == Some(projectId)
  {
    Notice(userId, "project_update", title, message, Some("project"), Some(projectId))
  }

  /** Job notifications point at a job and project notifications at a
      project, always with an id. */
  predicate WellReferenced(d: Notice) {
    d.referenceId.Some?
    && ((d.kind in {"job_invitation", "proposal_received"} && d.referenceType == Some("job"))
        || (d.kind in {"proposal_accepted", "project_update"} && d.referenceType == Some("project")))
  }

  /** Every helper produces a notification that refers to the job or the
      project it is about. */
  lemma HelpersWellReferenced(userId: int, id: int, s: string, t: string)
    ensures WellReferenced(JobInvitation(userId, id, s, t))
    ensures WellReferenced(ProposalReceived(userId, id, s, t))
    ensures WellReferenced(ProposalAccepted(userId, id, s))
    ensures WellReferenced(ProjectUpdate(userId, id, s, t))
  {
  }

  // ------------------------------------------------------------------ table

  /** The `notifications` table. */
  class NotificationTable {
    var rows: map<nat, Notification>
    var nextId: nat

    ghost predicate Valid()
      reads this
    {
      nextId >= 1 && forall id :: id in rows ==> rows[id].id == id && 1 <= id < nextId
    }

    constructor ()
      ensures Valid() && rows == map[]
    {
      rows := map[];
      nextId := 1;
    }

    /** `Notification.create`: one unread notification for the user, stamped
        now, read back by its new id. */
    method Create(d: Notice, now: Time) returns (n: Notification)
      requires Valid()
      modifies this
      ensures Valid()
      ensures n == Notification(old(nextId), d.userId, d.kind, d.title, d.message, d.referenceType, d.referenceId,
                                false, now)
      ensures n.id !in old(rows) && rows == old(rows)[n.id := n]
      ensures FindById(n.id) == Some(n)
    {
      n := Notification(nextId, d.userId, d.kind, d.title, d.message, d.referenceType, d.referenceId, false, now);
      rows := rows[nextId := n];
      nextId := nextId + 1;
    }

    /** `Notification.findById`. */
    function FindById(id: int): (r: Option<Notification>)
      reads this
      ensures r.Some? <==> id >= 0 && id in rows
      ensures r.Some? ==> r.value == rows[id]
    {
      if id >= 0 && id in rows then Some(rows[id]) else None
    }

    /** `Notification.findByUser`: one page of the user's notifications,
        newest first, only the unread ones when asked. */
    function FindByUser(userId: int, limit: int, offset: int, unreadOnly: bool): (r: seq<Notification>)
      reads this
      ensures forall n :: n in r ==> n in rows.Values && n.userId == userId && (unreadOnly ==> !n.isRead)
      ensures Sorted(r, NewestFirst)
      ensures IsWindow(r, Rows(rows, nextId), ForUser(userId, unreadOnly), NewestFirst, limit, offset)
      ensures var total := Count(Rows(rows, nextId), ForUser(userId, unreadOnly));
        var start := if offset < 0 then 0 else if offset > total then total else offset;
        |r| == if 0 <= limit < total - start then limit else total - start
    {
      var all := Rows(rows, nextId);
      assert forall n :: n in all ==> n in rows.Values;
      Select(all, ForUser(userId, unreadOnly), NewestFirst, limit, offset)
    }

    /** `Notification.getUnreadCount`. */
    function UnreadCount(userId: int): nat
      reads this
    {
      Count(Rows(rows, nextId), Unread(userId))
    }

    /** `Notification.markAsRead`: only the notification with that id and
        that owner becomes read; reports how many rows matched. */
    method MarkAsRead(id: int, userId: int) returns (changes: nat)
      requires Valid()
      modifies this
      ensures Valid() && nextId == old(nextId)
      ensures changes == if id >= 0 && id in old(rows) && old(rows[id]).userId == userId then 1 else 0
      ensures rows.Keys == old(rows.Keys)
      ensures forall k :: k in rows ==> rows[k] == ReadOne(old(rows[k]), id, userId)
    {
      changes := if id >= 0 && id in rows && rows[id].userId == userId then 1 else 0;
      rows := map k | k in rows :: ReadOne(rows[k], id, userId);
    }

    /** `Notification.markAllAsRead`: every notification of the user becomes
        read and no one else's changes; reports how many were unread. */
    method MarkAllAsRead(userId: int) returns (changes: nat)
      requires Valid()
      modifies this
      ensures Valid() && nextId == old(nextId)
      ensures changes == old(UnreadCount(userId))
      ensures rows.Keys == old(rows.Keys)
      ensures forall k :: k in rows ==> rows[k] == ReadAll(old(rows[k]), userId)
      ensures UnreadCount(userId) == 0
      ensures forall other :: other != userId ==> UnreadCount(other) == old(UnreadCount(other))
    {
      changes := UnreadCount(userId);
      rows := map k | k in rows :: ReadAll(rows[k], userId);
      ReadAllCounts(old(rows), rows, nextId, userId);
    }

    /** `Notification.delete`: removes the notification only when it
        belongs to that user. */
    method Delete(id: int, userId: int) returns (changes: nat)
      requires Valid()
      modifies this
      ensures Valid() && nextId == old(nextId)
      ensures changes == 1 <==> id >= 0 && id in old(rows) && old(rows[id]).userId == userId
      ensures changes <= 1
      ensures rows == if changes == 1 then old(rows) - {id as nat} else old(rows)
    {
      if id >= 0 && id in rows && rows[id].userId == userId {
        rows := rows - {id as nat};
        changes := 1;
      } else {
        changes := 0;
      }
    }

    /** `Notification.cleanup(daysOld)`: drops the read notifications
        created before `daysOld` days ago (30 by default).  `daysAgo` stands
        for SQLite's `datetime('now', '-' || daysOld || ' days')`, which is
        NULL for a modifier it cannot read; then nothing is removed. */
    method Cleanup(daysOld: Option<int>, daysAgo: int -> Option<Time>) returns (changes: nat)
      requires Valid()
      modifies this
      ensures Valid() && nextId == old(nextId)
      ensures var cutoff := daysAgo(daysOld.GetOr(30));
        forall k :: k in rows <==> k in old(rows) && (cutoff.None? || !Expired(old(rows[k]), cutoff.value))
      ensures forall k :: k in rows ==> rows[k] == old(rows[k])
      ensures changes == |old(rows.Keys)| - |rows.Keys|
    {
      var cutoff := daysAgo(daysOld.GetOr(30));
      var before := rows.Keys;
      if cutoff.Some? {
        rows := map k | k in rows && !Expired(rows[k], cutoff.value) :: rows[k];
      }
      assert rows.Keys <= before;
      SubsetCard(rows.Keys, before);
      changes := |before| - |rows.Keys|;
    }
  }

  lemma SubsetCard<T>(a: set<T>, b: set<T>)
    requires a <= b
    ensures |a| <= |b|
  {
    if a != {} {
      var x :| x in a;
      SubsetCard(a - {x}, b - {x});
    }
  }

  // ------------------------------------------------------------ properties

  /** Marking all of one user's notifications as read leaves every other
      user's unread count as it was. */
  lemma {:induction false} ReadAllOthersUnchanged(s: seq<Notification>, userId: int, other: int)
    requires other != userId
    ensures Count(MapRead(s, userId), Unread(other)) == Count(s, Unread(other))
  {
    if s != [] {
      ReadAllOthersUnchanged(s[1..], userId, other);
      assert MapRead(s, userId)[1..] == MapRead(s[1..], userId);
    }
  }

  /** After every row of `userId` is marked read, that user has no unread
      notification and every other user's unread count is unchanged. */
  lemma ReadAllCounts(m1: map<nat, Notification>, m2: map<nat, Notification>, n: nat, userId: int)
    requires m1.Keys == m2.Keys
    requires forall k :: k in m2 ==> m2[k] == ReadAll(m1[k], userId)
    ensures Count(Rows(m2, n), Unread(userId)) == 0
    ensures forall other :: other != userId ==> Count(Rows(m2, n), Unread(other)) == Count(Rows(m1, n), Unread(other))
  {
    ReadAllScan(m1, m2, n, userId);
    var s1 := Rows(m1, n);
    var s2 := Rows(m2, n);
    forall x | x in s2 ensures !Unread(userId)(x) {
      var i :| 0 <= i < |s2| && s2[i] == x;
    }
    CountNone(s2, Unread(userId));
    forall other | other != userId ensures Count(s2, Unread(other)) == Count(s1, Unread(other)) {
      ReadAllOthersUnchanged(s1, userId, other);
    }
  }

  /** The scan after marking all of `userId`'s rows read is the old scan
      with each row marked. */
  lemma ReadAllScan(m1: map<nat, Notification>, m2: map<nat, Notification>, n: nat, userId: int)
    requires m1.Keys == m2.Keys
    requires forall k :: k in m2 ==> m2[k] == ReadAll(m1[k], userId)
    ensures Rows(m2, n) == MapRead(Rows(m1, n), userId)
  {
    RowsRewritten(m1, m2, n, (x: Notification) => ReadAll(x, userId));
  }

  /** A scan after `markAllAsRead(userId)`. */
  function MapRead(s: seq<Notification>, userId: int): (r: seq<Notification>)
    ensures |r| == |s|
    ensures forall i :: 0 <= i < |s| ==> r[i] == ReadAll(s[i], userId)
  {
    if s == [] then [] else [ReadAll(s[0], userId)] + MapRead(s[1..], userId)
  }
}
