/** The column domains of the SQLite schema created in `config/db.js`.

    Every `CHECK (col IN (...))` enumeration becomes a datatype, so that a
    stored row can only hold a permitted value; writing any other text is a
    constraint violation, which the `Parse` functions report as `None`.  Text
    columns without a CHECK keep the type `string`. */
module Schema {
  import opened Common

  /** `CURRENT_TIMESTAMP`, as an instant of the clock passed to every
      operation that stamps a row.  The stored text sorts in the same order
      as the instants it denotes. */
  type Time = int

  // ---------------------------------------------------------------- users

  datatype Role = Client | Editor | Admin

  function RoleName(r: Role): string {
    match r
    case Client => "client"
    case Editor => "editor"
    case Admin => "admin"
  }

  /** The `role IN ('client', 'editor', 'admin')` check. */
  function ParseRole(s: string): (r: Option<Role>)
    ensures r.Some? ==> RoleName(r.value) == s
    ensures r.None? ==> forall x :: RoleName(x) != s
  {
    if s == "client" then Some(Client)
    else if s == "editor" then Some(Editor)
    else if s == "admin" then Some(Admin)
    else None
  }

  /** Every role's name passes the CHECK and reads back as that role. */
  lemma RoleNameParses(r: Role)
    ensures ParseRole(RoleName(r)) == Some(r)
  {
  }

  // ------------------------------------------------------------- projects

  datatype ProjectStatus = InProgress | UnderReview | RevisionRequested | Completed | Cancelled | OnHold

  function ProjectStatusName(s: ProjectStatus): string {
    match s
    case InProgress => "in_progress"
    case UnderReview => "under_review"
    case RevisionRequested => "revision_requested"
    case Completed => "completed"
    case Cancelled => "cancelled"
    case OnHold => "on_hold"
  }

  /** The projects `status IN (...)` check, which lists the same six values
      as `Project.VALID_STATUSES`. */
  function ParseProjectStatus(s: string): (r: Option<ProjectStatus>)
    ensures r.Some? ==> ProjectStatusName(r.value) == s
    ensures r.None? ==> forall x :: ProjectStatusName(x) != s
  {
    if s == "in_progress" then Some(InProgress)
    else if s == "under_review" then Some(UnderReview)
    else if s == "revision_requested" then Some(RevisionRequested)
    else if s == "completed" then Some(Completed)
    else if s == "cancelled" then Some(Cancelled)
    else if s == "on_hold" then Some(OnHold)
    else None
  }

  // ----------------------------------------------------------- milestones

  datatype MilestoneStatus = MilestonePending | MilestoneInProgress | MilestoneCompleted

  function MilestoneStatusName(s: MilestoneStatus): string {
    match s
    case MilestonePending => "pending"
    case MilestoneInProgress => "in_progress"
    case MilestoneCompleted => "completed"
  }

  function ParseMilestoneStatus(s: string): (r: Option<MilestoneStatus>)
    ensures r.Some? ==> MilestoneStatusName(r.value) == s
    ensures r.None? ==> forall x :: MilestoneStatusName(x) != s
  {
    if s == "pending" then Some(MilestonePending)
    else if s == "in_progress" then Some(MilestoneInProgress)
    else if s == "completed" then Some(MilestoneCompleted)
    else None
  }

  // ------------------------------------------------------------- payments

  datatype PaymentStatus = PaymentPending | PaymentCompleted | PaymentFailed | PaymentRefunded

  function PaymentStatusName(s: PaymentStatus): string {
    match s
    case PaymentPending => "pending"
    case PaymentCompleted => "completed"
    case PaymentFailed => "failed"
    case PaymentRefunded => "refunded"
  }

  /** `wallet_transactions.type IN ('credit', 'debit')`. */
  datatype TxType = Credit | Debit

  function TxTypeName(t: TxType): string {
    match t
    case Credit => "credit"
    case Debit => "debit"
  }

  // -------------------------------------------------------------- reviews

  datatype ReviewCategory = General | Communication | Quality | Timeliness | Professionalism

  function ReviewCategoryName(c: ReviewCategory): string {
    match c
    case General => "general"
    case Communication => "communication"
    case Quality => "quality"
    case Timeliness => "timeliness"
    case Professionalism => "professionalism"
  }

  function ParseReviewCategory(s: string): (r: Option<ReviewCategory>)
    ensures r.Some? ==> ReviewCategoryName(r.value) == s
    ensures r.None? ==> forall x :: ReviewCategoryName(x) != s
  {
    if s == "general" then Some(General)
    else if s == "communication" then Some(Communication)
    else if s == "quality" then Some(Quality)
    else if s == "timeliness" then Some(Timeliness)
    else if s == "professionalism" then Some(Professionalism)
    else None
  }

  /** `rating INTEGER NOT NULL CHECK (rating >= 1 AND rating <= 5)`.  The
      column's INTEGER affinity keeps a number with a fractional part as a
      REAL, and the CHECK lets any number from 1 to 5 through, so ratings
      are reals. */
  predicate ValidRating(r: real) {
    1.0 <= r <= 5.0
  }

  /** A number SQLite stores as an INTEGER under INTEGER affinity. */
  predicate IsWhole(x: real) {
    x.Floor as real == x
  }

  /** A whole number above `k - 1` and at most `k` is `k`. */
  lemma WholeBetween(x: real, k: int)
    requires IsWhole(x) && (k - 1) as real < x <= k as real
    ensures x == k as real
  {
    assert x.Floor > k - 1;
  }

  // ------------------------------------------------------------ activities

  datatype ActivityType =
    | ProjectCreated | StatusChanged | MilestoneAdded | MilestoneCompletedActivity
    | FileUploaded | FileApproved | MessageSent | PaymentMade
    | ReviewSubmitted | ProjectCompleted | ProjectCancelled

  function ActivityTypeName(t: ActivityType): string {
    match t
    case ProjectCreated => "project_created"
    case StatusChanged => "status_changed"
    case MilestoneAdded => "milestone_added"
    case MilestoneCompletedActivity => "milestone_completed"
    case FileUploaded => "file_uploaded"
    case FileApproved => "file_approved"
    case MessageSent => "message_sent"
    case PaymentMade => "payment_made"
    case ReviewSubmitted => "review_submitted"
    case ProjectCompleted => "project_completed"
    case ProjectCancelled => "project_cancelled"
  }

  /** The eleven activity types, in the order the CHECK lists them. */
  const AllActivityTypes: seq<ActivityType> := [
    ProjectCreated, StatusChanged, MilestoneAdded, MilestoneCompletedActivity,
    FileUploaded, FileApproved, MessageSent, PaymentMade,
    ReviewSubmitted, ProjectCompleted, ProjectCancelled
  ]

  /** The `activity_type IN (...)` check. */
  function ParseActivityType(s: string): (r: Option<ActivityType>)
    ensures r.Some? ==> ActivityTypeName(r.value) == s
    ensures r.None? ==> forall x :: ActivityTypeName(x) != s
  {
    if s == "project_created" then Some(ProjectCreated)
    else if s == "status_changed" then Some(StatusChanged)
    else if s == "milestone_added" then Some(MilestoneAdded)
    else if s == "milestone_completed" then Some(MilestoneCompletedActivity)
    else if s == "file_uploaded" then Some(FileUploaded)
    else if s == "file_approved" then Some(FileApproved)
    else if s == "message_sent" then Some(MessageSent)
    else if s == "payment_made" then Some(PaymentMade)
    else if s == "review_submitted" then Some(ReviewSubmitted)
    else if s == "project_completed" then Some(ProjectCompleted)
    else if s == "project_cancelled" then Some(ProjectCancelled)
    else None
  }

  /** Every activity type's name passes the CHECK and reads back as that
      type. */
  lemma ActivityTypeNameParses(t: ActivityType)
    ensures ParseActivityType(ActivityTypeName(t)) == Some(t)
  {
  }

  /** The list of activity types has exactly eleven entries, no repeats and
      no omissions. */
  lemma ActivityTypesEnumerated()
    ensures |AllActivityTypes| == 11
    ensures forall i, j :: 0 <= i < j < |AllActivityTypes| ==> AllActivityTypes[i] != AllActivityTypes[j]
    ensures forall t: ActivityType :: t in AllActivityTypes
  {
    forall t: ActivityType ensures t in AllActivityTypes {
      match t
      case ProjectCreated => assert AllActivityTypes[0] == t;
      case StatusChanged => assert AllActivityTypes[1] == t;
      case MilestoneAdded => assert AllActivityTypes[2] == t;
      case MilestoneCompletedActivity => assert AllActivityTypes[3] == t;
      case FileUploaded => assert AllActivityTypes[4] == t;
      case FileApproved => assert AllActivityTypes[5] == t;
      case MessageSent => assert AllActivityTypes[6] == t;
      case PaymentMade => assert AllActivityTypes[7] == t;
      case ReviewSubmitted => assert AllActivityTypes[8] == t;
      case ProjectCompleted => assert AllActivityTypes[9] == t;
      case ProjectCancelled => assert AllActivityTypes[10] == t;
    }
  }

  // ----------------------------------------------------------------- files

  datatype FileType = Draft | Final

  function FileTypeName(t: FileType): string {
    match t
    case Draft => "draft"
    case Final => "final"
  }

  function ParseFileType(s: string): (r: Option<FileType>)
    ensures r.Some? ==> FileTypeName(r.value) == s
    ensures r.None? ==> forall x :: FileTypeName(x) != s
  {
    if s == "draft" then Some(Draft) else if s == "final" then Some(Final) else None
  }

  // ------------------------------------------------------------- proposals

  /** `proposals.status` has no CHECK; the code writes only these three
      values, starting from the column default 'pending'. */
  datatype ProposalStatus = ProposalPending | Accepted | Rejected
}
