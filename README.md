# Freelance marketplace backend, modelled in Dafny

This project models the server side of a freelance video-editing
marketplace. Clients post jobs. Editors apply with proposals. Accepting a
proposal opens a project with the proposed price held in escrow. A project
moves through a six-status lifecycle, is tracked by milestones and an
activity log, and carries uploaded draft and final files. Payments move money
between wallets. After a completed project the two parties may review each
other. Editors keep a public portfolio. Users get notifications.

Every SQLite table becomes a class. Its rows are a `map` from rowid to a
record, and `nextId` is the next AUTOINCREMENT value. A ghost `Valid()`
states the table's CHECK, UNIQUE and key invariants. Each model method that
writes is a Dafny `method` whose `ensures` gives the whole new table. Each
query is a function over a scan of the rows in rowid order. `WHERE` is a
filter, `ORDER BY` is a sort on SQLite's value ordering and `LIMIT/OFFSET`
is a page (`Queries`).

Controllers become functions or methods that return `Result`/`Outcome` with
the typed error the handler throws or the status it sends. Checks run in
the handler's order. Query-string parameters stay strings and go through
a model of `parseInt` (`Text`).

Files:

- `common.dfy`: Option, Result and the error kinds.
- `text.dfy`: the JavaScript string operations used.
- `schema.dfy`: the CHECK enumerations of `config/db.js`.
- `queries.dfy`: scans, filters, sorting, paging and pagination arithmetic.
- Models: one file per model, for example `projects.dfy` and `payments.dfy`.
- Controllers: one file per controller, for example `payment_controller.dfy`.

Several things are parameters of the operations rather than modelled:

- the clock (`now`);
- fresh transaction ids;
- the random success of a payment;
- bcrypt and JWT;
- whether a file exists on disk;
- SQL `LIKE` matching;
- `parseFloat`;
- SQLite's `datetime` modifiers.

## Model

| member | source | states |
|---|---|---|
| Text.TrimIdempotent | backend/src/controllers/authController.js:15-17 | `trim()` applied twice gives the same as once |
| Text.TrimHasNoEdgeSpace | backend/src/controllers/authController.js:15-17 | a trimmed string neither starts nor ends with white space |
| Text.TrimEmptyIff | backend/src/controllers/portfolioController.js:200-202 | a string trims to empty exactly when it is all white space |
| Text.TrimKeepsChars | backend/src/controllers/portfolioController.js:508 | trimming adds no character |
| Text.ToLowerIdempotent | backend/src/controllers/authController.js:16 | `toLowerCase()` applied twice gives the same as once |
| Text.TrimKeepsLower | backend/src/controllers/authController.js:16 | trimming a string keeps it lower-case when it was |
| Text.LowerKeepsTrimmed | backend/src/controllers/authController.js:16 | lower-casing a trimmed string keeps it trimmed |
| Text.SplitSpec | backend/src/controllers/portfolioController.js:508 | `split(',')` gives one more piece than there are commas, no piece holds a comma, and joining the pieces back gives the input |
| Text.SplitAfter | backend/src/controllers/portfolioController.js:508 | splitting text with one separator after a comma-free prefix gives that prefix first, then the split of the rest |
| Text.SplitNone | backend/src/controllers/portfolioController.js:508 | a separator-free string splits into itself alone |
| Text.RemoveSpacesSpec | backend/src/controllers/paymentController.js:135-137 | removing white space keeps exactly the other characters, and the result is all digits exactly when every non-space character is a digit |
| Text.ParseIntRoundTrip | backend/src/controllers/portfolioController.js:42-43 | `parseInt` of the decimal text of any integer gives that integer back |
| Text.IntParam | backend/src/controllers/portfolioController.js:42-43 | a missing query parameter takes its default; a given one goes through `parseInt` |
| Text.AscendingOrderIff | backend/src/models/Job.js:126 | the order is ascending exactly when the parameter upper-cases to "ASC" |
| Queries.Rows | backend/src/models/Job.js:42-53 | a table scan yields the row of every stored rowid below `nextId` exactly once, in ascending rowid order, and nothing else |
| Queries.Ids | backend/src/models/Job.js:42-53 | the rowids a scan visits: every stored rowid below `nextId`, strictly ascending |
| Queries.Filter | backend/src/models/Job.js:92-121 | a WHERE clause keeps exactly the rows that satisfy it, and never more than there were |
| Queries.CountSplit | backend/src/models/User.js:74-92 | the rows satisfying a condition and those failing it add up to all rows |
| Queries.Page | backend/src/models/Job.js:128 | LIMIT/OFFSET is a contiguous window starting at the clamped offset, of length `limit` or up to the end; a negative limit means no limit |
| Queries.PagesAdjoin | backend/src/controllers/jobController.js:125 | two consecutive pages are adjacent slices, so paging neither skips nor repeats rows |
| Queries.ValueLtOrder | backend/src/models/Job.js:128 | SQLite's value ordering (NULL, then numbers, then text) is a strict total order |
| Queries.KeyLeTotal | backend/src/models/Job.js:128 | any two sort keys are comparable |
| Queries.KeyLeTransitive | backend/src/models/Job.js:128 | the sort-key order is transitive |
| Queries.SortBy | backend/src/models/Job.js:128 | ORDER BY returns a sorted permutation of its input |
| Queries.Select | backend/src/models/Job.js:70-135 | a query returns the LIMIT/OFFSET window of a sorted permutation of exactly the matching rows (rows with equal keys in either order), of the exact window length, and all matching rows when unlimited |
| Queries.SelectRows | backend/src/models/Job.js:42-53 | an unpaged query returns a sorted permutation of exactly the matching rows of the scan, each as often as it is stored |
| Queries.Percent | backend/src/models/Portfolio.js:141 | `Math.round(completed / total * 100)`: the nearest integer to the percentage, halves rounded up |
| Queries.PercentBounds | backend/src/models/Milestone.js:111 | for completed at most total the percentage lies in 0..100, is 0 exactly below half a percent and is 100 when all are completed |
| Queries.CeilDivBounds | backend/src/controllers/jobController.js:150 | `Math.ceil(x / y)`: the least integer at least the quotient |
| Queries.TotalPagesCovers | backend/src/controllers/jobController.js:125-150 | with a positive limit the page count is finite, covers the total with no empty last page, and every page in range starts inside the results |
| Schema.ParseRole | backend/src/config/db.js:17 | only `client`, `editor` and `admin` are stored; an accepted text is exactly that role's name and a refused one names no role |
| Schema.RoleNameParses | backend/src/config/db.js:17 | every role's name is accepted back as that role |
| Schema.ParseProjectStatus | backend/src/config/db.js:52 | only the six project statuses are stored, each under its own name |
| Schema.ParseMilestoneStatus | backend/src/config/db.js:162 | only `pending`, `in_progress` and `completed` are stored |
| Schema.ParseReviewCategory | backend/src/config/db.js:148 | only the five review categories are stored |
| Schema.ParseActivityType | backend/src/config/db.js:176-180 | only the listed activity types are stored; any other text is refused on insert |
| Schema.ActivityTypesEnumerated | backend/src/config/db.js:176-180 | there are exactly eleven activity types, all distinct |
| Schema.ActivityTypeNameParses | backend/src/config/db.js:176-180 | every activity type's name is accepted back as that type |
| Schema.ParseFileType | backend/src/config/db.js:71 | a file type is `draft` or `final` and nothing else |
| Projects.CanTransition | backend/src/models/Project.js:87-92 | true exactly when both texts name statuses and the second is listed in the first one's row of the transition table; false for an unrecognised current status |
| Projects.GetAllowedTransitions | backend/src/models/Project.js:97-99 | lists exactly the statuses `canTransition` allows from the given one, and nothing for an unrecognised status |
| Projects.TableShape | backend/src/models/Project.js:13-20 | completed and cancelled have empty rows, no status lists itself, every other row contains cancelled, only under_review leads to completed, and the allowed list is the row's names |
| Projects.TerminalIsFinal | backend/src/models/Project.js:13-20 | no chain of approved steps leaves completed or cancelled |
| Projects.CompletionFollowsReview | backend/src/models/Project.js:13-20 | in any chain of approved steps, completed is entered only from under_review |
| Projects.CompletionReachable | backend/src/models/Project.js:13-20 | from every non-terminal status some chain of approved steps reaches completed |
| Projects.Effect | backend/src/models/Project.js:118-189 | each mutator sets its target status and the update time; requestRevision adds exactly one revision and overwrites the notes, putOnHold sets the hold reason, cancel sets reason and time, complete stamps the time; ids, parties and escrow never change |
| Projects.ApprovedStepKeepsStamps | backend/src/models/Project.js:87-92 | a step that `canTransition` approves keeps the completion and cancellation stamps consistent with the status |
| Projects.UnguardedStepsBreakStamps | backend/src/models/Project.js:118-144 | the mutators do not consult the table: complete then cancel yields a cancelled project that still carries a completion time |
| Projects.NewProject | backend/src/models/Project.js:23-31 | a new project is in_progress with no revisions, escrow is the given amount or 0, and no notes or reasons |
| Projects.ProjectTable.constructor | backend/src/config/db.js:47-65 | an empty projects table |
| Projects.ProjectTable.FindById | backend/src/models/Project.js:33-48 | the stored project with that id, or nothing |
| Projects.ProjectTable.FindByUser | backend/src/models/Project.js:101-113 | a listing of exactly the projects where the user is client or editor, each as often as it is stored, newest first |
| Projects.ProjectTable.Create | backend/src/models/Project.js:23-31 | inserts exactly that new project under a fresh id and changes no other row |
| Projects.ProjectTable.Apply | backend/src/models/Project.js:118-189 | a mutator changes only its own row, as `Effect` says, and returns the row read back; an unknown id changes nothing |
| Projects.ProjectTable.UpdateStatus | backend/src/models/Project.js:72-82 | a text outside the six statuses is refused and changes nothing; otherwise only the status and update time of that row change |
| Projects.ProjectTable.Complete | backend/src/models/Project.js:118-131 | sets completed and stamps the completion time on that row only, whatever its status was |
| Projects.ProjectTable.Cancel | backend/src/models/Project.js:133-147 | sets cancelled, the reason and the cancellation time on that row only, whatever its status was |
| Projects.ProjectTable.SubmitForReview | backend/src/models/Project.js:149-151 | exactly the status update to under_review |
| Projects.ProjectTable.RequestRevision | backend/src/models/Project.js:156-167 | sets revision_requested, overwrites the notes and adds exactly one to the revision count |
| Projects.ProjectTable.PutOnHold | backend/src/models/Project.js:172-185 | sets on_hold and the hold reason on that row only |
| Projects.ProjectTable.Resume | backend/src/models/Project.js:187-189 | exactly the status update to in_progress; the hold reason stays |
| Projects.ProjectTable.Transition | backend/src/models/Project.js:87-92 | the mutators guarded by `canTransition`: a step succeeds exactly when the table allows it, and then keeps every row's stamps consistent; a refused step changes nothing |
| ProjectStats.GetProgress | backend/src/models/Project.js:244-261 | 0/0/0 without milestones; otherwise the completed count and the rounded percentage, within 0..100 and 100 when all are done |
| ProjectStats.GetStats | backend/src/models/Project.js:194-226 | nothing for an unknown project; otherwise its milestone, file and activity counts; the completed-milestone sum is NULL without milestones and otherwise the completed count; the draft and final sums are NULL without files and otherwise the per-type counts, adding up to the file count |
| Activities.CountTypePositive | backend/src/models/ProjectActivity.js:103-114 | a type is counted at least once exactly when some activity has it |
| Activities.Latest | backend/src/models/ProjectActivity.js:103-114 | `MAX(created_at)` of a type: present exactly when the type occurs, then attained by one of its activities and no activity of that type is later |
| Activities.Groups | backend/src/models/ProjectActivity.js:103-114 | one group per type present, each with that type's count |
| Activities.GroupsSumOver | backend/src/models/ProjectActivity.js:103-114 | the group counts sum to the number of activities of the listed types |
| Activities.SumOverAllTypes | backend/src/models/ProjectActivity.js:103-114 | counting over all eleven types counts every activity once |
| Activities.ActivityLog.constructor | backend/src/config/db.js:172-185 | an empty activity log |
| Activities.ActivityLog.Create | backend/src/models/ProjectActivity.js:23-30 | appends exactly one record with the given fields and metadata defaulting to `{}`; an unknown type or missing description is refused and changes nothing |
| Activities.ActivityLog.FindByProjectId | backend/src/models/ProjectActivity.js:35-49 | the LIMIT/OFFSET window of a newest-first listing of the project's activities whose author exists |
| Activities.ActivityLog.FindByUserId | backend/src/models/ProjectActivity.js:54-70 | the LIMIT/OFFSET window of a newest-first listing of the activities of projects where the user is client or editor |
| Activities.ActivityLog.FindByType | backend/src/models/ProjectActivity.js:85-98 | a listing of exactly the project's activities of that type, newest first; none for an unknown type |
| Activities.ActivityLog.OfProject | backend/src/models/ProjectActivity.js:75-80 | exactly the project's activities, each as often as it is stored |
| Activities.ActivityLog.GetProjectSummary | backend/src/models/ProjectActivity.js:103-114 | one row per type present with its count and its latest time, and the counts sum to the project's activity count |
| Activities.ActivityLog.DeleteByProjectId | backend/src/models/ProjectActivity.js:119-122 | removes all of that project's activities and no others, reporting how many |
| Milestones.Patched | backend/src/models/Milestone.js:59-71 | every field given as non-null is overwritten and every other keeps its value; the completion time is never touched |
| Milestones.PatchLaws | backend/src/models/Milestone.js:59-71 | an empty patch only refreshes the update time, and applying a patch twice is applying it once |
| Milestones.ReorderScope | backend/src/models/Milestone.js:151-163 | reordering keeps every id, changes only display orders, never touches another project's milestones, and leaves unnamed milestones alone |
| Milestones.ReorderLastWins | backend/src/models/Milestone.js:151-163 | a milestone of the project named in the batch ends with the order of the last entry naming it |
| Milestones.DefaultRowsShape | backend/src/models/Milestone.js:168-189 | the first n template entries occupy exactly the next n ids, entry i under the i-th id with display order i + 1 |
| Milestones.DefaultRowsCount | backend/src/models/Milestone.js:168-189 | inserting n template entries adds exactly n rows |
| Milestones.InsertedIsMerge | backend/src/models/Milestone.js:182-186 | running the insert statement once per entry, in order, leaves the old rows plus exactly the template rows |
| Milestones.DefaultTemplateKeys | backend/src/models/Milestone.js:168-189 | exactly five milestones, from "Project Kickoff" to "Project Approval" |
| Milestones.DefaultTemplateRows | backend/src/models/Milestone.js:168-189 | every template milestone belongs to the project, is pending, has no due date and has order 1..5 in sequence |
| Milestones.StatusCountsPartition | backend/src/models/Milestone.js:98-113 | completed + in_progress + pending = total |
| Milestones.ProgressOf | backend/src/models/Milestone.js:98-113 | NULL sums for no milestones; otherwise the completed, in_progress and pending counts, which sum to the total, and the rounded completed share within 0..100 |
| Milestones.MilestoneTable.constructor | backend/src/config/db.js:157-170 | an empty milestones table |
| Milestones.MilestoneTable.Create | backend/src/models/Milestone.js:8-15 | inserts one pending milestone with the order given, or 0 when it is missing or 0; a missing title is refused and changes nothing |
| Milestones.MilestoneTable.FindById | backend/src/models/Milestone.js:20-31 | the stored milestone with that id, or nothing |
| Milestones.MilestoneTable.FindByProjectId | backend/src/models/Milestone.js:33-40 | a listing of exactly that project's milestones, ascending by display order then due date |
| Milestones.MilestoneTable.GetProjectProgress | backend/src/models/Milestone.js:98-113 | the progress of the project's milestones; a zero total exactly when it has none |
| Milestones.MilestoneTable.UpdateStatus | backend/src/models/Milestone.js:45-57 | an unknown id matches no row and reports 0 changes, whatever the status; for a stored row an unknown status fails the CHECK and changes nothing, and otherwise only its status, completion time and update time change |
| Milestones.MilestoneTable.Update | backend/src/models/Milestone.js:59-71 | an unknown id matches no row and reports 0 changes, whatever the status; for a stored row an unknown status fails the CHECK and changes nothing, and otherwise the row is patched with COALESCE semantics and nothing else changes |
| Milestones.MilestoneTable.Complete | backend/src/models/Milestone.js:76-85 | sets completed and the completion time on that milestone only |
| Milestones.MilestoneTable.Delete | backend/src/models/Milestone.js:90-96 | removes that milestone only; the change count says whether it existed |
| Milestones.MilestoneTable.GetOverdueMilestones | backend/src/models/Milestone.js:118-132 | a listing of exactly the non-completed milestones due before today of projects where the user is client or editor, by due date |
| Milestones.MilestoneTable.GetUpcomingMilestones | backend/src/models/Milestone.js:134-146 | a listing of exactly the non-completed milestones due from today to the horizon of the user's projects, by due date; none when the horizon is NULL |
| Milestones.MilestoneTable.Reorder | backend/src/models/Milestone.js:151-163 | all or nothing: a batch holding a null entry fails and changes nothing; otherwise it applies every entry in order, scoped to the project |
| Milestones.MilestoneTable.CreateDefaultMilestones | backend/src/models/Milestone.js:168-189 | adds exactly the five template milestones under fresh ids and changes no existing row |
| MilestoneController.CheckProjectAccess | backend/src/controllers/milestoneController.js:48-55 | a missing project is NotFound, a caller who is neither client nor editor is Forbidden, and otherwise it passes |
| MilestoneController.LogMilestoneActivity | backend/src/controllers/milestoneController.js:8-15 | appends exactly one activity when the insert succeeds; a failing insert is swallowed and leaves the log as it was |
| MilestoneController.GetProjectMilestones | backend/src/controllers/milestoneController.js:66-90 | refused exactly when the access check fails; otherwise the listing of the project's milestones by display order and their progress |
| MilestoneController.CreateMilestone | backend/src/controllers/milestoneController.js:92-133 | access first, then a missing title is a ValidationError, and neither changes anything; succeeds exactly when both pass, and then stores and returns the full pending row (the order given or 0) and appends one `milestone_added` activity |
| MilestoneController.CreateDefaultMilestones | backend/src/controllers/milestoneController.js:135-165 | succeeds exactly when access passes and the project has no milestone yet; refusals change nothing; on success adds the five template milestones and returns the listing of exactly them |
| MilestoneController.InsertTemplate | backend/src/controllers/milestoneController.js:147-148 | into a project with no milestones, adds exactly the template rows and reads back the listing of exactly them |
| MilestoneController.DefaultsAreTheProject | backend/src/controllers/milestoneController.js:147-155 | after the template insert into a project with no milestones, the project's milestones are exactly the template rows |
| MilestoneController.GetMilestoneById | backend/src/controllers/milestoneController.js:167-190 | the milestone is looked up before its project's access is checked; succeeds exactly when both pass |
| MilestoneController.Found | backend/src/controllers/milestoneController.js:196-199 | a missing milestone is NotFound |
| MilestoneController.UpdateMilestone | backend/src/controllers/milestoneController.js:192-221 | existence then access, changing nothing on refusal; succeeds exactly when both pass and the status, if given, is a known one; on success the milestone is patched with COALESCE semantics |
| MilestoneController.CompleteMilestone | backend/src/controllers/milestoneController.js:223-259 | existence then access; on success that milestone is completed and one `milestone_completed` activity carries the progress computed after completion |
| MilestoneController.DeleteMilestone | backend/src/controllers/milestoneController.js:261-287 | existence then access; on success exactly that milestone is removed |
| MilestoneController.UpcomingHorizon | backend/src/controllers/milestoneController.js:308-315 | `days` defaults to 7; a value that does not parse gives a NULL horizon |
| MilestoneController.GetUpcomingMilestones | backend/src/controllers/milestoneController.js:308-326 | the listing of the user's non-completed milestones up to the horizon; nothing when `days` does not parse |
| MilestoneController.ReorderMilestones | backend/src/controllers/milestoneController.js:328-360 | access first, then a non-array `orders` is a ValidationError; succeeds exactly when access passes, `orders` is an array and no entry is null; the reorder always uses the URL's project, so other projects' milestones never change, and the project's listing is returned |
| ProjectFiles.DraftsAndFinals | backend/src/models/Project.js:194-226 | every file is a draft or a final, so the two counts sum to the file count |
| ProjectFiles.FileTable.constructor | backend/src/config/db.js:67-78 | an empty project files table |
| ProjectFiles.FileTable.Create | backend/src/models/ProjectFile.js:6-15 | stores and returns a record with the given project, uploader, type, name and path under a fresh id; an unknown type or a missing name or path is refused and changes nothing |
| ProjectFiles.FileTable.FindById | backend/src/models/ProjectFile.js:18-20 | the stored record, or nothing |
| ProjectFiles.FileTable.FindByProject | backend/src/models/ProjectFile.js:23-30 | a listing of exactly that project's files, newest first |
| ProjectFiles.FileTable.Delete | backend/src/models/ProjectFile.js:33-37 | `deleted` is true exactly when that id existed; only that file is removed |
| FileController.UploadGuard | backend/src/controllers/fileController.js:19-40 | in order: no file 400, no file_type 400, a type other than draft/final 400, unknown project 404, caller not the project's editor 403 "Only editor can upload files"; passes otherwise |
| FileController.UploadFile | backend/src/controllers/fileController.js:10-64 | creates a record, with the caller as uploader, exactly when every check passes; a refusal changes nothing |
| FileController.PartyGuard | backend/src/controllers/fileController.js:75-80 | an unknown project is 404, a caller who is neither client nor editor 403 "Access denied"; passes exactly for the project's client or editor |
| FileController.GetProjectFiles | backend/src/controllers/fileController.js:66-99 | the guard's 404 or 403 when it fails; otherwise the listing of the project's files, newest first |
| FileController.DownloadFile | backend/src/controllers/fileController.js:101-145 | in order: unknown file 404, unknown project 404, non-party 403, missing on disk 404 "File missing on disk"; otherwise the stored record |
| Payments.TransactionId | backend/src/models/Payment.js:9 | a transaction id is "PAY-" followed by at most eight characters of the fresh uuid |
| Payments.SumBalShift | backend/src/models/Payment.js:169-198 | when each balance moves by its share of a transfer, the sum of balances moves by the sum of the shares |
| Payments.SumMovedValue | backend/src/models/Payment.js:169-198 | over distinct users a transfer adds the amount for the receiver and removes it for the sender |
| Payments.MoveConserves | backend/src/models/Payment.js:154-155 | a transfer leaves the total balance of any set of users holding both parties unchanged |
| Payments.PaymentStore.constructor | backend/src/config/db.js:96-138 | empty wallets, wallet transactions and payments |
| Payments.PaymentStore.Create | backend/src/models/Payment.js:8-28 | inserts one pending payment with a fresh "PAY-" id and the given payer, payee and amount (currency USD by default); a duplicate transaction id is refused and changes nothing; wallets are untouched |
| Payments.PaymentStore.FindById | backend/src/models/Payment.js:33-49 | the stored payment whose payer and payee both have accounts, or nothing |
| Payments.PaymentStore.FindByTransactionId | backend/src/models/Payment.js:51-65 | the visible payment with that transaction id, if any |
| Payments.PaymentStore.FindByUserId | backend/src/models/Payment.js:67-107 | the LIMIT/OFFSET window of a newest-first listing of the user's visible payments in the chosen role and status |
| Payments.PaymentStore.FindByProjectId | backend/src/models/Payment.js:109-124 | a listing of exactly the project's visible payments, newest first |
| Payments.PaymentStore.UpdateWalletBalance | backend/src/models/Payment.js:169-198 | creates the wallet at 0 when missing, applies the credit or debit without a negative-balance check, changes no other wallet, and appends exactly one wallet transaction |
| Payments.MoveRecords | backend/src/models/Payment.js:190-195 | the two wallet transactions of a transfer: consecutive fresh ids, one credit described "Payment received" on the receiving wallet and one debit "Payment sent", both of the amount |
| Payments.PaymentStore.Transfer | backend/src/models/Payment.js:152-156 | two balance updates in a row: each named user's balance moves by its signed share, no other balance or payment changes, and exactly the two transactions are appended |
| Payments.PaymentStore.ProcessPayment | backend/src/models/Payment.js:126-167 | unknown id gives nothing and a non-pending payment gives "already processed", both changing nothing; a pending one becomes completed or failed, and only a completed one credits the payee, debits the payer by the amount and appends exactly the two wallet transactions |
| Payments.PaymentStore.MoveFunds | backend/src/models/Payment.js:152-156 | the paired credit and debit move the amount from one user's balance to the other's in either order, touch no other balance and no payment, and append exactly the two described wallet transactions |
| Payments.PaymentStore.GetWalletBalance | backend/src/models/Payment.js:203-223 | an existing wallet is returned unchanged; a missing one is created at balance 0 in USD |
| Payments.PaymentStore.GetWalletTransactions | backend/src/models/Payment.js:225-238 | the LIMIT/OFFSET window of a newest-first listing of the transactions of the user's own wallet; none without a wallet |
| Payments.PaymentStore.RefundPayment | backend/src/models/Payment.js:240-267 | unknown id gives nothing and a non-completed payment is refused, both changing nothing; a completed one is refunded with the reason, both wallet moves are reversed and exactly the two refund transactions are appended |
| Payments.PaymentStore.GetUserPaymentStats | backend/src/models/Payment.js:272-285 | the counts and amount sums of the completed payments the user made and received, and the count of pending ones on either side; sums are 0 without payments |
| Payments.SumAmountsPositive | backend/src/models/Payment.js:275-276 | a sum of positive amounts is non-negative, and positive exactly when there is at least one |
| Payments.StatsTotalsPositive | backend/src/models/Payment.js:272-285 | when every stored amount is positive (as `createPayment` checks), the totals are non-negative and positive exactly when the matching count is |
| Payments.ProcessThenRefund | backend/src/models/Payment.js:153-156 | processing a pending payment successfully and then refunding it returns every balance to its value before |
| PaymentController.CreateGuard | backend/src/controllers/paymentController.js:47-60 | a missing project id or amount, then a non-positive amount, are refused before any lookup; then only the project's client passes |
| PaymentController.Description | backend/src/controllers/paymentController.js:68-73 | the given description, or "Payment for project #" and the project id |
| PaymentController.CreatePayment | backend/src/controllers/paymentController.js:44-118 | creates one payment exactly when the checks pass and the id is fresh: payer is the caller, payee is the project's editor; no wallet changes |
| PaymentController.CardValidIff | backend/src/controllers/paymentController.js:135-140 | a demo card number is accepted exactly when it holds 16 non-space characters, all digits |
| PaymentController.ProcessPayment | backend/src/controllers/paymentController.js:120-181 | NotFound, then only the payer, then the card check, each changing nothing; "already processed" becomes a ValidationError; succeeds exactly for the payer of a pending payment with a valid card; a simulated failure is a success response with `success = false` |
| PaymentController.GetMyPayments | backend/src/controllers/paymentController.js:183-218 | a limit or offset that does not parse is an error; otherwise the LIMIT/OFFSET window of the caller's visible payments in the chosen role and status |
| PaymentController.GetPayment | backend/src/controllers/paymentController.js:220-255 | NotFound first; then visible exactly to its payer or payee |
| PaymentController.GetProjectPayments | backend/src/controllers/paymentController.js:257-306 | NotFound first; then only the project's client or editor sees the listing of its payments |
| PaymentController.RefundPayment | backend/src/controllers/paymentController.js:308-348 | NotFound, then only the payer, then only completed payments, each changing nothing; succeeds exactly for the payer of a completed payment, and the refund reverses both wallet moves |
| PaymentController.GetWalletBalance | backend/src/controllers/paymentController.js:350-373 | reports the caller's balance without changing any balance; 0 in USD for a caller without a wallet |
| PaymentController.GetWalletTransactions | backend/src/controllers/paymentController.js:375-401 | none without a wallet; otherwise the LIMIT/OFFSET window of the caller's own wallet's transactions |
| PaymentController.GetPaymentStats | backend/src/controllers/paymentController.js:403-442 | the caller's counts and amount sums; sums are 0 when there are no payments of that kind |
| PaymentController.AddFundsGuard | backend/src/controllers/paymentController.js:447-452 | passes exactly for 0 < amount <= 10000, with the two refusal messages |
| PaymentController.AddFunds | backend/src/controllers/paymentController.js:444-477 | credits the caller's wallet by exactly the amount, with one credit transaction, and no one else's; a refused amount changes nothing |
| Proposals.ProposalTable.constructor | backend/src/config/db.js:34-45 | an empty proposals table |
| Proposals.ProposalTable.Create | backend/src/models/Proposal.js:4-13 | stores a new pending proposal under a fresh id with the given job, editor, price and message, and nothing else changes |
| Proposals.ProposalTable.FindById | backend/src/models/Proposal.js:15-19 | found exactly when the id is a stored key, and then the stored row |
| Proposals.ProposalTable.FindByJob | backend/src/models/Proposal.js:21-31 | a listing of exactly the job's proposals whose editor exists (the inner join), each as often as it is stored, newest first |
| Proposals.ProposalTable.FindByJobAndEditor | backend/src/models/Proposal.js:33-40 | found exactly when some stored proposal has that job and editor, and then such a row |
| Proposals.ProposalTable.HasAcceptedForJob | backend/src/models/Proposal.js:56-63 | a row is returned exactly when some proposal of the job is accepted, and then it is such a proposal |
| Proposals.AddKeepsOnePerEditor | backend/src/controllers/proposalController.js:29-38 | adding a proposal under a fresh id keeps one proposal per editor and job when that editor had none on the job |
| Proposals.ProposalTable.MarkAccepted | backend/src/models/Proposal.js:42-46 | only that row changes, and only its status, to accepted; an unknown id changes nothing |
| Proposals.ProposalTable.RejectOthers | backend/src/models/Proposal.js:48-54 | exactly the job's pending proposals become rejected; every other row is unchanged |
| ProposalController.ApplyGuard | backend/src/controllers/proposalController.js:10-39 | in order: only editors, the job must exist, not already assigned, not already applied; passes exactly when all four hold |
| ProposalController.ApplyToJob | backend/src/controllers/proposalController.js:5-54 | stores exactly one pending proposal by the caller when the guard passes, nothing otherwise; keeps one proposal per editor and job |
| ProposalController.GetJobProposals | backend/src/controllers/proposalController.js:56-75 | 404 for an unknown job, 403 for anyone but its client, otherwise the listing of the job's proposals |
| ProposalController.GetMyProposalForJob | backend/src/controllers/proposalController.js:78-87 | the caller's proposal for the job, or none exactly when the caller has none |
| ProposalController.AcceptProposal | backend/src/controllers/proposalController.js:90-123 | 404/404/403 change nothing; otherwise a new project for the proposal's editor and price, the proposal accepted, every other pending proposal of the job rejected, other jobs untouched |
| ProjectController.AcceptGuard | backend/src/controllers/projectController.js:12-26 | passes exactly when the proposal and its job exist and the caller owns the job, with the two 404 messages |
| ProjectController.AcceptProposal | backend/src/controllers/projectController.js:8-43 | creates exactly one project from the proposal when the guard passes; the proposals are left as they are |
| ProjectController.GetProjectById | backend/src/controllers/projectController.js:62-85 | the project exactly when it exists and the caller is its client or editor; 404 before 403 |
| ProjectController.VisibleProjectIsMine | backend/src/controllers/projectController.js:48-85 | a project is viewable by id exactly when it is in the caller's dashboard list |
| Reviews.CategoryOrDefault | backend/src/models/Review.js:13 | a falsy category becomes `general`; a given one is accepted exactly when it names a category of the table's CHECK list (backend/src/config/db.js:148) |
| Reviews.ReviewTable.constructor | backend/src/config/db.js:140-155 | an empty reviews table |
| Reviews.ReviewTable.Create | backend/src/models/Review.js:8-15 | refused by the table's constraints exactly when the rating is missing or outside 1..5 or the category is unknown, changing nothing; otherwise stores exactly one review under a fresh id |
| Reviews.ReviewTable.FindById | backend/src/models/Review.js:20-36 | found exactly when the row exists and both its reviewer and reviewee exist (the two inner joins) |
| Reviews.ReviewTable.FindByUserId | backend/src/models/Review.js:38-63 | the LIMIT/OFFSET window of a newest-first listing of the reviews received by the user from existing reviewers, at or above a non-zero minimum rating |
| Reviews.ReviewTable.FindByReviewerId | backend/src/models/Review.js:65-81 | the LIMIT/OFFSET window of a newest-first listing of the reviews written by the reviewer about existing users |
| Reviews.ReviewTable.FindByProjectAndReviewer | backend/src/models/Review.js:83-88 | found exactly when the reviewer has a review of the project |
| Reviews.ReviewTable.Update | backend/src/models/Review.js:128-138 | on an existing row, an out-of-range rating is refused by the CHECK and changes nothing; otherwise the given fields replace the old ones (COALESCE), the rest stay, and the stamp moves; an unknown id changes nothing |
| Reviews.ReviewTable.Delete | backend/src/models/Review.js:143-146 | removes exactly that row, reporting whether it existed |
| Reviews.CanReviewIff | backend/src/models/Review.js:174-182 | a review is allowed exactly when the project is completed and reviewer and reviewee are its client and editor in either order; the relation is symmetric |
| Reviews.WholeUpToSplit | backend/src/models/Review.js:93-107 | the whole ratings of at most k stars are those of at most k - 1 stars plus bucket k, with no review counted twice |
| Reviews.StarBucketsSum | backend/src/models/Review.js:93-107 | a user nobody reviewed has NULL buckets; otherwise the five star buckets plus the reviews with a fractional rating add up to the total received |
| Reviews.WholeUpToSum | backend/src/models/Review.js:93-107 | with no whole rating of zero stars or fewer, the whole ratings of at most k stars number exactly the buckets 1 to k |
| Reviews.WholeBucketsSum | backend/src/models/Review.js:93-107 | when every rating a user received is a whole number, the five star buckets add up to the total |
| Reviews.Round2Bounds | backend/src/models/Review.js:97 | `ROUND(x, 2)` of a value in 1..5 stays in 1..5 |
| Reviews.StatsAverageBounds | backend/src/models/Review.js:93-107 | the average of a user's stats is NULL exactly when nobody reviewed the user, and otherwise lies in 1..5 |
| ReviewController.CreateGuard | backend/src/controllers/reviewController.js:71-105 | in order: a JSON null rating or a given rating outside 1..5, then no completed project shared with the reviewee, then a second review of the same project; passes exactly when none applies |
| ReviewController.Bind | backend/src/models/Review.js:8-15 | the rating the driver binds: the number when one is given, NULL when it is missing or null |
| ReviewController.CreateReview | backend/src/controllers/reviewController.js:71-136 | refusals change nothing; succeeds exactly when the guard passes and the row satisfies the table's constraints, storing exactly the one review; one review per reviewer and project is kept |
| ReviewController.MinRatingParam | backend/src/controllers/reviewController.js:145 | no floor for a falsy parameter, otherwise its parsed value |
| ReviewController.GetUserReviews | backend/src/controllers/reviewController.js:138-167 | a limit or offset that does not parse is an error; otherwise the user's stats and the LIMIT/OFFSET window of the reviews received at or above the floor, with `count` their number |
| ReviewController.GetMyReceivedReviews | backend/src/controllers/reviewController.js:193-224 | the caller's stats and the LIMIT/OFFSET window of the reviews the caller received |
| ReviewController.GetMyGivenReviews | backend/src/controllers/reviewController.js:169-191 | the LIMIT/OFFSET window of the reviews written by the caller |
| ReviewController.GetReviewById | backend/src/controllers/reviewController.js:245-265 | the review exactly when the model finds it, otherwise NotFound |
| ReviewController.UpdateGuard | backend/src/controllers/reviewController.js:267-282 | NotFound, then only the reviewer, then a truthy rating outside 1..5; a rating of 0 passes |
| ReviewController.UpdateReview | backend/src/controllers/reviewController.js:267-302 | refusals change nothing; succeeds exactly when the guard passes and the rating is not 0, replacing only the given fields of that review |
| ReviewController.DeleteReview | backend/src/controllers/reviewController.js:304-333 | NotFound first; then the reviewer or an admin removes exactly that review, anyone else is refused and nothing changes |
| Portfolios.ItemSortColumn | backend/src/models/Portfolio.js:308-309 | the requested column when it is one of created_at, views, title, otherwise created_at |
| Portfolios.CompletedWithinTotal | backend/src/models/Portfolio.js:126-127 | an editor's completed projects never outnumber all of the editor's projects |
| Reviews.AverageRating | backend/src/models/Portfolio.js:184 | the average is absent (NULL) exactly when the user has received no reviews |
| Reviews.RatingSumBounds | backend/src/config/db.js:145 | the sum of n valid ratings lies between n and 5n |
| Reviews.QuotientBounds | backend/src/models/Portfolio.js:184 | a sum between n and 5n divided by n lies in 1..5 |
| Reviews.AverageRatingBounds | backend/src/models/Portfolio.js:184 | a present average rating lies in 1..5 |
| Portfolios.Listings | backend/src/models/Portfolio.js:150-164 | one listing per editor, in the same order |
| Portfolios.Matches | backend/src/models/Portfolio.js:176-186 | one search row per editor, in the same order |
| Portfolios.AllEditors | backend/src/models/Portfolio.js:150-164 | the listings of the LIMIT/OFFSET window of the editors ordered by completed projects, most first |
| Portfolios.DescendingCounts | backend/src/models/Portfolio.js:157 | the descending sort key orders completed-project counts from high to low |
| Portfolios.EditorSortColumn | backend/src/models/Portfolio.js:221-222 | the requested column when it is in the allowed list, otherwise completed_projects |
| Portfolios.SearchEditors | backend/src/models/Portfolio.js:166-232 | the search rows of the LIMIT/OFFSET window of the stored editors meeting every criterion, sorted by the chosen column and direction |
| Portfolios.SearchEditorsCount | backend/src/models/Portfolio.js:234-265 | the count is positive exactly when some stored editor meets every criterion |
| Portfolios.SearchEditorsCountExact | backend/src/models/Portfolio.js:234-265 | the count equals the number of editors the unwindowed search returns |
| Portfolios.SuccessRate | backend/src/models/Portfolio.js:139-142 | a rate in 0..100: 0 without projects, otherwise the rounded percentage, 100 when every project is completed |
| Portfolios.PortfolioTable.constructor | backend/src/config/db.js:79-92 | an empty portfolio table |
| Portfolios.PortfolioTable.Create | backend/src/models/Portfolio.js:7-14 | stores one item under a fresh id with the given fields, an empty tag list when none is given, and zero views |
| Portfolios.PortfolioTable.FindByEditorId | backend/src/models/Portfolio.js:19-35 | a listing of exactly the editor's items whose editor exists, newest first |
| Portfolios.PortfolioTable.FindById | backend/src/models/Portfolio.js:37-52 | found exactly when the item exists and its editor exists |
| Portfolios.PortfolioTable.FindAll | backend/src/models/Portfolio.js:54-80 | the LIMIT/OFFSET window of a newest-first listing of the listed items, in the category when one is given |
| Portfolios.PortfolioTable.Update | backend/src/models/Portfolio.js:82-96 | on an existing item the given fields replace the old ones (COALESCE) and the stamp moves; an unknown id changes nothing |
| Portfolios.PortfolioTable.Delete | backend/src/models/Portfolio.js:101-105 | removes exactly that item, reporting whether it existed |
| Portfolios.PortfolioTable.IncrementViews | backend/src/models/Portfolio.js:338-342 | the item's views grow by exactly one and nothing else changes |
| Portfolios.PortfolioTable.SearchItems | backend/src/models/Portfolio.js:270-323 | the LIMIT/OFFSET window of the listed items meeting every criterion, sorted by the chosen column and direction |
| Portfolios.PortfolioTable.Categories | backend/src/models/Portfolio.js:325-336 | exactly the non-empty categories in use, each with its positive number of items |
| Portfolios.GetEditorProfile | backend/src/models/Portfolio.js:110-145 | a profile exactly for a stored editor: the public user, the editor's portfolio, the three counts and a success rate in 0..100 |
| PortfolioController.GetAllPortfolioItems | backend/src/controllers/portfolioController.js:37-51 | a limit or offset that does not parse is an error; otherwise the window of listed items, in the category when one is given |
| PortfolioController.GetAllEditors | backend/src/controllers/portfolioController.js:64-77 | the editor listings of the window of editors, most completed projects first |
| PortfolioController.GetEditorProfile | backend/src/controllers/portfolioController.js:98-111 | the profile exactly when the id parses to a stored editor, otherwise "Editor not found"; its success rate lies in 0..100 |
| PortfolioController.GetMyPortfolio | backend/src/controllers/portfolioController.js:130-142 | only editors, and then the listing of exactly the caller's own items |
| PortfolioController.TrimOrNull | backend/src/controllers/portfolioController.js:200-202 | the trimmed text, or none when nothing is given or it trims to empty |
| PortfolioController.TrimOpt | backend/src/controllers/portfolioController.js:306-310 | the trimmed text when one is given, none otherwise |
| PortfolioController.CreatePortfolioItem | backend/src/controllers/portfolioController.js:185-213 | only editors, then title and description required; on success stores exactly one item of the caller with trimmed fields; a refusal changes nothing |
| PortfolioController.GetPortfolioItem | backend/src/controllers/portfolioController.js:233-246 | the item exactly when the id parses to a listed item, otherwise NotFound |
| PortfolioController.OwnerGuard | backend/src/controllers/portfolioController.js:290-302 | NotFound for an unknown item, otherwise passes exactly for its editor |
| PortfolioController.UpdatePortfolioItem | backend/src/controllers/portfolioController.js:290-320 | refusals change nothing; the owner's update replaces exactly the given, trimmed fields of that item |
| PortfolioController.DeletePortfolioItem | backend/src/controllers/portfolioController.js:344-365 | refusals change nothing; the owner's delete removes exactly that item |
| PortfolioController.BoundParam | backend/src/controllers/portfolioController.js:427-428 | no bound exactly for a falsy parameter, otherwise the parsed one |
| PortfolioController.EditorCriteria | backend/src/controllers/portfolioController.js:425-431 | the portfolio filter is on exactly when the parameter is the text "true" |
| PortfolioController.SearchEditors | backend/src/controllers/portfolioController.js:410-453 | the window of matching editors sorted as asked, with the exact matching total, the page count of that total, and every category in use |
| PortfolioController.EditorPagesCover | backend/src/controllers/portfolioController.js:421-447 | with a positive limit, a page never holds more than `limit` editors and every page from 1 to the page count holds at least one |
| PortfolioController.TagList | backend/src/controllers/portfolioController.js:508 | a tag filter exactly when the parameter is truthy, with one trimmed, comma-free tag per comma-separated part |
| PortfolioController.TrimWithin | backend/src/controllers/portfolioController.js:508 | trimming a comma-free piece leaves it comma-free |
| PortfolioController.SearchPortfolioItems | backend/src/controllers/portfolioController.js:495-530 | the window of listed items meeting every criterion, sorted by the chosen column (created_at, DESC by default), with `count` their number |
| Jobs.MatchesRanges | backend/src/models/Job.js:92-121 | with every bound given, a job matches exactly when the text, status, budget-overlap and duration-range conditions all hold (a NULL column never satisfies a comparison) |
| Jobs.NaNBoundExcludesAll | backend/src/models/Job.js:104-121 | a numeric bound that did not parse (NULL in SQL) makes the search match no job at all |
| Jobs.SortColumn | backend/src/models/Job.js:124-125 | the requested column when it is in the allowed list, otherwise created_at |
| Jobs.JobTable.constructor | backend/src/config/db.js:21-32 | an empty jobs table |
| Jobs.JobTable.FindById | backend/src/models/Job.js:29-40 | found exactly when the job exists and its client exists (the inner join) |
| Jobs.JobTable.Create | backend/src/models/Job.js:4-27 | a missing title or description is refused by NOT NULL and changes nothing; otherwise one open job is stored under a fresh id and read back, absent when its client does not exist |
| Jobs.JobTable.FindAll | backend/src/models/Job.js:42-53 | a listing of exactly the listed jobs, each as often as it is stored, newest first |
| Jobs.JobTable.Search | backend/src/models/Job.js:70-135 | the LIMIT/OFFSET window of the listed jobs meeting every criterion, sorted by the chosen column and direction |
| Jobs.JobTable.UpdateStatus | backend/src/models/Job.js:195-198 | only that job's status changes; an unknown id changes nothing |
| Jobs.SearchCountSplits | backend/src/models/Job.js:137-174 | the count query (no join) equals the unwindowed search plus the matching jobs whose client is gone |
| Jobs.SearchCountExact | backend/src/models/Job.js:137-174 | when every job's client exists, the count equals the number of jobs the unwindowed search returns |
| JobController.CreateJobGuard | backend/src/controllers/jobController.js:9-29 | in order: only clients, then title and description required, then at least 10 and 20 characters; passes exactly when all hold |
| JobController.OrNull | backend/src/controllers/jobController.js:35-37 | a falsy number (absent or 0) becomes NULL, any other is kept |
| JobController.CreateJob | backend/src/controllers/jobController.js:4-45 | refusals change nothing; otherwise exactly one open job of the caller with the zero-to-NULL numbers |
| JobController.GetJobById | backend/src/controllers/jobController.js:162-174 | the job exactly when it is listed, otherwise 404 "Job not found" |
| JobController.NumParam | backend/src/controllers/jobController.js:130-133 | no filter exactly for a falsy parameter, otherwise the parsed bound |
| JobController.SearchJobs | backend/src/controllers/jobController.js:110-160 | page, limit, the exact matching total and its page count, and the window at `(page - 1) * limit` of the listed matching jobs sorted as asked; a page or limit that does not parse is a 500 |
| JobController.SearchPagesCover | backend/src/controllers/jobController.js:125-153 | with every client present the total is the number of matches, and every page from 1 to the page count is nonempty |
| Users.Publics | backend/src/models/User.js:33-55 | one public view per user, in the same order, without the password hash |
| Users.RolesPartition | backend/src/config/db.js:17 | every user has exactly one of the three roles, so the role counts add up to the number of users |
| Users.UserTable.constructor | backend/src/config/db.js:12-19 | an empty users table |
| Users.UserTable.Create | backend/src/models/User.js:4-11 | refused by the constraints exactly when a column is missing, the role (default client) is unknown or the email is taken, changing nothing; otherwise one user under a fresh id |
| Users.UserTable.FindByEmail | backend/src/models/User.js:13-20 | found exactly when some stored user has that email, and then that user |
| Users.UserTable.FindById | backend/src/models/User.js:22-31 | found exactly when the id is stored, and then its public view |
| Users.UserTable.FindAll | backend/src/models/User.js:33-55 | public views of matching users only, exactly the LIMIT/OFFSET window of the matching count |
| Users.FindAllMatches | backend/src/models/User.js:33-55 | every listed row is the public view of a stored user that matches the role and search filters |
| Users.CountMatchesFindAll | backend/src/models/User.js:57-72 | the count query equals the number of users the unwindowed listing returns |
| Users.UserTable.GetStats | backend/src/models/User.js:74-92 | the total is the number of users; the per-role sums are NULL exactly on an empty table and otherwise are the role counts, adding up to the total; the recent users are the public views of the five-row window of the newest users |
| Users.UserTable.Update | backend/src/models/User.js:94-119 | with no truthy field nothing changes; an unknown role or an email held by another user is refused and changes nothing; otherwise exactly the given fields of that user change |
| Users.UserTable.Delete | backend/src/models/User.js:121-130 | an unknown id changes nothing; deleting a user other rows still refer to fails the foreign key and changes nothing; otherwise returns the user as it was and removes exactly that row |
| AdminController.RequireAdmin | backend/src/controllers/adminController.js:11-16 | passes exactly for administrators, otherwise "Admin access required" |
| AdminController.NormalizeEmail | backend/src/controllers/adminController.js:99 | a lower-cased, trimmed address that is never longer than the input and is left unchanged by trimming and lower-casing again |
| AdminController.CreateRole | backend/src/controllers/adminController.js:105-106 | a known role is kept, anything else becomes client |
| AdminController.GetUsers | backend/src/controllers/adminController.js:46-72 | a page or limit that does not parse is an error; otherwise the window at `(page - 1) * limit` of the matching users, with their exact count and its page count |
| AdminController.UsersPageBounds | backend/src/controllers/adminController.js:46-72 | a page never holds more than `limit` users and every page from 1 to the page count is nonempty |
| AdminController.GetUser | backend/src/controllers/adminController.js:74-89 | the public user exactly when the id is stored, otherwise "User not found" |
| AdminController.CreateUser | backend/src/controllers/adminController.js:91-123 | the required fields, then a taken normalised email, each change nothing; otherwise exactly one user with the trimmed name, normalised email and hashed password |
| AdminController.SelfConflictAsWritten | backend/src/controllers/adminController.js:138-143 | the check as written reports a conflict when a user re-submits their own address with a capital letter; the intended check does not |
| AdminController.OwnEmailNeverConflicts | backend/src/controllers/adminController.js:138-143 | with the intended check, an address owned by the user being updated never conflicts |
| AdminController.UpdateUser | backend/src/controllers/adminController.js:128-156 | NotFound first; a conflict only for an address owned by another account; refusals change nothing; succeeds exactly for a stored user whose address is free and whose role, if truthy, is known, and then exactly the given fields change, name trimmed and address normalised |
| AdminController.DeleteUser | backend/src/controllers/adminController.js:161-190 | an admin cannot delete their own account, then NotFound, then a user still referred to by a job, proposal, project or file is refused by the foreign key; succeeds exactly when none applies, removing and returning exactly that user |
| AuthController.EmailShapeOfParts | backend/src/controllers/authController.js:34 | an address accepted by the pattern splits into a non-empty local part, `@`, a non-empty domain, `.` and a non-empty suffix, none holding `@` or white space |
| AuthController.PartsOfEmailShape | backend/src/controllers/authController.js:34 | any address built from three such parts is accepted by the pattern |
| AuthController.IsEmailIff | backend/src/controllers/authController.js:34-36 | the email check accepts exactly the addresses of that shape |
| AuthController.RegisterRole | backend/src/controllers/authController.js:54-56 | editor and admin exactly when asked for by name; anything else is client |
| AuthController.RegisterGuard | backend/src/controllers/authController.js:19-51 | in order: required fields, name of at least 3, the email pattern, password of at least 6, a free address; passes exactly when all hold; 409 only for a taken address, 400 otherwise |
| AuthController.Register | backend/src/controllers/authController.js:10-80 | refused exactly when the guard on the trimmed, normalised input fails, changing nothing; otherwise exactly one user with the hashed trimmed password |
| AuthController.Login | backend/src/controllers/authController.js:82-126 | required fields first; a session exactly when a user has the normalised address and the password matches its hash; the token is signed over that user's id and role |
| AuthController.NormalizeEmailIdempotent | backend/src/controllers/authController.js:16 | normalising an address twice gives the same as once, so a registered address is found again at login |
| AuthMiddleware.BearerToken | backend/src/middleware/authMiddleware.js:14-20 | a found token is non-empty and holds no space |
| AuthMiddleware.BearerTokenSound | backend/src/middleware/authMiddleware.js:14-20 | a found token is the second space-separated field after a first field of exactly "Bearer" |
| AuthMiddleware.BearerTokenComplete | backend/src/middleware/authMiddleware.js:14-20 | every header of that form yields its token |
| AuthMiddleware.BearerTokenIff | backend/src/middleware/authMiddleware.js:14-20 | the token is found exactly for headers of that form |
| AuthMiddleware.AuthRequired | backend/src/middleware/authMiddleware.js:10-48 | a malformed header is refused first; the caller is authenticated exactly when the token verifies to a stored user, and then is that user's id, name, email and role; every refusal is an authentication error |
| AuthMiddleware.MissingHeaderRejected | backend/src/middleware/authMiddleware.js:11-20 | a request without the header is always refused with the header message |
| AuthMiddleware.RoleNames | backend/src/middleware/authMiddleware.js:66 | one name per role, in order |
| AuthMiddleware.RequireRole | backend/src/middleware/authMiddleware.js:54-73 | no user is an authentication error; otherwise passes exactly when the user's role is among those allowed, naming them joined by "or" |
| Notifications.ReadOneIdempotent | backend/src/models/Notification.js:58-64 | marking one notification read twice is the same as once, and it changes the row exactly when the row is the caller's unread one |
| Notifications.JobInvitation | backend/src/models/Notification.js:101-110 | a job_invitation for the editor, referring to the job |
| Notifications.ProposalReceived | backend/src/models/Notification.js:115-124 | a proposal_received for the client, referring to the job |
| Notifications.ProposalAccepted | backend/src/models/Notification.js:129-138 | a proposal_accepted for the editor, referring to the project |
| Notifications.ProjectUpdate | backend/src/models/Notification.js:143-152 | a project_update for the user with the given title and message, referring to the project |
| Notifications.HelpersWellReferenced | backend/src/models/Notification.js:101-152 | every notice the four helpers build names a job or a project together with its id |
| Notifications.NotificationTable.constructor | backend/src/models/Notification.js:7-15 | an empty notifications table |
| Notifications.NotificationTable.Create | backend/src/models/Notification.js:7-15 | stores one unread notification with the notice's fields under a fresh id, and it is then found by that id |
| Notifications.NotificationTable.FindById | backend/src/models/Notification.js:20-22 | found exactly when the id is stored |
| Notifications.NotificationTable.FindByUser | backend/src/models/Notification.js:27-42 | only the user's notifications (only unread ones when asked), newest first, exactly the LIMIT/OFFSET window of their count |
| Notifications.NotificationTable.MarkAsRead | backend/src/models/Notification.js:58-64 | reports one change exactly when the row exists and belongs to the user; only that row can change, and only to read |
| Notifications.NotificationTable.MarkAllAsRead | backend/src/models/Notification.js:69-75 | reports as many changes as the user had unread; afterwards the user has none unread and every other user's unread count is unchanged |
| Notifications.NotificationTable.Delete | backend/src/models/Notification.js:80-83 | removes the row exactly when it exists and belongs to the user |
| Notifications.NotificationTable.Cleanup | backend/src/models/Notification.js:88-94 | removes exactly the read rows created before the cutoff (30 days by default), keeps every other row unchanged, and reports how many went |
| Notifications.ReadAllOthersUnchanged | backend/src/models/Notification.js:69-75 | marking one user's notifications read leaves every other user's unread count as it was |
| Notifications.ReadAllCounts | backend/src/models/Notification.js:69-75 | after marking all read the user's unread count is 0 and every other user's count is unchanged |

## Left out

- The frontend, the Express routes, `server.js`, `validation.js`, `env.js`, `swagger.js` and `errorHandler.js`: wiring, library wrappers and documentation with no rule of their own. The error kinds model the typed errors the handlers throw; how `errorHandler.js` turns them into statuses is not part of this model.
- The lifecycle handlers that `routes/projects.js` imports but `projectController.js` does not define: their code is not part of this model, so no role check around the project mutators is modelled.
- `analyticsController.js`, `notificationController.js`, `adminController.getDashboardStats`, `Job.getFilterStats`, `Review.getCategoryStats`, `Review.getTopRatedEditors` and `reviewController.getTopRatedEditors`: reporting queries or pass-throughs that change nothing. `getAllJobs`, `getMyProjects` and `getCategories` pass one model query through and are covered by that query.
- `Job.findByClient` (backend/src/models/Job.js:55-65) binds no value for its placeholder, so the driver refuses to run it; it is not modelled as a working query.
- `jobController.getMyProposalForJob` (backend/src/controllers/jobController.js:176-185) uses `Proposal`, which that file never imports, so the handler fails on every call; only the working `proposalController.getMyProposalForJob` is modelled.
- The `notifications` table is not created in `backend/src/config/db.js`. The model follows `Notification.js` and assumes `is_read` defaults to 0 and `created_at` to the current time.
- The migrations loop of `backend/src/config/db.js:195-219`, which probes and alters tables at start-up.
- Foreign-key cascades. `Users.UserTable.Delete` and `AdminController.DeleteUser` refuse to delete a user that a job, proposal, project or file still refers to, as the enforced foreign keys do. The cascades are not modelled: no delete removes or nulls other rows (`ON DELETE CASCADE`, `ON DELETE SET NULL`). Foreign keys are not checked on insert.
- Inner joins with `users` are modelled where a query's contract names them (`Users.Present`): the job, proposal, payment, review, portfolio and activity queries hide rows whose user is missing.
- Projects.ProjectTable.FindById: the inner joins with `jobs` and `users` (backend/src/models/Project.js:42-45) are not modelled, so a project whose job, client or editor row is missing is still found.
- Projects.ProjectTable.FindByUser: the inner joins with `jobs` and `users` (backend/src/models/Project.js:106-108) are not modelled, so a project whose job, client or editor row is missing is still listed.
- Milestones.MilestoneTable.FindById: the inner join with `projects` (backend/src/models/Milestone.js:22-24) is not modelled, so a milestone whose project row is missing is still found. The overdue and upcoming queries do state that join (`Milestones.PartyTo`).
- `Project.findByEditor`, `Project.findByClient`, `Project.findByStatus` and `Project.search` (backend/src/models/Project.js:50-70,228-242,266-310): listing queries that change nothing and that no modelled handler calls; `findByUser` is the project listing modelled.
- Joined display columns (names, titles, emails) that queries add to their rows.
- The response objects of `Payment.create` and of `createPortfolioItem`, beyond the stored row.
- Concurrency and atomicity: each model method runs as one atomic step. In the source, processing and refunding a payment update the payment and the two wallets in separate statements, and an interleaving between them is not modelled.
- Floating point. Amounts and averages are exact `real`s. The JavaScript doubles and their accumulation in the REAL balance column are not reproduced, and `ROUND(AVG(...), 2)` is computed exactly on reals, halves rounding up, rather than on doubles.
- `Queries.Percent`: `Math.round(c / t * 100)` is modelled as exact rounding of the rational percentage; at exact .5 boundaries the double computation can differ.
- `Text`: `trim` removes the full JavaScript white-space set (the ASCII controls, the space, no-break and Unicode space separators, the line and paragraph separators and the byte-order mark). Case conversion covers the ASCII letters only, with no Unicode case folding or normalisation. Lengths count characters rather than UTF-16 code units.
- `Text.ParseInt` models `parseInt` on decimal text: optional leading white space and sign, then digits. Hexadecimal prefixes, and values given as numbers or arrays by a JSON body, are not modelled.
- A `limit` or `offset` that `parseInt` turns into `NaN` is modelled as the query being refused ("datatype mismatch"), the way SQLite refuses a non-integer LIMIT.
- Route parameters arrive as text and SQLite compares them with integer columns by affinity. The model takes them as already-parsed integers, except where a handler itself calls `parseInt`.
- SQL `LIKE`, the JSON tag search of portfolio items, `parseFloat`, SQLite's `datetime` modifiers, bcrypt, JWT, uuid, `Math.random` and `fs.existsSync` are parameters (see above), so properties that depend on their inner workings are not stated.
- Tags given as something other than an array of strings, and their JSON encoding in the `tags` column.
- The order of the groups in `ProjectActivity.getProjectSummary` is left open; the model states the counts, not the order of the rows.
- Reviews.ReviewTable.Create and ReviewController.CreateReview: a rating is missing, JSON null or a number. Ratings given as strings or booleans, which SQLite would store by affinity, are not modelled.
- Projects.CanTransition and Projects.GetAllowedTransitions: a status text naming a property every JavaScript object inherits (`constructor`, `toString`, `__proto__` and the like) finds that property in the transition table. `canTransition` then throws a TypeError and `getAllowedTransitions` returns something other than an array. The model treats such a text as an unrecognised status: false and an empty list.
- Portfolios.PortfolioTable.Categories: returns each category with its count, as a map. The `ORDER BY count DESC` order of the rows is not modelled.
- Notifications.NotificationTable.UnreadCount has no contract of its own; it is specified through MarkAllAsRead and ReadAllCounts.

## Findings

| source | as written | input that shows it | evidently intended | confidence | as-written member | corrected member |
|---|---|---|---|---|---|---|
| backend/src/controllers/adminController.js:138-143 | the duplicate check runs when the given address differs from the stored one character for character, then looks up the lower-cased, trimmed address, which can be the user's own | user 1 stored as `a@b.c`, update with email `A@b.c`: the lookup finds user 1 itself and the update is refused with "Email already in use" | only an address that, once normalised, belongs to another account is a conflict | not executed | AdminController.SelfConflictAsWritten | AdminController.UpdateUser |
