# Multi-tenant company backend: access rules and table invariants

This project models the authorization and validation layer of a FastAPI
backend in which users belong to companies. Each user has one role per
company: USER, MANAGER or ADMIN. Inside a company there are departments,
news, invites, tasks with comments and ratings, meetings with attendees,
and a personal calendar.

The database is an immutable `Store` value with one sequence per table.
Every HTTP handler is a pure function from a store and a request to a
`Result`:

- `Ok(Step(store', row))` is the new store and the returned row.
- `Err(status)` is an HTTP error, and nothing is written. The statuses are:
  - 400 `BadRequest`: a business-rule refusal, or an IntegrityError that the handler catches and rolls back.
  - 403 `Forbidden`
  - 404 `NotFound`
  - 422 `Unprocessable`: a request body or query the schema rejects.
  - 500 `Internal`: an IntegrityError the handler does not catch.

Each handler is modelled in the order the framework runs it:

1. The dependency guard.
2. The schema validation of the body.
3. The validator calls.
4. The write.

The table constraints (unique names, unique user–company pairs, one rating
per task, `end_at > start_at` on meetings, and the rest) form the predicate
`Store.Valid`. For every write handler, a lemma proves that it keeps that
predicate.

The modules follow the program's files:

| module | file |
|---|---|
| `Outcomes` | status codes, `Result`, `Option`, Pydantic's unset/null/given fields |
| `Records` | the ORM rows |
| `Tables` | generic table queries and lemmas |
| `Store` | the database and its constraints |
| `Schemas` | request-body validation |
| `Emails` | the strip/lower comparison of invite addresses |
| `Dependencies` | the route guards |
| `Validators` | the business-rule checks |
| `TaskCrud` | task and comment persistence |
| `CompanyEndpoints`, `CompanyInvariants` | companies, news, departments, invites, memberships |
| `TaskEndpoints`, `TaskInvariants` | tasks and comments |
| `Meetings` | meeting persistence and overlap |
| `Calendar` | the calendar service |
| `Motivation` | ratings |
| `Users` | the user manager's password and deletion rules |

Where the source disagrees with itself, the model takes the evidently intended reading and records the literal one under "## Findings":

- The `Task` table column is `due_at` (app/models/task.py:24), but the task schemas and the insert (app/crud/task.py:10-14) call it `end_at`. `TaskCrud.CreateForCompany` stores the body's `endAt` as the record's `dueAt`, which is the intended behaviour. As written, the row constructor receives an `end_at` keyword the model does not have, so every task insert ends in 500 (`TaskCrud.CreateForCompanyAsWritten`).
- For the same reason, the task update (app/api/endpoints/task.py:62) hands the generic update a patch keyed `end_at`. `TaskEndpoints.ApplyTaskUpdate` moves the due date, which is the intended behaviour. As written, the due date never moves, so an accepted patch can leave a task starting after it is due (`TaskEndpoints.ApplyTaskUpdateAsWritten`).
- The `Meeting` model names its author column `organizer_id` (app/models/meeting.py:14), but the insert (app/crud/meeting.py:13-17) and the read schema use `author_id`, which is also what a migration renames the column to. `Meetings.StoreMeeting` stores the caller as the author, which is the intended behaviour. As written, the constructor receives an `author_id` keyword, so every meeting insert ends in 500 (`Meetings.StoreMeetingAsWritten`).
- The `Invite` model (app/models/company.py:48-53) has no `email`, `manager_id` or `expires_at`. The validators and the accept handler use all three, so the record has them.
- The documentation does not settle how invite e-mails are compared. The code strips and lower-cases both sides (app/api/validators.py:62), and the model does the same.

## Model

| member | source | states |
|---|---|---|
| Schemas.ValidateTaskCreate | app/schemas/task.py:19-27 | a task body is accepted exactly when its end is not before its start; the status defaults to TODO |
| Schemas.SuppliedTaskFields | app/api/validators.py:136-137 | a field counts as supplied exactly when the client sent it, whether as a value or as null |
| Schemas.ValidateTaskUpdate | app/schemas/task.py:40-59 | a task patch is refused if any supplied field is null, if only one of the two dates is given, or if the end is before the start; otherwise it is accepted |
| Schemas.ValidateMeetingCreate | app/schemas/meeting.py:12-24 | a meeting body is accepted exactly when title and description fit their limits and the end is not before the start; equal endpoints are accepted |
| Schemas.ValidateMeetingUpdate | app/schemas/meeting.py:27-45 | a meeting patch is refused on a null field, on only one date, or on reversed dates |
| Schemas.ValidateNewsCreate | app/schemas/company.py:95-112 | news is accepted exactly when title and body are not null and the publish date is not before today's midnight; the publish date defaults to now |
| Schemas.ValidateNewsUpdate | app/schemas/company.py:123-138 | a news patch is refused on a null field or on a publish date before today's midnight |
| Schemas.PublishDateFromMidnight | app/schemas/company.py:108-112 | the publish-date rule is the same as "at or after midnight of the current day"; any later instant of today, and any future instant, is allowed |
| Schemas.ValidateCompanyUpdate | app/schemas/company.py:27-34 | a company patch is accepted exactly when its name is not an explicit null |
| Schemas.ValidateDepartmentUpdate | app/schemas/company.py:49-57 | a department patch is accepted exactly when its name is not an explicit null; a null parent is allowed |
| Schemas.ValidateMembershipUpdate | app/schemas/company.py:78-87 | a membership patch is accepted exactly when its role is not an explicit null |
| Schemas.ValidateInvite | app/schemas/company.py:147-155 | an invite body is accepted exactly when it has a role and a syntactically valid e-mail; a malformed address is refused with its own reason; department and manager stay optional |
| Schemas.ValidateRating | app/schemas/motivation.py:6-9 | a rating is accepted exactly when all three scores lie in 1..5 |
| Records.AverageInRange | app/models/motivation.py:10-16 | the computed average of three scores in 1..5 lies in 1..5 |
| Emails.MatchIgnoresPaddingAndCase | app/api/validators.py:62 | two addresses that differ only in surrounding whitespace and letter case match |
| Dependencies.AdminOrSuperuser | app/api/dependencies.py:16-30 | the guard passes exactly superusers and ADMIN members of the company, returns the caller unchanged, and refuses with 403 |
| Dependencies.SuperuserNeedsNoMembership | app/api/dependencies.py:19-20 | a superuser passes the admin guard for every company and every database state |
| Dependencies.AdminGuardAgreesWithDirectory | app/api/dependencies.py:21-29 | for a non-superuser, passing the guard is the same as holding the ADMIN role in that company's membership |
| Dependencies.AdminElsewhereGrantsNothing | app/api/dependencies.py:21-29 | a non-superuser who is ADMIN of another company but not of this one is refused here with 403, while the guard of the other company passes |
| Validators.GetOr404 | app/api/validators.py:32-36 | returns a row with the requested id exactly when one exists, and 404 otherwise |
| Validators.GetInCompanyOr404 | app/api/validators.py:39-46 | returns the row with the id only when it belongs to the company, and 404 otherwise; with unique ids, a row of another company is never returned |
| Validators.CheckUserInCompany | app/api/validators.py:49-55 | succeeds exactly when the user has a membership in the company, returns that membership, and 404 otherwise |
| Validators.CheckInviteExists | app/api/validators.py:58-64 | an accepted invite has the code, has not expired and is addressed to the caller's e-mail; an unknown code gives 404 |
| Validators.InviteCheckOrder | app/api/validators.py:58-64 | for a unique code, an expired invite gives 404 before the e-mail is compared, and a live invite for another address gives 403 |
| Validators.CheckManagerInCompany | app/api/validators.py:67-71 | succeeds exactly for a MANAGER or ADMIN member; a non-member gives 404 and a plain USER gives 400 |
| Validators.CheckBeforeInvite | app/api/validators.py:79-85 | with unique department ids, an invite passes exactly when its department (if truthy) is in the company, or else the company exists, and its manager (if truthy) is a MANAGER or ADMIN there; a missing target gives 404 and a failing manager check gives that check's own 404 or 400 |
| Validators.CheckLastAdmin | app/api/validators.py:74-76 | refuses (400) exactly when the membership is ADMIN and the company has at most one ADMIN |
| Validators.CheckBeforeUpdateMembership | app/api/validators.py:88-98 | a patch passes exactly when the department reference is valid, the member is not made their own manager, the manager reference is valid, and the last ADMIN is not demoted; self-management is refused with 400 |
| Validators.CheckBeforeDeleteMembership | app/api/validators.py:101-106 | with unique ids, a membership of the company is returned exactly when it is not the last ADMIN (400 if it is), and 404 exactly when the company has no membership with that id |
| Validators.CheckBeforeLeave | app/api/validators.py:109-112 | with one membership per user and company, the caller's membership is returned exactly when it is not the last ADMIN (400 if it is); with no membership the result is 404 |
| Validators.FullAccessMeansAdminOrAuthor | app/api/validators.py:115-119 | full access over a task or comment holds exactly for superusers, the author, and ADMIN members |
| Validators.CheckManagerCanCreateTask | app/api/validators.py:122-129 | an ADMIN may assign a task to anyone; a MANAGER only to their own subordinates (403 otherwise) |
| Validators.CheckCanUpdateTask | app/api/validators.py:132-140 | an update is allowed exactly with full access, or for the executor when the patch supplies nothing but the status |
| Validators.RequireFullAccess | app/api/validators.py:143-150 | passes exactly with full access over an object of that author, and refuses with 403 otherwise |
| Validators.CheckCanDeleteTask | app/api/validators.py:143-145 | deletion is allowed exactly with full access |
| Validators.CheckCanManageComment | app/api/validators.py:148-150 | editing or deleting a comment is allowed exactly with full access over it |
| Validators.CheckCommentInTaskAndCompany | app/api/validators.py:153-160 | with unique task ids, succeeds exactly when the task belongs to the company and a comment with that id is on that task, and returns such a comment; each miss is 404 |
| TaskCrud.CreateForCompany | app/crud/task.py:10-18 | the new task carries the body's fields (its end date as the due date), the company and the author, gets a fresh id, and is appended; no other table changes |
| Orm.Construct | app/crud/task.py:14 | building a row succeeds exactly when every keyword names an attribute of the model; an unknown keyword is an uncaught 500 |
| TaskCrud.CreateForCompanyAsWritten | app/crud/task.py:10-14 | the literal insert succeeds only when every keyword it passes is a task column, and then agrees with the intended insert |
| TaskCrud.EndAtKeywordGivesServerError | app/crud/task.py:10-14 | because `end_at` is not a column of the task model, the literal insert fails with 500 for every body |
| TaskCrud.ListByCompany | app/crud/task.py:20-22 | lists exactly the company's tasks |
| TaskCrud.GetByCompany | app/crud/task.py:24-28 | finds a task by id and company, or nothing when no task has both |
| TaskCrud.GetByCompanyExact | app/crud/task.py:24-28 | with unique ids, a task is found through its own company and never through another |
| TaskCrud.CreateForTask | app/crud/task.py:32-40 | the new comment carries the body, the task and the author, gets a fresh id, and is appended |
| TaskCrud.ListByTask | app/crud/task.py:42-44 | lists exactly the task's comments |
| TaskCrud.GetByTask | app/crud/task.py:46-50 | finds a comment by id and task, or nothing |
| CompanyEndpoints.CreateCompany | app/api/endpoints/company.py:56-73 | a taken name gives 400; otherwise the company and an ADMIN membership of its creator are added |
| CompanyEndpoints.UpdateCompany | app/api/endpoints/company.py:81-94 | for an admin or superuser: a null name gives 422, a missing company 404, and otherwise the rename succeeds exactly when no other company holds the new name (400 if one does) |
| CompanyEndpoints.UnlinkCompany | app/models/company.py:26 | a department reference is cleared exactly when it names a department of the deleted company, and kept otherwise |
| CompanyEndpoints.DropCompany | app/models/company.py:17-33 | deleting a company cascades to its departments, memberships, news, invites, tasks, comments, ratings, meetings and attendees; each surviving department, membership and invite is kept with any reference to a deleted department set to null, and every other row is kept as it was |
| CompanyEndpoints.DropCompanyLeavesNoDanglingDepartment | app/models/company.py:26 | after the cascade no parent, membership or invite refers to a department of the deleted company |
| CompanyEndpoints.RemoveCompany | app/api/endpoints/company.py:97-105 | an admin removes an existing company with its cascade; otherwise 403 or 404 |
| CompanyEndpoints.ListNews | app/api/endpoints/company.py:108-117 | lists exactly the company's news, for any member of an existing company or a superuser |
| CompanyEndpoints.CreateNews | app/api/endpoints/company.py:120-130 | for an admin or superuser: a refused body gives 422, a missing company 404, and otherwise the news, authored by the caller with the validated publish date, is published exactly when no news item has the same title and publish time (an uncaught 500 otherwise) |
| CompanyEndpoints.UpdateNews | app/api/endpoints/company.py:133-144 | for an admin or superuser: a refused patch gives 422, news missing from the company (news of another company included) 404, and otherwise the patch applies exactly when the patched (title, publish time) clashes with no other news item (an uncaught 500 otherwise); author and company never change |
| CompanyEndpoints.RemoveNews | app/api/endpoints/company.py:147-156 | admins remove exactly the named news of their company; news of another company gives 404 |
| CompanyEndpoints.ListDepartments | app/api/endpoints/company.py:159-168 | lists exactly the company's departments |
| CompanyEndpoints.CreateDepartment | app/api/endpoints/company.py:171-189 | for an admin or superuser: a missing company gives 404; otherwise a taken name in the company or a parent id that names no department is an IntegrityError answered with 400, and any other department is created; the parent may belong to another company |
| CompanyEndpoints.UpdateDepartment | app/api/endpoints/company.py:192-214 | for an admin or superuser: a null name gives 422, a department missing from the company 404, and otherwise the supplied name and parent are applied exactly when the name is free in the company and the parent exists (400 otherwise) |
| CompanyEndpoints.Unlink | app/models/company.py:26 | a reference to the deleted department becomes null and any other reference is kept |
| CompanyEndpoints.DropDepartment | app/models/company.py:26-34 | deleting a department removes exactly it, keeps every other department with a parent reference to it set to null, and keeps every membership and invite in place with only a reference to it set to null |
| CompanyEndpoints.DeleteDepartment | app/api/endpoints/company.py:217-226 | admins delete a department of their own company with the null-setting cascade |
| CompanyEndpoints.SendInvite | app/api/endpoints/company.py:229-246 | for an admin or superuser: a body the schema refuses, a malformed address included, gives 422; a failing invite check gives that check's 404 or 400; otherwise the invite is stored with the generated code exactly when the code is fresh and at most six characters long and the department exists, and is an uncaught 500 otherwise |
| CompanyEndpoints.AcceptInvite | app/api/endpoints/company.py:249-280 | an unknown, expired or foreign invite gives the invite check's 404 or 403; for a valid invite, a caller who is already a member gets 400 and anyone else joins with the invite's role, department and manager while the invite is consumed |
| CompanyEndpoints.ListMemberships | app/api/endpoints/company.py:283-292 | lists exactly the company's memberships |
| CompanyEndpoints.ApplyMembershipUpdate | app/api/endpoints/company.py:311 | a patch never changes who or which company a membership is for; unset fields are kept and null fields cleared |
| CompanyEndpoints.UpdateMembership | app/api/endpoints/company.py:295-316 | for an admin or superuser: a null role gives 422, a membership missing from the company 404, a failing membership check its own 404 or 400; otherwise exactly that membership is replaced by the patched one, except that a supplied department id naming no department gives 400 |
| CompanyEndpoints.DeleteMembership | app/api/endpoints/company.py:319-334 | an admin deletes the membership the checks approved |
| CompanyEndpoints.LeaveCompany | app/api/endpoints/company.py:337-349 | the caller leaves exactly when the leave check passes; with no membership the result is 404 |
| CompanyInvariants.UpdateMembershipKeepsAdmin | app/api/validators.py:97-98 | a membership update never leaves a company that had an ADMIN without one |
| CompanyInvariants.DeleteMembershipKeepsAdmin | app/api/validators.py:101-106 | deleting a membership never leaves a company that had an ADMIN without one |
| CompanyInvariants.LeaveCompanyKeepsAdmin | app/api/validators.py:109-112 | leaving never leaves a company that had an ADMIN without one |
| CompanyInvariants.CreateCompanyKeepsAdmins | app/api/endpoints/company.py:66-70 | after creation every company still has an ADMIN, the new company included |
| CompanyInvariants.CreateCompanyHasOneMember | app/api/endpoints/company.py:66-70 | a new company has exactly one membership, the returned one, and exactly one ADMIN |
| CompanyInvariants.AcceptInviteKeepsAdmins | app/api/endpoints/company.py:258-273 | accepting an invite leaves every company with an ADMIN |
| CompanyInvariants.RemoveCompanyKeepsAdmins | app/api/endpoints/company.py:104-105 | after removing one company, every remaining company still has an ADMIN |
| CompanyInvariants.DeleteDepartmentKeepsAdmins | app/api/endpoints/company.py:224-226 | deleting a department leaves every company with an ADMIN |
| CompanyInvariants.DeleteMembershipRemovesExactlyIt | app/api/endpoints/company.py:331-334 | exactly the deleted membership disappears and every other stays |
| CompanyInvariants.LeaveRemovesExactlyIt | app/api/endpoints/company.py:346-349 | exactly the caller's membership in that company disappears |
| CompanyInvariants.AcceptConsumesInvite | app/api/endpoints/company.py:272 | after acceptance the code is unknown (404), so a second acceptance fails |
| CompanyInvariants.AcceptMakesMember | app/api/endpoints/company.py:260-273 | after acceptance the caller is a member of the invite's company with the invite's role |
| CompanyInvariants.CreateCompanyKeepsValid | app/models/company.py:17-18 | company creation keeps all table constraints, including unique company names |
| CompanyInvariants.UpdateCompanyKeepsValid | app/models/company.py:18 | renaming keeps company names unique |
| CompanyInvariants.RemoveCompanyKeepsValid | app/models/company.py:25 | the company cascade leaves no dangling company reference |
| CompanyInvariants.CreateNewsKeepsValid | app/models/company.py:39-40 | publishing keeps (title, published_at) unique |
| CompanyInvariants.UpdateNewsKeepsValid | app/models/company.py:40 | patching news keeps (title, published_at) unique |
| CompanyInvariants.RemoveNewsKeepsValid | app/models/company.py:39-45 | removing news keeps the constraints |
| CompanyInvariants.CreateDepartmentKeepsValid | app/models/company.py:22 | department names stay unique per company |
| CompanyInvariants.UpdateDepartmentKeepsValid | app/models/company.py:22 | a department patch keeps names unique per company |
| CompanyInvariants.DeleteDepartmentKeepsValid | app/models/company.py:21-34 | the null-setting cascade keeps the constraints |
| CompanyInvariants.SendInviteKeepsValid | app/models/company.py:49 | invite codes stay unique |
| CompanyInvariants.AcceptInviteKeepsValid | app/models/company.py:30 | (user, company) stays unique |
| CompanyInvariants.UpdateMembershipKeepsValid | app/models/company.py:30 | a membership patch keeps (user, company) unique |
| CompanyInvariants.DeleteMembershipKeepsValid | app/models/company.py:30 | deleting a membership keeps the constraints |
| CompanyInvariants.LeaveCompanyKeepsValid | app/models/company.py:30 | leaving keeps the constraints |
| TaskEndpoints.CreateTask | app/api/endpoints/task.py:29-39 | for a manager, admin or superuser: a refused body gives 422 and an executor who is not a member 404; a superuser then always creates the task, and anyone else exactly when the manager rule passes (its 404, 400 or 403 otherwise); the stored task carries the body, the company and the caller |
| TaskEndpoints.ListTasks | app/api/endpoints/task.py:42-49 | members and superusers list exactly the company's tasks |
| TaskEndpoints.ApplyTaskUpdate | app/api/endpoints/task.py:62 | a patch never changes a task's id, company, author or executor; a status-only patch changes only the status; an empty patch changes nothing |
| TaskEndpoints.ApplyTaskUpdateAsWritten | app/api/endpoints/task.py:62 | the literal update is the intended one with the due date left as it was, and equals it when no end date is supplied |
| TaskEndpoints.EndAtPatchLeavesDatesCrossed | app/api/endpoints/task.py:62 | a patch the schema accepts, from start 0 and due 10 to 20 and 30, leaves the literal update starting at 20 and due at 10, while the intended update keeps the dates ordered |
| TaskEndpoints.UpdateTask | app/api/endpoints/task.py:52-62 | for a member or superuser: a refused patch gives 422, a task outside the company 404 before any permission check, and otherwise the patch applies exactly when the update rule allows it (403 otherwise), replacing exactly that task |
| TaskEndpoints.DropTask | app/models/task.py:30 | deleting a task removes its comments and its rating with it |
| TaskEndpoints.DeleteTask | app/api/endpoints/task.py:65-74 | for a member or superuser: a task outside the company gives 404 before any permission check; otherwise the task is deleted with its comments and rating exactly when the caller has full access (403 otherwise) |
| TaskEndpoints.CreateComment | app/api/endpoints/task.py:77-86 | a member comments exactly on tasks of the same company |
| TaskEndpoints.ListComments | app/api/endpoints/task.py:89-97 | lists exactly the task's comments, and only for a task of the company |
| TaskEndpoints.CommentFoundIsManageable | app/api/validators.py:148-160 | with unique ids, the comment lookup succeeds with full access over the found comment exactly when the task is in the company and its comment with that id grants full access |
| TaskEndpoints.UpdateComment | app/api/endpoints/task.py:100-113 | only the body of a comment changes; for a member or superuser the edit succeeds exactly when the task is in the company, the comment is on it and the caller has full access over it; a missing task or comment gives 404 and missing access 403 |
| TaskEndpoints.DeleteComment | app/api/endpoints/task.py:116-128 | for a member or superuser the comment is removed exactly when the task is in the company, the comment is on it and the caller has full access over it; a missing task or comment gives 404 and missing access 403 |
| TaskInvariants.ExecutorChangesOnlyStatus | app/api/validators.py:135-139 | an update by a caller without full access comes from the executor and changes at most the status |
| TaskInvariants.OutsidersCannotUpdate | app/api/validators.py:132-140 | someone who is neither full-access nor the executor can never update a task |
| TaskInvariants.CreateTaskKeepsDatesOrdered | app/schemas/task.py:23-27 | every stored task still starts no later than it is due |
| TaskInvariants.UpdateTaskKeepsDatesOrdered | app/schemas/task.py:53-59 | with the body's end date stored as the due date, updates keep every task's start no later than its due date; the literal update does not (see Findings) |
| TaskInvariants.DeleteTaskKeepsDatesOrdered | app/api/endpoints/task.py:65-74 | deletion keeps every task's dates ordered |
| TaskInvariants.UpdateTaskStaysInCompany | app/api/endpoints/task.py:60-62 | an update through one company leaves every task of another company untouched |
| TaskInvariants.DeleteTaskStaysInCompany | app/api/endpoints/task.py:72-74 | a deletion through one company keeps every task and comment of another company |
| TaskInvariants.TaskCompanyOf | app/models/task.py:20 | with unique ids, a task id has at most one company |
| TaskInvariants.UpdateCommentTouchesOne | app/api/endpoints/task.py:111-113 | a comment edit leaves every other comment unchanged |
| TaskInvariants.CreateTaskKeepsValid | app/models/task.py:16-24 | task creation keeps the table constraints |
| TaskInvariants.UpdateTaskKeepsValid | app/models/task.py:16-24 | task updates keep the table constraints |
| TaskInvariants.DeleteTaskKeepsValid | app/models/task.py:30 | task deletion with its cascade keeps the table constraints |
| TaskInvariants.CreateCommentKeepsValid | app/models/task.py:27-30 | comment creation keeps the table constraints |
| TaskInvariants.UpdateCommentKeepsValid | app/models/task.py:27-30 | comment edits keep the table constraints |
| TaskInvariants.DeleteCommentKeepsValid | app/models/task.py:27-30 | comment deletion keeps the table constraints |
| Meetings.OverlapSymmetric | app/crud/meeting.py:33 | the overlap test does not depend on which meeting comes first |
| Meetings.BackToBackDoNotOverlap | app/crud/meeting.py:33 | a meeting that ends exactly when another starts does not conflict with it |
| Meetings.OverlapMeansSharedInstant | app/crud/meeting.py:33 | for non-empty intervals, the strict comparisons hold exactly when the two half-open intervals share an instant |
| Meetings.MeetingsAtSameTime | app/crud/meeting.py:27-38 | returns exactly the meetings the user attends that overlap the period, in the company when one is given |
| Meetings.CompanyScopeNarrows | app/crud/meeting.py:35-36 | the company filter keeps exactly the unfiltered results of that company |
| Meetings.UsersFromMeeting | app/crud/meeting.py:49-55 | returns exactly the users who attend the meeting |
| Meetings.ListMeetings | app/crud/meeting.py:23-25 | lists exactly the company's meetings |
| Meetings.StoreMeeting | app/crud/meeting.py:13-21 | the insert, with the caller as author, succeeds exactly when end is after start and the company exists; a violated constraint is an uncaught 500 |
| Meetings.StoreMeetingAsWritten | app/crud/meeting.py:13-17 | the literal insert succeeds only when every keyword it passes is a meeting column, and then agrees with the intended insert |
| Meetings.AuthorKeywordGivesServerError | app/crud/meeting.py:13-17 | because `author_id` is not a column of the meeting model, the literal insert fails with 500 for every body |
| Meetings.CreateMeeting | app/api/endpoints/meeting.py:19-26 | for a manager, admin or superuser: a body the schema refuses gives 422, and an accepted body goes to the insert unchanged, whose outcome is the handler's |
| Meetings.EqualEndpointsGiveServerError | app/schemas/meeting.py:19-24 | a meeting whose end equals its start passes the schema and then fails the table check, which gives 500 |
| Meetings.ValidateMeetingCreateStrict | app/models/meeting.py:18 | the corrected schema accepts exactly the bodies whose end is strictly after the start |
| Meetings.CreateMeetingStrict | app/models/meeting.py:18 | with the corrected schema, a body that reaches the insert satisfies the table check |
| Meetings.StrictSchemaAvoidsServerError | app/models/meeting.py:18 | in an existing company, no meeting body ends in 500 under the corrected schema, and a guarded caller's empty or reversed interval gives 422 |
| Meetings.AddAttendee | app/crud/meeting.py:42-47 | an attendee row is added exactly for an existing meeting the user does not yet attend; a duplicate is an uncaught 500 |
| Meetings.AddAttendeeOnce | app/models/meeting.py:25 | adding the same attendee twice fails the second time |
| Meetings.CreateMeetingKeepsValid | app/models/meeting.py:18 | every stored meeting ends after it starts |
| Meetings.AddAttendeeKeepsValid | app/models/meeting.py:25 | (meeting, user) stays unique among attendees |
| Calendar.ScopeWindow | app/crud/calendar.py:18-19 | the window starts at the truncated instant and is not empty |
| Calendar.DayWindow | app/crud/calendar.py:18-19 | the day window starts at midnight, lasts one day and contains the current instant |
| Calendar.FetchNews | app/crud/calendar.py:22-33 | exactly the company's news published in the half-open window, each row as often as it is stored, oldest first |
| Calendar.FetchTasks | app/crud/calendar.py:35-47 | exactly the user's tasks in the company whose span overlaps the window, each as often as it is stored, by start |
| Calendar.FetchMeetings | app/crud/calendar.py:49-62 | exactly the company's meetings the user attends that overlap the window, each as often as it is stored, by start |
| Calendar.GetEvents | app/api/endpoints/calendar.py:14-28 | only members get a calendar (404 otherwise, superusers included); its news, tasks and meetings are exactly the three window queries for the caller and the company |
| Calendar.NewsWindowHalfOpen | app/crud/calendar.py:27-28 | news published at the window's start is shown and news published at its end is not |
| Calendar.SpanningTaskShown | app/crud/calendar.py:40-41 | a task that spans the whole window is shown |
| Calendar.CalendarMeetingsAreConflicts | app/crud/calendar.py:53-58 | the calendar's meetings are exactly the company-scoped conflicts of the window |
| Motivation.ListRatings | app/crud/motivation.py:21-38 | exactly the ratings of tasks the user executes that pass the given filters, newest first |
| Motivation.ListRatingsKeepsMultiplicity | app/crud/motivation.py:21-38 | every rating that passes the filters is listed as often as it is stored, and no other rating is listed |
| Motivation.UnfilteredListsAllOfUser | app/crud/motivation.py:29 | without filters every rating of a task the user executes is listed |
| Motivation.FiltersOnlyNarrow | app/crud/motivation.py:30-35 | each filter only removes ratings |
| Motivation.CompanyFilterExact | app/crud/motivation.py:30-31 | the company filter keeps exactly the ratings of that company's tasks |
| Motivation.CreateRatingForTask | app/crud/motivation.py:12-19 | stores one rating per existing task; a second rating of the task is refused with 400 |
| Motivation.EvaluateTask | app/api/endpoints/motivation.py:20-34 | invalid scores give 422 and a refused permission check its own status, before anything is written; otherwise the rating is stored exactly when the task exists and has no rating yet (400 otherwise) |
| Motivation.EvaluateOnce | app/models/motivation.py:10 | a task evaluated once cannot be evaluated again |
| Motivation.EvaluateKeepsScoresInRange | app/schemas/motivation.py:6-9 | every stored score stays in 1..5 |
| Motivation.EvaluateKeepsValid | app/models/motivation.py:10 | ratings stay unique per task |
| Motivation.RatingsSummary | app/api/endpoints/motivation.py:37-47 | a bad year or quarter gives 422 and a non-member 404; a member with a valid period always gets the list, which holds exactly the caller's ratings in that company and period |
| Users.Search | app/core/user.py:38 | reports whether and where the e-mail first occurs in the password |
| Users.ValidatePassword | app/core/user.py:35-39 | a password is too short exactly below the minimum length, and otherwise refused exactly when it contains the e-mail |
| Users.EmptyEmailOccursEverywhere | app/core/user.py:38 | an empty address occurs in every password |
| Users.EmbeddedEmailRefused | app/core/user.py:38-39 | any password that embeds the address contains it |
| Users.AnyMembership | app/core/user.py:43 | finds a membership of the user in any company, or reports there is none |
| Users.CheckBeforeDeleteUser | app/core/user.py:41-44 | deleting a user is refused with 403 exactly when they belong to some company |
| Users.MemberCannotBeDeleted | app/core/user.py:41-44 | membership in any one company blocks deletion |

## Left out

- get_all_companies (app/api/endpoints/company.py:76-78): it calls `get_multi_by_user`, which lives in the base CRUD class; that class is not part of this model.
- Dependencies.MemberOrSuperuser, Dependencies.ManagerAdminOrSuperuser: their bodies are not part of this model. They are stated as the documented rules. The first passes superusers and members of the company. The second passes superusers and MANAGER or ADMIN members. Both refuse with 403.
- The permission check of the evaluate handler (`check_can_evaluate_task`) is not part of this model. Its outcome is the `permission` input of `Motivation.EvaluateTask`.
- `generate_invite_code` is an input `code`. The mail sent in the background is not modelled (I/O).
- `invites_crud.create` is not part of this model. The expiry it stores is an input. The `created_by` column is not modelled.
- Motivation.RatingsSummary: the two averages (app/crud/motivation.py:40-84) are left out. They are floating-point database aggregates; only the list of items is modelled. Records.AverageInRange covers the per-row average.
- Calendar.ScopeWindow: month and year truncation and interval lengths come from the database clock, so they are inputs. Only the day window is computed. Calendar lengths are not modelled.
- The year and quarter of a rating's timestamp are computed by the database. They are the `yearOf` and `quarterOf` inputs of `Motivation.Periods`.
- The maximum lengths of company names, department names and news titles and bodies are not checked. Their constants are not part of this model. Meeting title and description limits are inputs.
- The minimum password length is an input. So is the current time everywhere it is used.
- The meeting-invitation endpoint is not part of this model. Its CRUD pieces (overlap query, attendee insert, attendee listing) are modelled.
- The address syntax of the e-mail field type is the `isEmail` input of `Schemas.ValidateInvite`; the syntax rules themselves come from a library outside the source and are not modelled.
- Orm.Construct: only unknown keywords are modelled; the mapped base class is not part of this model.
- Emails.MatchIgnoresPaddingAndCase: whitespace stripping and lower-casing cover ASCII only. Python's Unicode-wide `strip` and `lower` are not modelled.
- `CRUDBase.update` and `remove` are not part of this model. An update applies the supplied fields that name an attribute of the model, and a removal deletes the row.
- Department re-parenting is modelled as the source does it, with no cycle check.
- Authentication, JWT handling, the admin panel, the scheduler, migrations and concurrent sessions are left out. They are framework or infrastructure code outside the authorization layer.
- The guard dependency runs before body validation. The model fixes this order, although the framework may validate the body first. A request that fails both gets the guard's 403 here.

## Findings

| source | as written | input that shows it | evidently intended | confidence | as-written member | corrected member |
|---|---|---|---|---|---|---|
| app/crud/task.py:10-14 | the insert builds the row with `Task(**data)` from the body's own field names, so it passes `end_at`; the task model has only `due_at` (app/models/task.py:24), and the handler does not catch the constructor's error | any valid task body from an ADMIN of an existing company | the body's `end_at` is stored as the task's `due_at` | medium, not executed: the constructor of the mapped base class is not part of this model and is taken to refuse unknown keywords | TaskCrud.EndAtKeywordGivesServerError | TaskCrud.CreateForCompany |
| app/crud/meeting.py:13-17 | the insert adds `author_id` to the body's fields and builds the row with `self.model(**data)`; the meeting model has only `organizer_id` (app/models/meeting.py:14), and the handler does not catch the constructor's error | any valid meeting body from a manager of an existing company | the caller is stored as the meeting's organizer | medium, not executed: the constructor of the mapped base class is not part of this model and is taken to refuse unknown keywords | Meetings.AuthorKeywordGivesServerError | Meetings.StoreMeeting |
| app/api/endpoints/task.py:62 | the update passes a patch keyed `end_at` to the generic update, and the task model has only `due_at` (app/models/task.py:24), so the due date is never moved while the start date is | a task from 0 to 10 patched with `start_at` 20 and `end_at` 30, which the schema accepts, is stored starting at 20 and due at 10 | the patch's `end_at` moves the task's `due_at`, so the dates stay ordered | medium, not executed: the generic update is not part of this model and is taken to copy only the model's own attributes | TaskEndpoints.EndAtPatchLeavesDatesCrossed | TaskInvariants.UpdateTaskKeepsDatesOrdered |
| app/schemas/meeting.py:20-24 | the meeting schema refuses only `end_at < start_at`, while the table requires `end_at > start_at` (app/models/meeting.py:18) and the insert does not catch the violation | a meeting with `start_at == end_at` (start 600, end 600) from a manager of an existing company passes validation and fails the insert, giving 500 | the schema refuses `end_at <= start_at` with 422, so every accepted body satisfies the table check | high, not executed | Meetings.EqualEndpointsGiveServerError | Meetings.StrictSchemaAvoidsServerError |
